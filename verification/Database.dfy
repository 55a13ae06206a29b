/** The counter database of db.c and command.c: lines are tokenized and dispatched to set, incr
    and get on the dictionary. Values are NUL-terminated texts. */
module Database {
  import opened Bytes
  import opened SdsArgs
  import opened SdsNumbers
  import opened DictModel
  import opened DictRuns
  import opened DictClass
  import opened Wire
  import opened SdsLaws

  const LONG_LOW: int := -LLONG_MAX - 1

  /** What a command leaves in the reply buffer. */
  datatype Reply = Text(text: ByteString) | Unchanged

  /** A text as strlen sees it: up to its first NUL. */
  function CText(s: ByteString): (t: ByteString)
    ensures t <= s && '\0' !in t && (|t| < |s| ==> s[|t|] == '\0')
    ensures '\0' !in s ==> t == s
  {
    if s == [] || s[0] == '\0' then [] else [s[0]] + CText(s[1..])
  }

  /** The text incr stores over the text of a value; None if atol or the addition overflows. */
  function Incremented(v: ByteString): Option<ByteString>
  {
    var n := Atol(CText(v));
    if LONG_LOW <= n < LLONG_MAX then Some(Decimal(n + 1)) else None
  }

  // -------------------------------------------------- the specification: a map

  type Store = map<Key, Value>

  /** What a command does. It is undefined where the C program reads uninitialized memory or overflows
      a long, and for decr, which stores pointers that are no texts; nothing is known of the store
      behind it. */
  datatype Outcome = Undefined | Done(store: Store, reply: Reply)

  function GetOn(m: Store, k: ByteString): Reply
  {
    var key := CText(k);
    if key in m then Text(CText(m[key]) + "\n") else Text("missing key\n")
  }

  function IncrOn(m: Store, k: ByteString): Outcome
  {
    if k !in m then Done(m[k := Decimal(1)], Text("ok\n"))
    else
      var v := Incremented(m[k]);
      if v.None? then Undefined else Done(m[k := v.value], Text("ok\n"))
  }

  /** The objects commandServer fills from its tokens; None is left uninitialized. */
  datatype Request = Request(action: Option<ByteString>, key: Option<ByteString>, val: Option<ByteString>)

  function TokenAt(argv: seq<ByteString>, i: nat): Option<ByteString>
  {
    if i < |argv| then Some(argv[i]) else None
  }

  /** Tokens 2, 4 and 6; the action is copied as a C string. */
  function RequestOf(argv: seq<ByteString>): Request
  {
    Request(if |argv| > 2 then Some(CText(argv[2])) else None, TokenAt(argv, 4), TokenAt(argv, 6))
  }

  /** The commands on a plain map. */
  function Execute(m: Store, rq: Request): Outcome
  {
    if rq.action == Some("get") then if rq.key.None? then Undefined else Done(m, GetOn(m, rq.key.value))
    else if rq.action == Some("set") then
      if rq.key.None? || rq.val.None? then Undefined
      else Done(m[rq.key.value := rq.val.value], Text("ok\n"))
    else if rq.action == Some("incr") then if rq.key.None? then Undefined else IncrOn(m, rq.key.value)
    else if rq.action.None? || rq.action == Some("decr") then Undefined
    else Done(m, Unchanged)
  }

  /** One line of input on a plain map. */
  function ServeOn(m: Store, line: ByteString): Outcome
  {
    var argv := Split(line);
    if argv.None? then Undefined else Execute(m, RequestOf(argv.value))
  }

  // ------------------------------------------------------------ the operations

  /** The dictionary stands for the map, with room for one more entry. */
  ghost predicate Stands(d: Dict, m: Store)
    reads d, d.table0, d.table1
  {
    d.Valid() && Agrees(d.hash, d.View(), m)
  }

  /** The dictionary and the reply are those of the outcome; None is no known reply, and then
      nothing is said of the dictionary either. */
  ghost predicate Results(d: Dict, reply: Option<Reply>, o: Outcome)
    reads d, d.table0, d.table1
  {
    if o.Done? then Stands(d, o.store) && reply == Some(o.reply) else reply == None
  }

  /** lookupKey: dictFind, with whatever rehashing that entails. */
  method LookupKey(d: Dict, key: Key, ghost m: Store) returns (v: Option<Value>)
    requires Stands(d, m)
    modifies d, d.table0, d.table1
    ensures Stands(d, m) && fresh(d.Tables() - old(d.Tables())) && v == MapGet(m, key)
  {
    FindRefines(d.hash, d.View(), m, key);
    v := d.FetchValue(key);
  }

  /** dbAdd. Its assertion holds: the key was looked up and found missing. */
  method DbAdd(d: Dict, key: Key, v: Value, ghost m: Store)
    requires Stands(d, m) && CanGrow(d.View()) && key !in m
    modifies d, d.table0, d.table1
    ensures Stands(d, m[key := v]) && fresh(d.Tables() - old(d.Tables()))
  {
    AddRefines(d.hash, d.View(), m, key, v);
    var ok := d.AddEntry(key, v);
    assert ok;
  }

  /** dbOverwrite. Its assertion holds: the key is still found, although the lookup before, and
      this one, may have moved its entry to the other table. */
  method DbOverwrite(d: Dict, key: Key, v: Value, ghost m: Store)
    requires Stands(d, m) && key in m
    modifies d, d.table0, d.table1
    ensures Stands(d, m[key := v]) && fresh(d.Tables() - old(d.Tables()))
  {
    FindRefines(d.hash, d.View(), m, key);
    var de := d.FindEntry(key);
    assert de.Some?;
    AssignOk(d.hash, d.View(), key, v);
    assert m[key := v].Keys == m.Keys;
    d.WriteValue(de.value, key, v);
  }

  method SetKey(d: Dict, key: Key, v: Value, ghost m: Store)
    requires Stands(d, m) && CanGrow(d.View())
    modifies d, d.table0, d.table1
    ensures Stands(d, m[key := v]) && fresh(d.Tables() - old(d.Tables()))
  {
    var was := LookupKey(d, key, m);
    if was.None? {
      DbAdd(d, key, v, m);
    } else {
      DbOverwrite(d, key, v, m);
    }
  }

  method IncrKey(d: Dict, key: Key, ghost m: Store) returns (reply: Option<Reply>)
    requires Stands(d, m) && CanGrow(d.View())
    modifies d, d.table0, d.table1
    ensures Results(d, reply, IncrOn(m, key)) && fresh(d.Tables() - old(d.Tables()))
  {
    var ret := LookupKey(d, key, m);
    if ret.None? {
      DbAdd(d, key, Decimal(1), m);
      return Some(Text("ok\n"));
    }
    reply := IncrValue(d, key, ret.value, m);
  }

  /** "value = atol(ret->ptr) + 1" and its storing. */
  method IncrValue(d: Dict, key: Key, was: Value, ghost m: Store) returns (reply: Option<Reply>)
    requires Stands(d, m) && MapGet(m, key) == Some(was)
    modifies d, d.table0, d.table1
    ensures Results(d, reply, IncrOn(m, key)) && fresh(d.Tables() - old(d.Tables()))
  {
    var v := Incremented(was);
    if v.None? {
      return None;
    }
    DbOverwrite(d, key, v.value, m);
    return Some(Text("ok\n"));
  }

  /** The loop of commandServer over every second token. */
  method ReadRequest(argv: seq<ByteString>) returns (rq: Request)
    ensures rq == RequestOf(argv)
  {
    rq := Request(None, None, None);
    var index := 2;
    while index < |argv|
      invariant 2 <= index && index % 2 == 0
      invariant rq.action == (if 2 < index && 2 < |argv| then Some(CText(argv[2])) else None)
      invariant rq.key == (if 4 < index then TokenAt(argv, 4) else None)
      invariant rq.val == (if 6 < index then TokenAt(argv, 6) else None)
    {
      if index == 2 {
        rq := rq.(action := Some(CText(argv[index])));
      } else if index == 4 {
        rq := rq.(key := Some(argv[index]));
      } else if index == 6 {
        rq := rq.(val := Some(argv[index]));
      }
      index := index + 2;
    }
  }

  /** The reply to get. */
  method GetKey(d: Dict, key: ByteString, ghost m: Store) returns (reply: Reply)
    requires Stands(d, m)
    modifies d, d.table0, d.table1
    ensures Stands(d, m) && fresh(d.Tables() - old(d.Tables())) && reply == GetOn(m, key)
  {
    var ret := LookupKey(d, CText(key), m);
    reply := Text(if ret.None? then "missing key\n" else CText(ret.value) + "\n");
  }

  /** The command dispatch of commandServer. */
  method Dispatch(d: Dict, rq: Request, ghost m: Store) returns (reply: Option<Reply>)
    requires Stands(d, m) && CanGrow(d.View())
    modifies d, d.table0, d.table1
    ensures Results(d, reply, Execute(m, rq)) && fresh(d.Tables() - old(d.Tables()))
  {
    if rq.action == Some("get") {
      if rq.key.None? { return None; }
      var text := GetKey(d, rq.key.value, m);
      return Some(text);
    } else if rq.action == Some("set") {
      if rq.key.None? || rq.val.None? { return None; }
      SetKey(d, rq.key.value, rq.val.value, m);
      return Some(Text("ok\n"));
    } else if rq.action == Some("incr") {
      if rq.key.None? { return None; }
      reply := IncrKey(d, rq.key.value, m);
    } else if rq.action.None? || rq.action == Some("decr") {
      return None;
    } else {
      return Some(Unchanged);
    }
  }

  method CommandServer(d: Dict, line: ByteString, ghost m: Store) returns (reply: Option<Reply>)
    requires Stands(d, m) && CanGrow(d.View())
    modifies d, d.table0, d.table1
    ensures Results(d, reply, ServeOn(m, line)) && fresh(d.Tables() - old(d.Tables()))
  {
    var ok, argv := SplitArgs(line);
    if !ok {
      return None;
    }
    var rq := ReadRequest(argv);
    reply := Dispatch(d, rq, m);
  }

  // -------------------------------------------------------------------- runs

  /** The replies up to the first undefined command, and the final store if there is none. */
  datatype Served = Served(store: Option<Store>, replies: seq<Reply>)

  function ServeAllOn(m: Store, lines: seq<ByteString>): Served
    decreases |lines|
  {
    if lines == [] then Served(Some(m), [])
    else
      match ServeOn(m, lines[0])
      case Undefined => Served(None, [])
      case Done(n, r) =>
        var rest := ServeAllOn(n, lines[1..]);
        Served(rest.store, [r] + rest.replies)
  }

  lemma ServeGrows(m: Store, line: ByteString)
    ensures ServeOn(m, line).Done? ==> |ServeOn(m, line).store| <= |m| + 1
  {
  }

  /** Serving goes on from the store reached, and not at all behind an undefined command. */
  lemma {:induction false} ServeAllMore(m: Store, a: seq<ByteString>, b: seq<ByteString>)
    ensures var first := ServeAllOn(m, a);
            ServeAllOn(m, a + b) ==
              if first.store.None? then first
              else
                var second := ServeAllOn(first.store.value, b);
                Served(second.store, first.replies + second.replies)
    decreases |a|
  {
    if a == [] {
      assert a + b == b;
      assert [] + ServeAllOn(m, b).replies == ServeAllOn(m, b).replies;
    } else {
      assert (a + b)[0] == a[0] && (a + b)[1..] == a[1..] + b;
      var o := ServeOn(m, a[0]);
      if o.Done? {
        ServeAllMore(o.store, a[1..], b);
        var first := ServeAllOn(o.store, a[1..]);
        if first.store.Some? {
          var r2 := ServeAllOn(first.store.value, b).replies;
          assert [o.reply] + (first.replies + r2) == ([o.reply] + first.replies) + r2;
        }
      }
    }
  }

  lemma ServeAllOne(m: Store, line: ByteString)
    ensures ServeAllOn(m, [line]) ==
            if ServeOn(m, line).Done? then Served(Some(ServeOn(m, line).store), [ServeOn(m, line).reply])
            else Served(None, [])
  {
    var o := ServeOn(m, line);
    if o.Done? {
      assert [line][1..] == [] && ServeAllOn(o.store, []) == Served(Some(o.store), []);
      assert [o.reply] + [] == [o.reply];
    }
  }

  lemma ServeThen(m: Store, a: seq<ByteString>, b: seq<ByteString>, m1: Store, r1: seq<Reply>, m2: Store, r2: seq<Reply>)
    requires ServeAllOn(m, a) == Served(Some(m1), r1) && ServeAllOn(m1, b) == Served(Some(m2), r2)
    ensures ServeAllOn(m, a + b) == Served(Some(m2), r1 + r2)
  {
    ServeAllMore(m, a, b);
  }

  lemma ServeOneMore(m: Store, lines: seq<ByteString>, i: nat, n: Store, replies: seq<Reply>)
    requires i < |lines| && ServeAllOn(m, lines[..i]) == Served(Some(n), replies)
    ensures var o := ServeOn(n, lines[i]);
            if o.Done? then ServeAllOn(m, lines[..i + 1]) == Served(Some(o.store), replies + [o.reply])
            else ServeAllOn(m, lines) == Served(None, replies)
  {
    assert lines[..i + 1] == lines[..i] + [lines[i]];
    ServeAllMore(m, lines[..i], [lines[i]]);
    ServeAllOne(n, lines[i]);
    if ServeOn(n, lines[i]).Undefined? {
      assert lines == lines[..i] + lines[i..];
      ServeAllMore(m, lines[..i], lines[i..]);
      assert replies + [] == replies;
    }
  }

  /** The server loop. For any run of lines the replies are those of a plain map, up to the first
      command that is undefined; `ok` says that there was none. */
  method ServeAll(d: Dict, lines: seq<ByteString>, ghost m: Store) returns (ok: bool, replies: seq<Reply>)
    requires Stands(d, m) && d.View().Total() + |lines| < 0x4000_0000_0000_0000
    modifies d, d.table0, d.table1
    ensures replies == ServeAllOn(m, lines).replies && (ok <==> ServeAllOn(m, lines).store.Some?)
    ensures ok ==> Stands(d, ServeAllOn(m, lines).store.value)
  {
    replies := [];
    ghost var now := m;
    for i := 0 to |lines|
      invariant Stands(d, now) && fresh(d.Tables() - old(d.Tables()))
      invariant d.View().Total() + |lines| - i < 0x4000_0000_0000_0000
      invariant ServeAllOn(m, lines[..i]) == Served(Some(now), replies)
    {
      ServeOneMore(m, lines, i, now, replies);
      ServeGrows(now, lines[i]);
      var r := CommandServer(d, lines[i], now);
      if r.None? {
        return false, replies;
      }
      replies := replies + [r.value];
      now := ServeOn(now, lines[i]).store;
    }
    assert lines[..|lines|] == lines;
    ok := true;
  }

  // --------------------------------------------------------------- end to end

  /** What clientBuf sends for wire-safe arguments is executed with exactly these arguments. */
  lemma ServeEncoded(m: Store, args: seq<ByteString>)
    requires forall i | 0 <= i < |args| :: WireSafe(args[i])
    ensures ServeOn(m, Encode(args)) == Execute(m, Request(TokenAt(args, 0), TokenAt(args, 1), TokenAt(args, 2)))
  {
    WireRoundTrip(args);
    var ts := WireTokens(args);
    if |args| > 0 {
      WireTokenAt(args, 0);
      assert '\0' !in args[0];
    } else {
      assert |ts| == 1;
    }
    if |args| > 1 { WireTokenAt(args, 1); }
    if |args| > 2 { WireTokenAt(args, 2); }
  }

  lemma DecimalSafe(v: int)
    ensures WireSafe(Decimal(v)) && '\0' !in Decimal(v)
  {
    var d := DecimalNat(if v < 0 then -v else v);
    assert forall i | 0 <= i < |d| :: IsDigit(d[i]);
    assert v < 0 ==> forall i | 0 < i < |Decimal(v)| :: Decimal(v)[i] == d[i - 1];
  }

  lemma IncrementedDecimal(v: int)
    requires LONG_LOW <= v < LLONG_MAX
    ensures Incremented(Decimal(v)) == Some(Decimal(v + 1))
  {
    DecimalSafe(v);
    AtolDecimal(v, []);
    assert Decimal(v) + [] == Decimal(v);
  }

  function IncrLines(k: ByteString, n: nat): seq<ByteString> { seq(n, _ => Encode(["incr", k])) }

  const OK: Reply := Text("ok\n")

  function Oks(n: nat): seq<Reply> { seq(n, _ => OK) }

  lemma OneMoreIncr(k: ByteString, n: nat)
    requires n > 0
    ensures IncrLines(k, n) == [Encode(["incr", k])] + IncrLines(k, n - 1) && Oks(n) == [OK] + Oks(n - 1)
  {
  }

  lemma IncrOnce(m: Store, k: ByteString, v: int)
    requires WireSafe(k) && LONG_LOW <= v < LLONG_MAX
    ensures ServeAllOn(m[k := Decimal(v)], [Encode(["incr", k])]) == Served(Some(m[k := Decimal(v + 1)]), [OK])
  {
    var m0 := m[k := Decimal(v)];
    ServeEncoded(m0, ["incr", k]);
    IncrementedDecimal(v);
    assert m0[k := Decimal(v + 1)] == m[k := Decimal(v + 1)];
    ServeAllOne(m0, Encode(["incr", k]));
  }

  /** n increments of a key that holds v take it to v + n, while that is a long. */
  lemma {:induction false} IncrRun(m: Store, k: ByteString, v: int, n: nat)
    requires WireSafe(k) && LONG_LOW <= v && v + n <= LLONG_MAX
    ensures ServeAllOn(m[k := Decimal(v)], IncrLines(k, n)) ==
            Served(Some(m[k := Decimal(v + n)]), Oks(n))
    decreases n
  {
    if n > 0 {
      var line, m0, m1, m2 := Encode(["incr", k]), m[k := Decimal(v)], m[k := Decimal(v + 1)], m[k := Decimal(v + n)];
      IncrOnce(m, k, v);
      IncrRun(m, k, v + 1, n - 1);
      ServeThen(m0, [line], IncrLines(k, n - 1), m1, [OK], m2, Oks(n - 1));
      OneMoreIncr(k, n);
    } else {
      assert IncrLines(k, n) == [] && Oks(n) == [];
    }
  }

  /** The lines a client sends for "set k v", n times "incr k", and "get k". */
  function CounterLines(k: ByteString, v: int, n: nat): seq<ByteString>
  {
    [Encode(["set", k, Decimal(v)])] + IncrLines(k, n) + [Encode(["get", k])]
  }

  /** End to end: from any store, setting a counter to v and incrementing it n times makes get
      reply the decimal of v + n, as long as v + n is a long. */
  lemma CounterRun(m: Store, k: ByteString, v: int, n: nat)
    requires WireSafe(k) && LONG_LOW <= v && v + n <= LLONG_MAX
    ensures ServeAllOn(m, CounterLines(k, v, n)) ==
            Served(Some(m[k := Decimal(v + n)]), Oks(n + 1) + [Text(Decimal(v + n) + "\n")])
  {
    var set_, incrs, get := Encode(["set", k, Decimal(v)]), IncrLines(k, n), Encode(["get", k]);
    var m1, m2 := m[k := Decimal(v)], m[k := Decimal(v + n)];
    CounterStarts(m, k, v);
    IncrRun(m, k, v, n);
    CounterReads(m, k, v + n);
    ServeThen(m, [set_], incrs, m1, [OK], m2, Oks(n));
    ServeThen(m, [set_] + incrs, [get], m2, [OK] + Oks(n), m2, [Text(Decimal(v + n) + "\n")]);
    OneMoreIncr(k, n + 1);
  }

  lemma CounterStarts(m: Store, k: ByteString, v: int)
    requires WireSafe(k)
    ensures ServeAllOn(m, [Encode(["set", k, Decimal(v)])]) == Served(Some(m[k := Decimal(v)]), [OK])
  {
    DecimalSafe(v);
    ServeEncoded(m, ["set", k, Decimal(v)]);
    ServeAllOne(m, Encode(["set", k, Decimal(v)]));
  }

  lemma CounterReads(m: Store, k: ByteString, v: int)
    requires WireSafe(k)
    ensures ServeAllOn(m[k := Decimal(v)], [Encode(["get", k])]) ==
            Served(Some(m[k := Decimal(v)]), [Text(Decimal(v) + "\n")])
  {
    DecimalSafe(v);
    GetStored(m, k, Decimal(v));
  }

  /** A counter that is not there starts at 1: n increments of it make get reply the decimal of n. */
  lemma FreshCounterRun(m: Store, k: ByteString, n: nat)
    requires WireSafe(k) && k !in m && 0 < n <= LLONG_MAX
    ensures ServeAllOn(m, IncrLines(k, n) + [Encode(["get", k])]) ==
            Served(Some(m[k := Decimal(n)]), Oks(n) + [Text(Decimal(n) + "\n")])
  {
    var first, others, get := Encode(["incr", k]), IncrLines(k, n - 1), Encode(["get", k]);
    var m1, m2 := m[k := Decimal(1)], m[k := Decimal(n)];
    IncrMissing(m, k);
    IncrRun(m, k, 1, n - 1);
    CounterReads(m, k, n);
    ServeThen(m, [first], others, m1, [OK], m2, Oks(n - 1));
    OneMoreIncr(k, n);
    ServeThen(m, IncrLines(k, n), [get], m2, Oks(n), m2, [Text(Decimal(n) + "\n")]);
  }

  lemma IncrMissing(m: Store, k: ByteString)
    requires WireSafe(k) && k !in m
    ensures ServeAllOn(m, [Encode(["incr", k])]) == Served(Some(m[k := Decimal(1)]), [OK])
  {
    ServeEncoded(m, ["incr", k]);
    ServeAllOne(m, Encode(["incr", k]));
  }

  /** What incr makes of any text that atol reads as a number below the largest long; that is 0 for a
      text that begins with no number. */
  lemma IncrText(m: Store, k: ByteString)
    requires WireSafe(k) && k in m && '\0' !in m[k] && LONG_LOW <= Atol(m[k]) < LLONG_MAX
    ensures ServeAllOn(m, [Encode(["incr", k])]) == Served(Some(m[k := Decimal(Atol(m[k]) + 1)]), [OK])
  {
    ServeEncoded(m, ["incr", k]);
    ServeAllOne(m, Encode(["incr", k]));
  }

  lemma GetStored(m: Store, k: ByteString, v: ByteString)
    requires WireSafe(k) && '\0' !in v
    ensures ServeAllOn(m[k := v], [Encode(["get", k])]) == Served(Some(m[k := v]), [Text(v + "\n")])
  {
    assert '\0' !in k;
    ServeEncoded(m[k := v], ["get", k]);
    ServeAllOne(m[k := v], Encode(["get", k]));
  }

  /** A value that was set is what get replies; any other key is as before. */
  lemma SetThenGet(m: Store, k: ByteString, v: ByteString)
    requires WireSafe(k) && WireSafe(v)
    ensures ServeAllOn(m, [Encode(["set", k, v]), Encode(["get", k])]) ==
            Served(Some(m[k := v]), [Text("ok\n"), Text(v + "\n")])
  {
    var s, g := Encode(["set", k, v]), Encode(["get", k]);
    assert '\0' !in v;
    ServeEncoded(m, ["set", k, v]);
    ServeAllOne(m, s);
    GetStored(m, k, v);
    ServeThen(m, [s], [g], m[k := v], [OK], m[k := v], [Text(v + "\n")]);
    assert [s] + [g] == [s, g] && [OK] + [Text(v + "\n")] == [Text("ok\n"), Text(v + "\n")];
  }

  /** get of a missing key says so. */
  lemma GetMissing(m: Store, k: ByteString)
    requires WireSafe(k) && k !in m
    ensures ServeAllOn(m, [Encode(["get", k])]) == Served(Some(m), [Text("missing key\n")])
  {
    assert '\0' !in k;
    ServeEncoded(m, ["get", k]);
    ServeAllOne(m, Encode(["get", k]));
  }

  /** An unknown command leaves the reply as it is. */
  lemma UnknownCommand(m: Store, args: seq<ByteString>)
    requires args != [] && forall i | 0 <= i < |args| :: WireSafe(args[i])
    requires args[0] != "get" && args[0] != "set" && args[0] != "incr" && args[0] != "decr"
    ensures ServeAllOn(m, [Encode(args)]) == Served(Some(m), [Unchanged])
  {
    ServeEncoded(m, args);
    ServeAllOne(m, Encode(args));
  }

  // ------------------------------------------------------ lines typed by a user

  /** What the client sends for a line: its words, encoded. */
  function SentFor(line: ByteString): ByteString
  {
    var words := Split(line);
    if words.Some? then Encode(words.value) else []
  }

  lemma TypedOne(action: ByteString, k: ByteString)
    requires Word(action) && Word(k)
    ensures SentFor(action + " " + k + "\n") == Encode([action, k])
  {
    assert [action][1..] == [] && Typed([action], ' ') == action + " ";
    assert [action] + [k] == [action, k];
    ReadsLine([action], k);
  }

  lemma TypedTwo(action: ByteString, k: ByteString, v: ByteString)
    requires Word(action) && Word(k) && Word(v)
    ensures SentFor(action + " " + k + " " + v + "\n") == Encode([action, k, v])
  {
    assert [action, k][1..] == [k] && [k][1..] == [] && Typed([k], ' ') == k + " ";
    assert Typed([action, k], ' ') == action + " " + (k + " ");
    assert action + " " + (k + " ") + v + "\n" == action + " " + k + " " + v + "\n";
    assert [action, k] + [v] == [action, k, v];
    ReadsLine([action, k], v);
  }

  lemma ActionWords()
    ensures Word("set") && Word("incr") && Word("get")
  {
  }

  /** The lines of the README: "set k v", n times "incr k", "get k", each with its line feed. */
  function TypedCounter(k: ByteString, v: int, n: nat): seq<ByteString>
  {
    [SetLine(k, Decimal(v))] + seq(n, _ => OneKeyLine("incr", k)) + [OneKeyLine("get", k)]
  }

  function SetLine(k: ByteString, v: ByteString): ByteString { "set" + " " + k + " " + v + "\n" }

  function OneKeyLine(action: ByteString, k: ByteString): ByteString { action + " " + k + "\n" }

  function SentAll(lines: seq<ByteString>): seq<ByteString>
  {
    seq(|lines|, i requires 0 <= i < |lines| => SentFor(lines[i]))
  }

  lemma SentThree(first: ByteString, other: ByteString, last: ByteString, n: nat)
    ensures SentAll([first] + seq(n, _ => other) + [last]) ==
            [SentFor(first)] + seq(n, _ => SentFor(other)) + [SentFor(last)]
  {
  }

  lemma SentCounter(k: ByteString, v: int, n: nat)
    requires Word(k)
    ensures SentAll(TypedCounter(k, v, n)) == CounterLines(k, v, n)
  {
    SentEach(k, v);
    SentThree(SetLine(k, Decimal(v)), OneKeyLine("incr", k), OneKeyLine("get", k), n);
    assert seq(n, _ => SentFor(OneKeyLine("incr", k))) == IncrLines(k, n);
  }

  lemma SentEach(k: ByteString, v: int)
    requires Word(k)
    ensures SentFor(SetLine(k, Decimal(v))) == Encode(["set", k, Decimal(v)])
    ensures SentFor(OneKeyLine("incr", k)) == Encode(["incr", k])
    ensures SentFor(OneKeyLine("get", k)) == Encode(["get", k])
  {
    ActionWords();
    DecimalSafe(v);
    WireSafeMeans(Decimal(v));
    TypedTwo("set", k, Decimal(v));
    TypedOne("incr", k);
    TypedOne("get", k);
  }

  /** From the keyboard to the reply: a user who types these lines at any store gets "ok" for all but
      the last of them, and then v + n. */
  lemma TypedCounterRun(m: Store, k: ByteString, v: int, n: nat)
    requires Word(k) && LONG_LOW <= v && v + n <= LLONG_MAX
    ensures ServeAllOn(m, SentAll(TypedCounter(k, v, n))) ==
            Served(Some(m[k := Decimal(v + n)]), Oks(n + 1) + [Text(Decimal(v + n) + "\n")])
  {
    WireSafeMeans(k);
    SentCounter(k, v, n);
    CounterRun(m, k, v, n);
  }

  /** What get replies after a set: the value up to its first NUL, but only if the key holds no
      NUL; set stores under the whole key, whereas get looks up the part before a NUL. */
  lemma GetAfterSet(m: Store, k: ByteString, v: ByteString)
    ensures GetOn(m[k := v], k) == if '\0' in k then GetOn(m, k) else Text(CText(v) + "\n")
  {
  }
}
