/** Safe iterators: dictNext over the two tables while the caller adds, finds and deletes. An
    entry pointer is represented by the key it points to, keys being unique in the tables. */
module DictIterator {
  import opened Bytes
  import opened DictModel
  import opened DictRuns
  import opened DictClass

  datatype Iter = Iter(table: nat, index: int, entry: Option<Key>, next: Option<Key>)

  const START: Iter := Iter(0, -1, None, None)

  function Buckets(s: State, table: nat): seq<Chain> { if table == 0 then s.ht0.buckets else s.ht1.buckets }

  /** The chain from the entry of k on. */
  function Suffix(c: Chain, k: Key): Chain
  {
    if c == [] then [] else if c[0].key == k then c else Suffix(c[1..], k)
  }

  predicate InSuffix(c: Chain, from: Key, k: Key) { FindIn(Suffix(c, from), k).Some? }

  /** `entry->next`. */
  function After(c: Chain, k: Key): Option<Key>
  {
    var rest := Suffix(c, k);
    if |rest| > 1 then Some(rest[1].key) else None
  }

  // ------------------------------------------------------ suffixes of chains

  lemma {:induction false} SuffixDistinct(c: Chain, k: Key)
    requires Distinct(c)
    ensures Distinct(Suffix(c, k))
  {
    if c != [] && c[0].key != k {
      SuffixDistinct(c[1..], k);
    }
  }

  lemma {:induction false} SuffixStarts(c: Chain, k: Key)
    requires FindIn(c, k).Some?
    ensures Suffix(c, k) != [] && Suffix(c, k)[0].key == k
  {
    if c[0].key != k {
      SuffixStarts(c[1..], k);
    }
  }

  lemma {:induction false} SuffixWithin(c: Chain, from: Key, k: Key)
    requires InSuffix(c, from, k)
    ensures FindIn(c, k).Some?
  {
    if c[0].key != from {
      SuffixWithin(c[1..], from, k);
    }
  }

  /** Past the entry of k, the chain goes on with its successor. */
  lemma {:induction false} SuffixOfNext(c: Chain, k: Key)
    requires Distinct(c) && FindIn(c, k).Some? && After(c, k).Some?
    ensures Suffix(c, After(c, k).value) == Suffix(c, k)[1..]
    ensures FindIn(c, After(c, k).value).Some? && After(c, k).value != k
  {
    if c[0].key != k {
      SuffixOfNext(c[1..], k);
      SuffixWithin(c[1..], k, After(c, k).value);
    } else {
      assert c[1].key != k;
      assert Suffix(c[1..], c[1].key) == c[1..];
    }
  }

  lemma InSuffixSteps(c: Chain, k: Key, x: Key)
    requires Distinct(c) && FindIn(c, k).Some?
    ensures InSuffix(c, k, x) <==> x == k || (After(c, k).Some? && InSuffix(c, After(c, k).value, x))
    ensures After(c, k).Some? ==> After(c, k).value != k && FindIn(c, After(c, k).value).Some?
    ensures After(c, k).Some? ==> !InSuffix(c, After(c, k).value, k)
  {
    SuffixStarts(c, k);
    SuffixDistinct(c, k);
    if After(c, k).Some? {
      SuffixOfNext(c, k);
    } else {
      assert Suffix(c, k)[1..] == [] && FindIn(Suffix(c, k)[1..], x).None?;
    }
  }

  lemma {:induction false} SetInSuffix(c: Chain, k: Key, v: Value, from: Key, x: Key)
    ensures InSuffix(SetIn(c, k, v), from, x) <==> InSuffix(c, from, x)
  {
    if c == [] {
    } else if c[0].key == from {
      SetInFind(c, k, v, x);
    } else if c[0].key == k {
      assert SetIn(c, k, v)[1..] == c[1..];
    } else {
      assert SetIn(c, k, v)[1..] == SetIn(c[1..], k, v);
      SetInSuffix(c[1..], k, v, from, x);
    }
  }

  lemma {:induction false} SetInFind(c: Chain, k: Key, v: Value, x: Key)
    ensures FindIn(SetIn(c, k, v), x).Some? <==> FindIn(c, x).Some?
    ensures c != [] ==> SetIn(c, k, v)[0].key == c[0].key
  {
    if c != [] {
      if c[0].key == k {
        assert SetIn(c, k, v)[1..] == c[1..];
      } else {
        assert SetIn(c, k, v)[1..] == SetIn(c[1..], k, v);
        SetInFind(c[1..], k, v, x);
      }
    }
  }

  lemma {:induction false} RemoveInSuffix(c: Chain, k: Key, from: Key, x: Key)
    requires Distinct(c) && from != k && x != k
    ensures InSuffix(RemoveIn(c, k), from, x) <==> InSuffix(c, from, x)
  {
    if c == [] {
    } else if c[0].key == from {
      if FindIn(c, k).Some? { RemoveInOk(c, k); } else { RemoveAbsent(c, k); }
      assert RemoveIn(c, k)[0] == c[0];
    } else if c[0].key != k {
      assert RemoveIn(c, k)[1..] == RemoveIn(c[1..], k);
      RemoveInSuffix(c[1..], k, from, x);
    }
  }

  lemma {:induction false} RemoveAbsent(c: Chain, k: Key)
    requires FindIn(c, k).None?
    ensures RemoveIn(c, k) == c
  {
    if c != [] {
      RemoveAbsent(c[1..], k);
    }
  }

  // ------------------------------------------------------------------ dictNext

  /** Iterators in use: not started, or resting on the entry just returned, whose saved
      successor is still in the chain (the entry itself may be gone). */
  ghost predicate Usable(s: State, it: Iter)
  {
    && it.table <= 1 && (it.table == 1 ==> s.Rehashing())
    && (it.entry.None? ==> it == START)
    && (it.entry.Some? ==>
          && 0 <= it.index < |Buckets(s, it.table)|
          && (it.next.Some? ==>
                && it.next != it.entry
                && FindIn(Buckets(s, it.table)[it.index], it.next.value).Some?))
  }

  /** dictNext, with the pass over empty buckets as recursion. */
  function NextFrom(s: State, it: Iter): (r: (Iter, Option<Key>))
    requires it.table <= 1 && -1 <= it.index
    requires it.entry.Some? ==> it.index >= 0
    requires it.index < |Buckets(s, it.table)| || it.entry.None?
    decreases 2 - it.table, |Buckets(s, it.table)| - it.index, if it.entry.Some? then 1 else 0
  {
    var b := Buckets(s, it.table);
    if it.entry.Some? then
      if it.next.Some? then (it.(entry := it.next, next := After(b[it.index], it.next.value)), it.next)
      else NextFrom(s, Iter(it.table, it.index, None, None))
    else if it.index + 1 < |b| then
      Enter(s, it.table, it.index + 1)
    else if s.Rehashing() && it.table == 0 && s.ht1.buckets != [] then
      Enter(s, 1, 0)
    else
      (it.(index := it.index + 1), None)
  }

  /** The iterator arrives at a bucket: its first entry, or on to the next bucket. */
  function Enter(s: State, table: nat, i: nat): (r: (Iter, Option<Key>))
    requires table <= 1 && i < |Buckets(s, table)|
    decreases 2 - table, |Buckets(s, table)| - i, 1
  {
    var c := Buckets(s, table)[i];
    if c == [] then NextFrom(s, Iter(table, i, None, None))
    else (Iter(table, i, Some(c[0].key), After(c, c[0].key)), Some(c[0].key))
  }

  /** Some key of the table lies beyond bucket i, or in the table still to come. */
  predicate Beyond(h: Hash, s: State, table: nat, i: int, k: Key)
  {
    || (table == 0 && Get(h, s.ht1.buckets, k).Some?)
    || (Get(h, Buckets(s, table), k).Some? && Slot(h, k, |Buckets(s, table)|) > i)
  }

  /** k is stored and the iterator has yet to come to it. */
  predicate Ahead(h: Hash, s: State, it: Iter, k: Key)
  {
    || Beyond(h, s, it.table, it.index, k)
    || (it.entry.Some? && it.next.Some? && 0 <= it.index < |Buckets(s, it.table)| &&
        InSuffix(Buckets(s, it.table)[it.index], it.next.value, k))
  }

  /** What a call returns: a key that was ahead, taking exactly that key from the keys ahead;
      or null, and then there were none. */
  ghost predicate Taken(h: Hash, s: State, it: Iter, r: (Iter, Option<Key>))
  {
    && (r.1.Some? ==>
          && Usable(s, r.0) && r.0.entry == r.1 && Lookup(h, s, r.1.value).Some?
          && Ahead(h, s, it, r.1.value) && !Ahead(h, s, r.0, r.1.value)
          && forall x | x != r.1.value :: Ahead(h, s, r.0, x) <==> Ahead(h, s, it, x))
    && (r.1.None? ==> forall x :: !Ahead(h, s, it, x))
  }

  lemma TakenAlike(h: Hash, s: State, it: Iter, it2: Iter, r: (Iter, Option<Key>))
    requires Taken(h, s, it, r) && forall x :: Ahead(h, s, it2, x) <==> Ahead(h, s, it, x)
    ensures Taken(h, s, it2, r)
  {
  }

  function Between(table: nat, i: int): Iter { Iter(table, i, None, None) }

  lemma AheadOfBucket(h: Hash, s: State, table: nat, i: nat)
    requires Ok(h, s) && table <= 1 && i < |Buckets(s, table)|
    ensures forall x :: Ahead(h, s, Between(table, i - 1), x) <==>
                        Beyond(h, s, table, i, x) || FindIn(Buckets(s, table)[i], x).Some?
  {
  }

  /** Nothing of a table lies beyond its last bucket; what is left is the other table. */
  lemma AheadOfEnd(h: Hash, s: State, table: nat, i: int)
    requires Ok(h, s) && table <= 1 && i + 1 >= |Buckets(s, table)|
    ensures forall x :: Ahead(h, s, Between(table, i), x) <==>
                        table == 0 && s.Rehashing() && Ahead(h, s, Between(1, -1), x)
  {
  }

  /** Coming to rest on an entry k of bucket i. */
  lemma Rest(h: Hash, s: State, table: nat, i: nat, k: Key)
    requires Ok(h, s) && table <= 1 && i < |Buckets(s, table)| && (table == 1 ==> s.Rehashing())
    requires FindIn(Buckets(s, table)[i], k).Some?
    ensures var it := Iter(table, i, Some(k), After(Buckets(s, table)[i], k));
            && Usable(s, it) && Lookup(h, s, k).Some? && !Ahead(h, s, it, k)
            && forall x | x != k ::
                 Ahead(h, s, it, x) <==> Beyond(h, s, table, i, x) || InSuffix(Buckets(s, table)[i], k, x)
  {
    var c := Buckets(s, table)[i];
    forall x ensures InSuffix(c, k, x) <==> x == k || (After(c, k).Some? && InSuffix(c, After(c, k).value, x)) {
      InSuffixSteps(c, k, x);
    }
    InSuffixSteps(c, k, k);
  }

  lemma RestOnHead(h: Hash, s: State, table: nat, i: nat)
    requires Ok(h, s) && table <= 1 && i < |Buckets(s, table)| && (table == 1 ==> s.Rehashing())
    requires Buckets(s, table)[i] != []
    ensures Taken(h, s, Between(table, i - 1), Enter(s, table, i))
  {
    var c := Buckets(s, table)[i];
    AheadOfBucket(h, s, table, i);
    Rest(h, s, table, i, c[0].key);
    assert Suffix(c, c[0].key) == c;
  }

  lemma {:induction false} EnterOk(h: Hash, s: State, table: nat, i: nat)
    requires Ok(h, s) && table <= 1 && i < |Buckets(s, table)| && (table == 1 ==> s.Rehashing())
    ensures Taken(h, s, Between(table, i - 1), Enter(s, table, i))
    decreases 2 - table, |Buckets(s, table)| - i, 1
  {
    if Buckets(s, table)[i] == [] {
      NextBucketOk(h, s, table, i);
      AheadOfBucket(h, s, table, i);
      TakenAlike(h, s, Between(table, i), Between(table, i - 1), NextFrom(s, Between(table, i)));
    } else {
      RestOnHead(h, s, table, i);
    }
  }

  lemma {:induction false} NextBucketOk(h: Hash, s: State, table: nat, i: int)
    requires Ok(h, s) && table <= 1 && -1 <= i < |Buckets(s, table)| && (table == 1 ==> s.Rehashing())
    ensures Taken(h, s, Between(table, i), NextFrom(s, Between(table, i)))
    decreases 2 - table, |Buckets(s, table)| - i, 0
  {
    if i + 1 < |Buckets(s, table)| {
      EnterOk(h, s, table, i + 1);
    } else {
      AheadOfEnd(h, s, table, i);
      if s.Rehashing() && table == 0 {
        EnterOk(h, s, 1, 0);
        TakenAlike(h, s, Between(1, -1), Between(table, i), Enter(s, 1, 0));
      }
    }
  }

  /** dictNext returns exactly one of the keys ahead, or null when none is. */
  lemma NextOk(h: Hash, s: State, it: Iter)
    requires Ok(h, s) && Usable(s, it)
    ensures Taken(h, s, it, NextFrom(s, it))
  {
    if it.entry.Some? && it.next.Some? {
      Rest(h, s, it.table, it.index, it.next.value);
      InSuffixSteps(Buckets(s, it.table)[it.index], it.next.value, it.next.value);
    } else {
      NextBucketOk(h, s, it.table, it.index);
      TakenAlike(h, s, Between(it.table, it.index), it, NextFrom(s, Between(it.table, it.index)));
    }
  }

  // ------------------------------------------------- calls while iterating

  /** Calls a safe iterator tolerates: everything but explicit rehashing, and no deletion of the
      entry the iterator has saved as its next one. Other safe iterators may come and go, this
      one remains. */
  predicate Tolerated(it: Iter, op: Op)
  {
    && !op.OpRehash? && (op.OpSetIterators? ==> op.count > 0)
    && (op.OpDelete? ==> it.next != Some(op.k))
  }

  /** t has the same keys as s in the same relative order, except possibly k. */
  ghost predicate SameAhead(h: Hash, s: State, t: State, it: Iter, k: Key)
  {
    && Usable(t, it) && t.iterators == s.iterators
    && forall x | x != k :: Ahead(h, t, it, x) <==> Ahead(h, s, it, x)
  }

  lemma ExpandKeepsAhead(h: Hash, s: State, size: nat, it: Iter)
    requires Ok(h, s) && Usable(s, it)
    ensures var t := Expand(s, size).0;
            Usable(t, it) && t.iterators == s.iterators && forall x :: Ahead(h, t, it, x) <==> Ahead(h, s, it, x)
  {
    EmptyBucketsOk(h, NextPower(size));
  }

  lemma StoredInBucket(h: Hash, s: State, table: nat, i: nat, k: Key)
    requires Ok(h, s) && table <= 1 && i < |Buckets(s, table)| && FindIn(Buckets(s, table)[i], k).Some?
    ensures Lookup(h, s, k).Some?
  {
  }

  /** A new head does not change the chain from an entry on. */
  lemma SuffixUnderHead(c: Chain, e: Entry, from: Key)
    requires from != e.key
    ensures Suffix([e] + c, from) == Suffix(c, from)
    ensures forall x | x != e.key :: FindIn([e] + c, x) == FindIn(c, x)
  {
    assert ([e] + c)[1..] == c;
  }

  lemma InsertKeepsAhead(h: Hash, s: State, e: Entry, it: Iter)
    requires Ok(h, s) && Usable(s, it) && s.ht0.buckets != [] && Lookup(h, s, e.key).None?
    ensures SameAhead(h, s, Insert(h, s, e), it, e.key)
  {
    var t := Insert(h, s, e);
    var b := if s.Rehashing() then s.ht1.buckets else s.ht0.buckets;
    var i := Slot(h, e.key, |b|);
    PushFrontOk(h, b, e);
    if it.entry.Some? && it.next.Some? {
      var c := Buckets(s, it.table)[it.index];
      StoredInBucket(h, s, it.table, it.index, it.next.value);
      SuffixUnderHead(c, e, it.next.value);
    }
  }

  lemma AssignKeepsAhead(h: Hash, s: State, k: Key, v: Value, it: Iter)
    requires Ok(h, s) && Usable(s, it) && Lookup(h, s, k).Some?
    ensures SameAhead(h, s, Assign(h, s, k, v), it, k)
    ensures Ahead(h, Assign(h, s, k, v), it, k) <==> Ahead(h, s, it, k)
  {
    var t := Assign(h, s, k, v);
    var tab := if Get(h, s.ht0.buckets, k).Some? then s.ht0 else s.ht1;
    SetAtOk(h, tab, k, v);
    if it.entry.Some? && it.next.Some? {
      var c, d := Buckets(s, it.table)[it.index], Buckets(t, it.table)[it.index];
      assert d == c || d == SetIn(c, k, v);
      SetInFind(c, k, v, it.next.value);
      forall x ensures InSuffix(d, it.next.value, x) <==> InSuffix(c, it.next.value, x) {
        SetInSuffix(c, k, v, it.next.value, x);
      }
    }
  }

  /** The chain of a bucket once k is unlinked: unchanged from any other entry on, but for k. */
  lemma UnlinkKeepsChain(h: Hash, s: State, k: Key, table: nat, i: nat, from: Key)
    requires Ok(h, s) && Lookup(h, s, k).Some? && table <= 1 && i < |Buckets(s, table)|
    requires from != k && FindIn(Buckets(s, table)[i], from).Some?
    ensures var c, b := Buckets(s, table)[i], Buckets((UnlinkOk(h, s, k); Unlink(h, s, k)), table);
            && i < |b| && FindIn(b[i], from).Some?
            && forall x | x != k :: InSuffix(b[i], from, x) <==> InSuffix(c, from, x)
  {
    UnlinkOk(h, s, k);
    var c, d := Buckets(s, table)[i], Buckets(Unlink(h, s, k), table)[i];
    if d != c {
      assert FindIn(c, k).Some? && d == RemoveIn(c, k);
      RemoveInOk(c, k);
      RemoveKeepsSuffix(c, k, from);
    }
  }

  lemma UnlinkKeepsBeyond(h: Hash, s: State, k: Key, table: nat, i: int)
    requires Ok(h, s) && Lookup(h, s, k).Some?
    ensures var t := (UnlinkOk(h, s, k); Unlink(h, s, k));
            && |Buckets(t, table)| == |Buckets(s, table)|
            && forall x | x != k :: Beyond(h, t, table, i, x) <==> Beyond(h, s, table, i, x)
  {
    RemoveAtOk(h, if Get(h, s.ht0.buckets, k).Some? then s.ht0 else s.ht1, k);
  }

  lemma UnlinkKeepsAhead(h: Hash, s: State, k: Key, it: Iter)
    requires Ok(h, s) && Usable(s, it) && Lookup(h, s, k).Some? && it.next != Some(k)
    ensures SameAhead(h, s, (UnlinkOk(h, s, k); Unlink(h, s, k)), it, k)
  {
    UnlinkKeepsBeyond(h, s, k, it.table, it.index);
    if it.entry.Some? && it.next.Some? {
      UnlinkKeepsChain(h, s, k, it.table, it.index, it.next.value);
    }
  }

  lemma RemoveKeepsSuffix(c: Chain, k: Key, from: Key)
    requires Distinct(c) && from != k
    ensures forall x | x != k :: InSuffix(RemoveIn(c, k), from, x) <==> InSuffix(c, from, x)
  {
    forall x | x != k ensures InSuffix(RemoveIn(c, k), from, x) <==> InSuffix(c, from, x) {
      RemoveInSuffix(c, k, from, x);
    }
  }

  /** The key a call may add or remove; any other key stays where it is in the iteration. */
  function Touched(op: Op): Option<Key>
  {
    if op.OpAdd? || op.OpReplace? || op.OpDelete? then Some(op.k) else None
  }

  lemma PrepareKeepsAhead(h: Hash, s: State, it: Iter)
    requires Ok(h, s) && Usable(s, it) && s.iterators > 0
    ensures var t := Prepare(h, s).0;
            Usable(t, it) && t.iterators == s.iterators && forall x :: Ahead(h, t, it, x) <==> Ahead(h, s, it, x)
  {
    StepOk(h, s);
    ExpandKeepsAhead(h, s, INITIAL_SIZE, it);
    ExpandKeepsAhead(h, s, 2 * s.ht0.used % 0x1_0000_0000_0000_0000, it);
  }

  lemma AddKeepsAhead(h: Hash, s: State, k: Key, v: Value, it: Iter)
    requires Ok(h, s) && CanGrow(s) && Usable(s, it) && s.iterators > 0
    ensures SameAhead(h, s, Add(h, s, k, v).0, it, k) && SameAhead(h, s, Replace(h, s, k, v).0, it, k)
    ensures Lookup(h, s, k).Some? ==>
              && (Ahead(h, Add(h, s, k, v).0, it, k) <==> Ahead(h, s, it, k))
              && (Ahead(h, Replace(h, s, k, v).0, it, k) <==> Ahead(h, s, it, k))
  {
    PrepareOk(h, s);
    PrepareKeepsAhead(h, s, it);
    var t := Prepare(h, s).0;
    if Lookup(h, t, k).Some? {
      AssignKeepsAhead(h, t, k, v, it);
    } else {
      InsertKeepsAhead(h, t, Entry(k, v), it);
    }
  }

  lemma DeleteKeepsAhead(h: Hash, s: State, k: Key, it: Iter)
    requires Ok(h, s) && Usable(s, it) && s.iterators > 0 && it.next != Some(k)
    ensures SameAhead(h, s, Delete(h, s, k).0, it, k)
  {
    StepOk(h, s);
    if s.Total() > 0 && Lookup(h, s, k).Some? {
      UnlinkKeepsAhead(h, s, k, it);
    }
  }

  /** While a safe iterator is open, a call leaves every key but the one it touches where it
      is in the iteration, and a present key stays in place even if overwritten. */
  lemma CallKeepsAhead(h: Hash, s: State, it: Iter, op: Op)
    requires Ok(h, s) && CanGrow(s) && Usable(s, it) && s.iterators > 0 && Tolerated(it, op)
    ensures var t := Apply(h, s, op).0;
            && Usable(t, it) && t.iterators > 0
            && forall x | Touched(op) != Some(x) || (!op.OpDelete? && Lookup(h, s, x).Some?) ::
                 Ahead(h, t, it, x) <==> Ahead(h, s, it, x)
  {
    match op
    case OpAdd(k, v) => AddKeepsAhead(h, s, k, v, it);
    case OpReplace(k, v) => AddKeepsAhead(h, s, k, v, it);
    case OpDelete(k) => DeleteKeepsAhead(h, s, k, it);
    case OpFind(k) => StepOk(h, s);
    case OpExpand(size) => ExpandKeepsAhead(h, s, size, it);
    case OpResize =>
      ExpandKeepsAhead(h, s, FitSize(ToInt32(s.ht0.used)), it);
    case OpAllowResize(_) =>
    case OpSetIterators(_) =>
  }

  // -------------------------------------------------------------------- runs

  /** An iteration in progress: the dictionary (and the map it stands for), the iterator, the
      keys present since the start (`kept`), and those returned and not deleted since. */
  datatype Session = Session(s: State, m: map<Key, Value>, it: Iter, kept: set<Key>, seen: set<Key>)

  ghost predicate SessionOk(h: Hash, q: Session)
  {
    && Ok(h, q.s) && Agrees(h, q.s, q.m) && Usable(q.s, q.it) && q.s.iterators > 0
    && q.kept <= q.m.Keys && q.seen <= q.m.Keys
    && (forall x | x in q.seen :: !Ahead(h, q.s, q.it, x))
    && (forall x | x in q.kept :: x in q.seen || Ahead(h, q.s, q.it, x))
  }

  datatype Event = Next | Call(op: Op)

  ghost function AfterCall(h: Hash, q: Session, op: Op): Session
    requires SessionOk(h, q) && CanGrow(q.s)
  {
    var gone := if op.OpDelete? then {op.k} else {};
    Session(Apply(h, q.s, op).0, ApplyMap(q.m, op).0, q.it, q.kept - gone, q.seen - gone)
  }

  lemma AfterCallOk(h: Hash, q: Session, op: Op)
    requires SessionOk(h, q) && CanGrow(q.s) && Tolerated(q.it, op)
    ensures SessionOk(h, AfterCall(h, q, op))
  {
    ApplyRefines(h, q.s, q.m, op);
    CallKeepsAhead(h, q.s, q.it, op);
    var r := AfterCall(h, q, op);
    forall x | x in r.kept || x in r.seen
      ensures x in r.m.Keys && (Ahead(h, r.s, r.it, x) <==> Ahead(h, q.s, q.it, x))
    {
      assert x in q.m.Keys;
      assert Lookup(h, q.s, x) == MapGet(q.m, x);
    }
  }

  /** dictNext during a session; null ends it. */
  function AfterNext(q: Session): (Session, Option<Key>)
    requires Usable(q.s, q.it)
  {
    var (it, k) := NextFrom(q.s, q.it);
    (q.(it := it, seen := if k.Some? then q.seen + {k.value} else q.seen), k)
  }

  /** A call never returns a key it returned before (unless deleted in between), and once it
      returns null every key present throughout has been returned. */
  lemma AfterNextOk(h: Hash, q: Session)
    requires SessionOk(h, q)
    ensures var (r, k) := AfterNext(q);
            && (k.Some? ==> k.value !in q.seen && k.value in q.m && SessionOk(h, r))
            && (k.None? ==> q.kept <= q.seen)
  {
    NextOk(h, q.s, q.it);
    var (it, k) := NextFrom(q.s, q.it);
    if k.Some? {
      assert Lookup(h, q.s, k.value) == MapGet(q.m, k.value);
    }
  }

  /** The events are such as a safe iterator tolerates. */
  ghost predicate Legal(h: Hash, q: Session, events: seq<Event>)
    requires SessionOk(h, q) && q.s.Total() + |events| < 0x4000_0000_0000_0000
    decreases |events|
  {
    if events == [] then true
    else if events[0].Next? then
      AfterNextOk(h, q);
      AfterNext(q).1.None? || Legal(h, AfterNext(q).0, events[1..])
    else
      Tolerated(q.it, events[0].op) && (
        AfterCallOk(h, q, events[0].op);
        SessionGrows(h, q, events[0].op);
        Legal(h, AfterCall(h, q, events[0].op), events[1..]))
  }

  lemma SessionGrows(h: Hash, q: Session, op: Op)
    requires SessionOk(h, q) && CanGrow(q.s) && Tolerated(q.it, op)
    ensures AfterCall(h, q, op).s.Total() <= q.s.Total() + 1
  {
    AfterCallOk(h, q, op);
    MapGrows(q.m, op);
  }

  /** How a session goes: whether some key came twice, and whether it ended with null and then
      returned all that was present throughout. */
  datatype Verdict = Verdict(repeated: bool, finished: bool, complete: bool)

  ghost function Play(h: Hash, q: Session, events: seq<Event>): Verdict
    requires SessionOk(h, q) && q.s.Total() + |events| < 0x4000_0000_0000_0000 && Legal(h, q, events)
    decreases |events|
  {
    if events == [] then Verdict(false, false, false)
    else if events[0].Next? then
      AfterNextOk(h, q);
      var (r, k) := AfterNext(q);
      if k.None? then Verdict(false, true, q.kept <= q.seen)
      else
        var v := Play(h, r, events[1..]);
        v.(repeated := v.repeated || k.value in q.seen)
    else
      AfterCallOk(h, q, events[0].op);
      SessionGrows(h, q, events[0].op);
      Play(h, AfterCall(h, q, events[0].op), events[1..])
  }

  lemma {:induction false} PlayExact(h: Hash, q: Session, events: seq<Event>)
    requires SessionOk(h, q) && q.s.Total() + |events| < 0x4000_0000_0000_0000 && Legal(h, q, events)
    ensures var v := Play(h, q, events); !v.repeated && (v.finished ==> v.complete)
    decreases |events|
  {
    if events != [] {
      if events[0].Next? {
        AfterNextOk(h, q);
        if AfterNext(q).1.Some? {
          PlayExact(h, AfterNext(q).0, events[1..]);
        }
      } else {
        AfterCallOk(h, q, events[0].op);
        SessionGrows(h, q, events[0].op);
        PlayExact(h, AfterCall(h, q, events[0].op), events[1..]);
      }
    }
  }

  /** The session that the first dictNext opens: it registers the iterator with the dictionary,
      and every stored key is still to come. */
  function Open(s: State, m: map<Key, Value>): Session
  {
    Session(s.(iterators := s.iterators + 1), m, START, m.Keys, {})
  }

  lemma OpenOk(h: Hash, s: State, m: map<Key, Value>)
    requires Ok(h, s) && Agrees(h, s, m)
    ensures SessionOk(h, Open(s, m))
  {
    var q := Open(s, m);
    forall x | x in m.Keys ensures Ahead(h, q.s, q.it, x) {
      assert Lookup(h, s, x) == MapGet(m, x);
    }
  }

  /** Safe-iterator exactness: from the first dictNext to null, with tolerated calls in between,
      no key comes twice and every key present throughout comes. */
  lemma SafeIteration(h: Hash, s: State, m: map<Key, Value>, events: seq<Event>)
    requires Ok(h, s) && Agrees(h, s, m) && s.Total() + |events| < 0x4000_0000_0000_0000
    requires (OpenOk(h, s, m); Legal(h, Open(s, m), events))
    ensures var v := (OpenOk(h, s, m); Play(h, Open(s, m), events)); !v.repeated && (v.finished ==> v.complete)
  {
    OpenOk(h, s, m);
    PlayExact(h, Open(s, m), events);
  }

  // -------------------------------------------------------------------- length

  /** The keys still to come. */
  ghost function ToCome(h: Hash, q: Session): set<Key>
  {
    set x | x in q.m.Keys && Ahead(h, q.s, q.it, x)
  }

  function NextCalls(events: seq<Event>): nat
  {
    if events == [] then 0 else (if events[0].Next? then 1 else 0) + NextCalls(events[1..])
  }

  /** The adds and replaces among the calls. */
  function Inserting(events: seq<Event>): nat
  {
    if events == [] then 0
    else (if events[0].Call? && (events[0].op.OpAdd? || events[0].op.OpReplace?) then 1 else 0) + Inserting(events[1..])
  }

  lemma SubsetSize<T>(a: set<T>, b: set<T>)
    requires a <= b
    ensures |a| <= |b|
  {
    assert b == a + (b - a);
  }

  /** A key returned is no longer to come, and null means that none is. */
  lemma NextTakesOne(h: Hash, q: Session)
    requires SessionOk(h, q)
    ensures var (r, k) := (AfterNextOk(h, q); AfterNext(q));
            if k.Some? then |ToCome(h, r)| == |ToCome(h, q)| - 1 else ToCome(h, q) == {}
  {
    AfterNextOk(h, q);
    NextOk(h, q.s, q.it);
    var (r, k) := AfterNext(q);
    if k.Some? {
      assert Lookup(h, q.s, k.value) == MapGet(q.m, k.value);
      assert ToCome(h, r) == ToCome(h, q) - {k.value};
    }
  }

  /** A call adds at most the key it inserts to those to come. */
  lemma CallAddsOne(h: Hash, q: Session, op: Op)
    requires SessionOk(h, q) && CanGrow(q.s) && Tolerated(q.it, op)
    ensures |ToCome(h, AfterCall(h, q, op))| <= |ToCome(h, q)| + if op.OpAdd? || op.OpReplace? then 1 else 0
  {
    CallKeepsAhead(h, q.s, q.it, op);
    var added := if op.OpAdd? || op.OpReplace? then {op.k} else {};
    var r := AfterCall(h, q, op);
    forall x | x in ToCome(h, r) ensures x in ToCome(h, q) + added {
      if x !in added {
        assert x in q.m.Keys;
        assert Touched(op) != Some(x);
      }
    }
    SubsetSize(ToCome(h, r), ToCome(h, q) + added);
  }

  lemma {:induction false} PlayEnds(h: Hash, q: Session, events: seq<Event>)
    requires SessionOk(h, q) && q.s.Total() + |events| < 0x4000_0000_0000_0000 && Legal(h, q, events)
    requires NextCalls(events) > |ToCome(h, q)| + Inserting(events)
    ensures Play(h, q, events).finished
    decreases |events|
  {
    if events[0].Next? {
      AfterNextOk(h, q);
      NextTakesOne(h, q);
      if AfterNext(q).1.Some? {
        PlayEnds(h, AfterNext(q).0, events[1..]);
      }
    } else {
      AfterCallOk(h, q, events[0].op);
      SessionGrows(h, q, events[0].op);
      CallAddsOne(h, q, events[0].op);
      PlayEnds(h, AfterCall(h, q, events[0].op), events[1..]);
    }
  }

  /** Iterations end: null comes after at most as many calls of dictNext as there were keys at the
      start, and one more for each add or replace in between. */
  lemma SafeIterationEnds(h: Hash, s: State, m: map<Key, Value>, events: seq<Event>)
    requires Ok(h, s) && Agrees(h, s, m) && s.Total() + |events| < 0x4000_0000_0000_0000
    requires (OpenOk(h, s, m); Legal(h, Open(s, m), events))
    requires NextCalls(events) > |m| + Inserting(events)
    ensures (OpenOk(h, s, m); Play(h, Open(s, m), events)) == Verdict(false, true, true)
  {
    OpenOk(h, s, m);
    SubsetSize(ToCome(h, Open(s, m)), m.Keys);
    assert |m.Keys| == |m|;
    PlayEnds(h, Open(s, m), events);
    PlayExact(h, Open(s, m), events);
  }

  // ------------------------------------------------------------------- class

  /** States that differ in the iterator count at most. */
  ghost predicate Alike(s: State, t: State) { t == s.(iterators := t.iterators) }

  /** Without an entry, the saved successor is meaningless. */
  function Settled(it: Iter): Iter { if it.entry.None? then Between(it.table, it.index) else it }

  /** In the loop of dictNext: going on from here gives the result wanted. */
  ghost predicate Going(s: State, it: Iter, goal: (Iter, Option<Key>))
  {
    && it.table <= 1 && -1 <= it.index && (it.table == 1 ==> s.Rehashing())
    && (s.Rehashing() ==> s.ht1.buckets != [])
    && (it.index < |Buckets(s, it.table)| || (it.entry.None? && it.index == -1))
    && (it.entry.Some? ==> it.index >= 0)
    && (it.entry.Some? && it.next.Some? ==> FindIn(Buckets(s, it.table)[it.index], it.next.value).Some?)
    && NextFrom(s, Settled(it)) == goal
  }

  /** How far the loop is from the end of the tables. */
  function Distance(s: State, it: Iter): int
  {
    var here := 2 * (|Buckets(s, it.table)| - it.index) + if it.entry.Some? then 1 else 0;
    if it.table == 0 then here + 2 * |s.ht1.buckets| + 4 else here
  }

  /** dictIterator, for safe iterators. */
  class SafeIterator {
    const d: Dict
    var table: nat
    var index: int
    var entry: Option<Key>
    var nextEntry: Option<Key>

    ghost function View(): Iter
      reads this
    {
      Iter(table, index, entry, nextEntry)
    }

    constructor (d: Dict)
      ensures this.d == d && View() == START
    {
      this.d := d;
      table := 0;
      index := -1;
      entry := None;
      nextEntry := None;
    }

    /** Where the chain at (table, index) goes on after the entry of k. */
    method NextInChain(c: Chain, k: Key) returns (next: Option<Key>)
      requires FindIn(c, k).Some?
      ensures next == After(c, k)
    {
      var rest := c;
      while rest[0].key != k
        invariant FindIn(rest, k).Some? && rest != [] && Suffix(rest, k) == Suffix(c, k)
        decreases |rest|
      {
        rest := rest[1..];
      }
      next := if |rest| > 1 then Some(rest[1].key) else None;
    }

    /** The chain the iterator stands at. */
    method CurrentChain(ghost s: State) returns (c: Chain)
      requires Alike(s, d.View()) && 0 <= index < |Buckets(s, table)|
      ensures c == Buckets(s, table)[index]
    {
      c := if table == 0 then d.table0[index] else d.table1[index];
    }

    /** "iter->index++", moving on to the second table of a rehashing dictionary; false at the
        very end. */
    method NextBucket(ghost s: State) returns (more: bool)
      requires Alike(s, d.View()) && entry.None?
      requires table <= 1 && -1 <= index && (table == 1 ==> s.Rehashing())
      requires (index < |Buckets(s, table)| || index == -1) && (s.Rehashing() ==> s.ht1.buckets != [])
      modifies this`table, this`index
      ensures more ==> 0 <= index < |Buckets(s, table)| && table <= 1 && (table == 1 ==> s.Rehashing())
      ensures more ==> NextFrom(s, Between(old(table), old(index))) == Enter(s, table, index)
      ensures more ==> Distance(s, View()) < old(Distance(s, View()))
      ensures !more ==> NextFrom(s, Between(old(table), old(index))).1.None?
    {
      var size := if table == 0 then d.table0.Length else d.table1.Length;
      index := index + 1;
      if index >= size {
        if d.rehashidx != -1 && table == 0 {
          table := 1;
          index := 0;
        } else {
          return false;
        }
      }
      return true;
    }

    /** One turn of the loop of dictNext. */
    method Turn(ghost s: State, ghost goal: (Iter, Option<Key>)) returns (done: bool, e: Option<Key>)
      requires Alike(s, d.View()) && Going(s, View(), goal)
      modifies this
      ensures done && e.Some? ==> (View(), e) == goal
      ensures done && e.None? ==> goal.1.None?
      ensures !done ==> Going(s, View(), goal) && Distance(s, View()) < old(Distance(s, View()))
    {
      if entry.None? {
        var more := NextBucket(s);
        if !more {
          return true, None;
        }
        var c := CurrentChain(s);
        entry := if c == [] then None else Some(c[0].key);
      } else {
        entry := nextEntry;
      }
      if entry.Some? {
        var c := CurrentChain(s);
        nextEntry := NextInChain(c, entry.value);
        return true, entry;
      }
      return false, None;
    }

    /** dictNext. The first call of all registers the iterator with the dictionary. */
    method Next() returns (e: Option<Key>)
      requires d.Valid() && Usable(d.View(), View())
      modifies this, d`iterators
      ensures d.Valid()
      ensures d.View() == old(d.View()).(iterators := old(d.iterators) + if old(View()) == START then 1 else 0)
      ensures e.Some? ==> (View(), e) == NextFrom(old(d.View()), old(View()))
      ensures e.None? ==> NextFrom(old(d.View()), old(View())).1.None?
    {
      ghost var s := d.View();
      ghost var goal := NextFrom(s, View());
      if index == -1 && table == 0 {
        d.iterators := d.iterators + 1;
      }
      while true
        invariant d.View() == s.(iterators := old(d.iterators) + if old(View()) == START then 1 else 0)
        invariant Going(s, View(), goal)
        decreases Distance(s, View())
      {
        var done;
        done, e := Turn(s, goal);
        if done {
          return;
        }
      }
    }

    /** dictReleaseIterator. */
    method Release()
      requires !(index == -1 && table == 0) ==> d.iterators > 0
      modifies d`iterators
      ensures d.iterators == old(d.iterators) - if index == -1 && table == 0 then 0 else 1
    {
      if !(index == -1 && table == 0) {
        d.iterators := d.iterators - 1;
      }
    }
  }
}
