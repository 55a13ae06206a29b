/** sdssplitlen, which cuts a string at every separator into a slot array that doubles, and
    sdsjoinsds, which puts the tokens together again. */
module SdsSplit {
  import opened Bytes

  /** The tokens of `rest` when `acc` has been read of the current one. */
  function Cut(rest: ByteString, acc: ByteString, sep: ByteString): (ts: seq<ByteString>)
    requires sep != []
    ensures ts != []
    decreases |rest|
  {
    if |rest| < |sep| then [acc + rest]
    else if rest[..|sep|] == sep then [acc] + Cut(rest[|sep|..], [], sep)
    else Cut(rest[1..], acc + [rest[0]], sep)
  }

  /** The whole result: an empty string has no tokens at all. */
  function SplitBy(s: ByteString, sep: ByteString): seq<ByteString>
    requires sep != []
  {
    if s == [] then [] else Cut(s, [], sep)
  }

  function Join(ts: seq<ByteString>, sep: ByteString): ByteString
  {
    if ts == [] then [] else if |ts| == 1 then ts[0] else ts[0] + sep + Join(ts[1..], sep)
  }

  /** The scan at position j, with the token under way starting at `start`. */
  function Scan(s: ByteString, sep: ByteString, start: nat, j: nat): seq<ByteString>
    requires sep != [] && start <= j <= |s|
  {
    Cut(s[j..], s[start..j], sep)
  }

  lemma ScanEnd(s: ByteString, sep: ByteString, start: nat, j: nat)
    requires sep != [] && start <= j <= |s| < j + |sep|
    ensures Scan(s, sep, start, j) == [s[start..]]
  {
    assert s[start..j] + s[j..] == s[start..];
  }

  lemma ScanMatch(s: ByteString, sep: ByteString, start: nat, j: nat)
    requires sep != [] && start <= j && j + |sep| <= |s| && s[j..j + |sep|] == sep
    ensures Scan(s, sep, start, j) == [s[start..j]] + Scan(s, sep, j + |sep|, j + |sep|)
  {
    var rest := s[j..];
    assert rest[..|sep|] == s[j..j + |sep|] && rest[|sep|..] == s[j + |sep|..];
    assert s[j + |sep|..j + |sep|] == [];
  }

  lemma ScanOn(s: ByteString, sep: ByteString, start: nat, j: nat)
    requires sep != [] && start <= j && j + |sep| <= |s| && s[j..j + |sep|] != sep
    ensures Scan(s, sep, start, j) == Scan(s, sep, start, j + 1)
  {
    var rest := s[j..];
    assert rest[..|sep|] == s[j..j + |sep|] && rest[1..] == s[j + 1..];
    assert s[start..j] + [rest[0]] == s[start..j + 1];
  }

  /** The tokens found so far and the scan from here on make up the result. */
  ghost predicate Underway(found: seq<ByteString>, s: ByteString, sep: ByteString, start: int, j: int,
                           goal: seq<ByteString>)
  {
    sep != [] && 0 <= start <= j <= |s| && found + Scan(s, sep, start, j) == goal
  }

  lemma UnderwayMatch(found: seq<ByteString>, s: ByteString, sep: ByteString, start: nat, j: nat,
                      goal: seq<ByteString>)
    requires Underway(found, s, sep, start, j, goal) && j + |sep| <= |s| && s[j..j + |sep|] == sep
    ensures Underway(found + [s[start..j]], s, sep, j + |sep|, j + |sep|, goal)
  {
    ScanMatch(s, sep, start, j);
    Regroup(found, s[start..j], Scan(s, sep, j + |sep|, j + |sep|));
  }

  lemma UnderwayOn(found: seq<ByteString>, s: ByteString, sep: ByteString, start: nat, j: nat,
                   goal: seq<ByteString>)
    requires Underway(found, s, sep, start, j, goal) && j + |sep| <= |s| && s[j..j + |sep|] != sep
    ensures Underway(found, s, sep, start, j + 1, goal)
  {
    ScanOn(s, sep, start, j);
  }

  /** "(seplen == 1 && *(s+j) == sep[0]) || memcmp(s+j,sep,seplen) == 0". */
  predicate SeparatorAt(s: ByteString, sep: ByteString, j: nat)
    requires sep != [] && j + |sep| <= |s|
    ensures SeparatorAt(s, sep, j) <==> s[j..j + |sep|] == sep
  {
    (|sep| == 1 && s[j] == sep[0]) || s[j..j + |sep|] == sep
  }

  /** sdssplitlen; None is its NULL result for an empty separator. */
  method SplitLen(s: ByteString, sep: ByteString) returns (r: Option<seq<ByteString>>)
    ensures r == if sep == [] then None else Some(SplitBy(s, sep))
  {
    var elements, slots := 0, 5;
    if |sep| < 1 {
      return None;
    }
    var tokens := new ByteString[slots](_ => []);
    if |s| == 0 {
      return Some(tokens[..0]);
    }
    var start, j := 0, 0;
    ghost var goal := SplitBy(s, sep);
    assert s[0..] == s && s[0..0] == [];
    while j < |s| - (|sep| - 1)
      invariant fresh(tokens) && elements < slots == tokens.Length
      invariant Underway(tokens[..elements], s, sep, start, j, goal)
      decreases |s| - j
    {
      if slots < elements + 2 {
        slots := slots * 2;
        tokens := Grow(tokens, elements, slots);
      }
      elements, start, j := CutHere(tokens, elements, s, sep, start, j, goal);
      j := j + 1;
    }
    ScanEnd(s, sep, start, j);
    AddToken(tokens, elements, s[start..]);
    elements := elements + 1;
    return Some(tokens[..elements]);
  }

  /** The body of the loop, up to its final "j++". */
  method CutHere(tokens: array<ByteString>, n: nat, s: ByteString, sep: ByteString, start0: nat, j0: nat,
                 ghost goal: seq<ByteString>)
    returns (elements: nat, start: nat, j: nat)
    requires n + 2 <= tokens.Length && Underway(tokens[..n], s, sep, start0, j0, goal) && j0 + |sep| <= |s|
    modifies tokens
    ensures n <= elements <= n + 1 && j0 <= j < |s|
    ensures Underway(tokens[..elements], s, sep, start, j + 1, goal)
  {
    elements, start, j := n, start0, j0;
    if SeparatorAt(s, sep, j) {
      UnderwayMatch(tokens[..n], s, sep, start, j, goal);
      AddToken(tokens, n, s[start..j]);
      elements := n + 1;
      start := j + |sep|;
      j := j + |sep| - 1;
    } else {
      UnderwayOn(tokens[..n], s, sep, start, j, goal);
    }
  }

  /** "tokens[elements] = ...". */
  method AddToken(tokens: array<ByteString>, n: nat, t: ByteString)
    requires n < tokens.Length
    modifies tokens
    ensures tokens[..n + 1] == old(tokens[..n]) + [t]
  {
    tokens[n] := t;
  }

  lemma Regroup(a: seq<ByteString>, t: ByteString, b: seq<ByteString>)
    ensures a + ([t] + b) == (a + [t]) + b
  {
  }

  /** s_realloc of the slot array. */
  method Grow(tokens: array<ByteString>, n: nat, slots: nat) returns (r: array<ByteString>)
    requires n <= tokens.Length <= slots
    ensures fresh(r) && r.Length == slots && r[..n] == tokens[..n]
  {
    var old_ := tokens[..];
    r := new ByteString[slots](i => if 0 <= i < |old_| then old_[i] else []);
  }

  /** sdsjoinsds. */
  method JoinSds(argv: seq<ByteString>, sep: ByteString) returns (join: ByteString)
    ensures join == Join(argv, sep)
  {
    join := [];
    assert argv[0..] == argv;
    for j := 0 to |argv|
      invariant join + Join(argv[j..], sep) == Join(argv, sep)
    {
      assert argv[j..][1..] == argv[j + 1..];
      var piece := if j != |argv| - 1 then argv[j] + sep else argv[j];
      assert Join(argv[j..], sep) == piece + Join(argv[j + 1..], sep);
      join := join + piece;
    }
  }

  // ----------------------------------------------------- split, then join

  /** A join puts the separator between the tokens, and nowhere else. */
  lemma {:induction false} JoinConcat(a: seq<ByteString>, b: seq<ByteString>, sep: ByteString)
    requires a != [] && b != []
    ensures Join(a + b, sep) == Join(a, sep) + sep + Join(b, sep)
    ensures |a| == 1 ==> Join(a, sep) == a[0]
    decreases |a|
  {
    if |a| == 1 {
      assert (a + b)[1..] == b;
    } else {
      assert (a + b)[1..] == a[1..] + b;
      JoinConcat(a[1..], b, sep);
      assert a[0] + sep + (Join(a[1..], sep) + sep + Join(b, sep)) == (a[0] + sep + Join(a[1..], sep)) + sep + Join(b, sep);
    }
  }

  lemma {:induction false} JoinCut(rest: ByteString, acc: ByteString, sep: ByteString)
    requires sep != []
    ensures Join(Cut(rest, acc, sep), sep) == acc + rest
    decreases |rest|
  {
    if |rest| < |sep| {
    } else if rest[..|sep|] == sep {
      var tail := Cut(rest[|sep|..], [], sep);
      JoinCut(rest[|sep|..], [], sep);
      assert ([acc] + tail)[1..] == tail;
      assert rest == sep + rest[|sep|..];
      assert acc + sep + rest[|sep|..] == acc + rest;
    } else {
      JoinCut(rest[1..], acc + [rest[0]], sep);
      assert acc + [rest[0]] + rest[1..] == acc + rest;
    }
  }

  /** Joining the tokens of a non-empty string rebuilds the string. */
  lemma JoinSplit(s: ByteString, sep: ByteString)
    requires sep != []
    ensures Join(SplitBy(s, sep), sep) == s
  {
    if s != [] {
      JoinCut(s, [], sep);
    }
  }

  predicate MatchAt(s: ByteString, sep: ByteString, i: nat) { i + |sep| <= |s| && s[i..i + |sep|] == sep }

  ghost predicate Contains(s: ByteString, sep: ByteString) { exists i: nat :: MatchAt(s, sep, i) }

  lemma {:induction false} CutFree(rest: ByteString, acc: ByteString, sep: ByteString)
    requires sep != [] && forall i: nat | i < |acc| :: !MatchAt(acc + rest, sep, i)
    ensures forall t | t in Cut(rest, acc, sep) :: !Contains(t, sep)
    decreases |rest|
  {
    var s := acc + rest;
    if |rest| < |sep| {
      assert forall i: nat | i >= |acc| :: !MatchAt(s, sep, i);
    } else if rest[..|sep|] == sep {
      forall i: nat ensures !MatchAt(acc, sep, i) {
        if i + |sep| <= |acc| {
          assert s[i..i + |sep|] == acc[i..i + |sep|];
          assert !MatchAt(s, sep, i);
        }
      }
      CutFree(rest[|sep|..], [], sep);
    } else {
      assert acc + [rest[0]] + rest[1..] == s;
      assert s[|acc|..|acc| + |sep|] == rest[..|sep|];
      CutFree(rest[1..], acc + [rest[0]], sep);
    }
  }

  /** No token contains the separator. */
  lemma SplitFree(s: ByteString, sep: ByteString)
    requires sep != []
    ensures forall t | t in SplitBy(s, sep) :: !Contains(t, sep)
  {
    if s != [] {
      CutFree(s, [], sep);
    }
  }

  // ----------------------------------------------------- join, then split

  /** In t + sep the separator is first met at the end of t, and not across its border. */
  ghost predicate EndsFirst(t: ByteString, sep: ByteString) { forall i: nat | i < |t| :: !MatchAt(t + sep, sep, i) }

  /** Where the separator ends first, the cut is made there. */
  lemma {:induction false} CutThrough(t: ByteString, tail: ByteString, acc: ByteString, sep: ByteString)
    requires sep != [] && EndsFirst(t, sep)
    ensures Cut(t + sep + tail, acc, sep) == [acc + t] + Cut(tail, [], sep)
    decreases |t|
  {
    var s := t + sep + tail;
    if t == [] {
      assert s == sep + tail && s[..|sep|] == sep && s[|sep|..] == tail && acc + t == acc;
    } else {
      assert s[..|sep|] == (t + sep)[0..0 + |sep|] && !MatchAt(t + sep, sep, 0);
      assert s[1..] == t[1..] + sep + tail;
      forall i: nat | i < |t[1..]| ensures !MatchAt(t[1..] + sep, sep, i) {
        assert t[1..] + sep == (t + sep)[1..];
        if i + |sep| < |t + sep| {
          assert (t + sep)[1..][i..i + |sep|] == (t + sep)[i + 1..i + 1 + |sep|];
          assert !MatchAt(t + sep, sep, i + 1);
        }
      }
      CutThrough(t[1..], tail, acc + [t[0]], sep);
      assert acc + [t[0]] + t[1..] == acc + t;
    }
  }

  /** The first cut is made no later than at any given match. */
  lemma {:induction false} CutStops(rest: ByteString, acc: ByteString, sep: ByteString, i: nat)
    requires sep != [] && MatchAt(rest, sep, i)
    ensures |Cut(rest, acc, sep)[0]| <= |acc| + i
    decreases i
  {
    if rest[..|sep|] != sep {
      assert i > 0;
      assert rest[1..][i - 1..i - 1 + |sep|] == rest[i..i + |sep|];
      CutStops(rest[1..], acc + [rest[0]], sep, i - 1);
    }
  }

  lemma {:induction false} CutWhole(rest: ByteString, acc: ByteString, sep: ByteString)
    requires sep != [] && !Contains(rest, sep)
    ensures Cut(rest, acc, sep) == [acc + rest]
    decreases |rest|
  {
    if |rest| >= |sep| {
      assert rest[0..|sep|] == rest[..|sep|] && !MatchAt(rest, sep, 0);
      forall i: nat ensures !MatchAt(rest[1..], sep, i) {
        assert !MatchAt(rest, sep, i + 1);
        if i + 1 + |sep| <= |rest| {
          assert rest[1..][i..i + |sep|] == rest[i + 1..i + 1 + |sep|];
        }
      }
      CutWhole(rest[1..], acc + [rest[0]], sep);
      assert acc + [rest[0]] + rest[1..] == acc + rest;
    }
  }

  /** All tokens but the last end at the first separator after their beginning, and the last one
      holds none. */
  ghost predicate Separable(ts: seq<ByteString>, sep: ByteString)
    requires ts != []
  {
    && (forall k | 0 <= k < |ts| - 1 :: EndsFirst(ts[k], sep))
    && !Contains(ts[|ts| - 1], sep)
  }

  lemma SeparableSteps(ts: seq<ByteString>, sep: ByteString)
    requires |ts| > 1
    ensures Separable(ts, sep) <==> EndsFirst(ts[0], sep) && Separable(ts[1..], sep)
  {
    var rest := ts[1..];
    assert forall k | 0 <= k < |rest| - 1 :: rest[k] == ts[k + 1];
    assert forall k | 1 <= k < |ts| - 1 :: ts[k] == rest[k - 1];
  }

  lemma CutOne(t: ByteString, sep: ByteString)
    requires sep != []
    ensures Cut(t, [], sep) == [t] <==> !Contains(t, sep)
  {
    CutFree(t, [], sep);
    assert Cut(t, [], sep)[0] in Cut(t, [], sep);
    if !Contains(t, sep) {
      CutWhole(t, [], sep);
      assert [] + t == t;
    }
  }

  lemma {:induction false} CutJoin(ts: seq<ByteString>, sep: ByteString)
    requires sep != [] && ts != []
    ensures Cut(Join(ts, sep), [], sep) == ts <==> Separable(ts, sep)
    decreases |ts|
  {
    var t := ts[0];
    if |ts| == 1 {
      CutOne(t, sep);
      assert ts == [t];
    } else {
      var tail := Join(ts[1..], sep);
      SeparableSteps(ts, sep);
      if EndsFirst(t, sep) {
        CutThrough(t, tail, [], sep);
        assert [] + t == t;
        CutJoin(ts[1..], sep);
        assert ts == [t] + ts[1..];
        assert Cut(Join(ts, sep), [], sep)[1..] == Cut(tail, [], sep);
      } else {
        var i: nat :| i < |t| && MatchAt(t + sep, sep, i);
        assert (t + sep + tail)[i..i + |sep|] == (t + sep)[i..i + |sep|];
        CutStops(t + sep + tail, [], sep, i);
      }
    }
  }

  lemma JoinEmpty(ts: seq<ByteString>, sep: ByteString)
    requires sep != []
    ensures Join(ts, sep) == [] <==> ts == [] || ts == [[]]
  {
    if |ts| > 1 {
      assert |Join(ts, sep)| >= |sep|;
    }
  }

  /** Exactly when splitting a join gives the tokens back, for any tokens and any separator: the
      tokens are not one empty token, no separator begins in a token that has a successor, and
      the last token holds none. */
  lemma SplitJoin(ts: seq<ByteString>, sep: ByteString)
    requires sep != []
    ensures SplitBy(Join(ts, sep), sep) == ts <==> ts != [[]] && (ts != [] ==> Separable(ts, sep))
  {
    JoinEmpty(ts, sep);
    if ts != [] && ts != [[]] {
      CutJoin(ts, sep);
    }
  }

  // -------------------------------------------- which separators are harmless

  /** The separator begins with its own last n bytes. */
  predicate Border(sep: ByteString, n: nat) { 0 < n < |sep| && sep[..n] == sep[|sep| - n..] }

  ghost predicate Bordered(sep: ByteString) { exists n: nat :: Border(sep, n) }

  ghost predicate AllFree(ts: seq<ByteString>, sep: ByteString) { forall t | t in ts :: !Contains(t, sep) }

  /** A match that begins in t and ends in the separator behind it shows a border. */
  lemma OverlapIsBorder(t: ByteString, sep: ByteString, i: nat)
    requires i < |t| < i + |sep| && MatchAt(t + sep, sep, i)
    ensures Border(sep, i + |sep| - |t|)
  {
    var s, n := t + sep, i + |sep| - |t|;
    assert sep[..n] == s[|t|..|t| + n] == s[i..i + |sep|][|sep| - n..];
  }

  lemma UnborderedEndsFirst(t: ByteString, sep: ByteString)
    requires sep != [] && !Bordered(sep) && !Contains(t, sep)
    ensures EndsFirst(t, sep)
  {
    var s := t + sep;
    forall i: nat | i < |t| ensures !MatchAt(s, sep, i) {
      if i + |sep| <= |t| {
        assert s[i..i + |sep|] == t[i..i + |sep|] && !MatchAt(t, sep, i);
      } else if MatchAt(s, sep, i) {
        OverlapIsBorder(t, sep, i);
      }
    }
  }

  /** Two tokens free of a bordered separator that do not survive. */
  function Overlapping(sep: ByteString, n: nat): seq<ByteString>
    requires n <= |sep|
  {
    [sep[..|sep| - n], []]
  }

  lemma BorderedFails(sep: ByteString, n: nat)
    requires Border(sep, n)
    ensures var ts := Overlapping(sep, n); AllFree(ts, sep) && SplitBy(Join(ts, sep), sep) != ts
  {
    var ts := Overlapping(sep, n);
    var t := ts[0];
    assert (t + sep)[0..|sep|] == t + sep[..n] == sep;
    assert MatchAt(t + sep, sep, 0) && !EndsFirst(ts[0], sep);
    SplitJoin(ts, sep);
  }

  /** A separator is safe for all tokens free of it if and only if no proper beginning of it is
      also an end of it. */
  lemma SafeSeparators(sep: ByteString)
    requires sep != []
    ensures !Bordered(sep) <==>
            forall ts | AllFree(ts, sep) && ts != [[]] :: SplitBy(Join(ts, sep), sep) == ts
  {
    if n: nat :| Border(sep, n) {
      BorderedFails(sep, n);
      assert |Overlapping(sep, n)| == 2;
    } else {
      forall ts | AllFree(ts, sep) && ts != [[]] ensures SplitBy(Join(ts, sep), sep) == ts {
        forall k | 0 <= k < |ts| ensures EndsFirst(ts[k], sep) && !Contains(ts[k], sep) {
          assert ts[k] in ts;
          UnborderedEndsFirst(ts[k], sep);
        }
        SplitJoin(ts, sep);
      }
    }
  }

  /** Single bytes and the line end are safe. */
  lemma CommonSeparators(c: Byte)
    ensures !Bordered([c]) && !Bordered(CRLF)
  {
    assert CRLF[0] != CRLF[1];
    assert CRLF[..1][0] == CRLF[0] && CRLF[1..][0] == CRLF[1];
  }

  /** A bordered one: "a" and "" joined by "aa" come back as "" and "a". */
  lemma LongSeparatorsOverlap()
    ensures SplitBy(Join(["a", ""], "aa"), "aa") == ["", "a"]
  {
    var s := Join(["a", ""], "aa");
    assert ["a", ""][1..] == [""];
    assert s == "aaa";
    assert s[..2] == "aa" && s[2..] == "a";
    assert [] + "a" == "a";
    assert Cut("a", [], "aa") == ["a"];
  }
}
