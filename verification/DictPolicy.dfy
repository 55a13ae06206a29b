/** What the dictionary does to its tables beyond the map they stand for: when and how far they
    grow, how much a call moves, and the order entries have in their chains. */
module DictPolicy {
  import opened Powers
  import opened Words
  import opened Bytes
  import opened DictModel
  import opened DictRuns

  // ------------------------------------------------------------------- growing

  /** The least power of two from 4 on that holds the size. */
  ghost predicate LeastSize(n: nat, size: nat)
  {
    IsTableSize(n) && n >= size && (n == 4 || n / 2 < size)
  }

  lemma LeastSizeUnique(n: nat, m: nat, size: nat)
    requires LeastSize(n, size) && LeastSize(m, size)
    ensures n == m
  {
    SizeAtLeast(n);
    SizeAtLeast(m);
    var i: nat :| 2 <= i < BITS && Pow2(i) == n;
    var j: nat :| 2 <= j < BITS && Pow2(j) == m;
    if i < j {
      Pow2Strict(i, j);
    } else if j < i {
      Pow2Strict(j, i);
    }
  }

  lemma NextPowerLeast(size: nat)
    requires size < LONG_MAX
    ensures LeastSize(NextPower(size), size)
  {
    NextPowerOk(size);
  }

  /** dictExpand to a size that is no larger than memory: it is refused while rehashing, for a size
      that does not hold the entries, and where the table has the least fitting size already;
      otherwise insertions go to a table of that size. */
  lemma ExpandMeans(h: Hash, s: State, size: nat, n: nat)
    requires Ok(h, s) && size < LONG_MAX && LeastSize(n, size)
    ensures var (t, ok) := Expand(s, size);
            && (ok <==> !s.Rehashing() && s.ht0.used <= size && |s.ht0.buckets| != n)
            && (ok ==> TargetSize(t) == n && (t.Rehashing() <==> s.ht0.buckets != []))
            && (!ok ==> t == s)
  {
    NextPowerLeast(size);
    LeastSizeUnique(n, NextPower(size), size);
  }

  /** The first insertion makes a table of four buckets. */
  lemma FirstTable(s: State)
    requires !s.Rehashing() && s.ht0.buckets == [] && s.ht0.used == 0
    ensures |ExpandIfNeeded(s).0.ht0.buckets| == 4 && !ExpandIfNeeded(s).0.Rehashing()
  {
    NextPowerLeast(4);
    Pow2Constants();
    assert Pow2(2) == 4;
    LeastSizeUnique(4, NextPower(4), 4);
  }

  /** An insertion makes a table grow exactly when it holds as many entries as buckets and may be
      resized, or six times as many in any case; and then to the least size for twice the entries. */
  lemma GrowsExactly(h: Hash, s: State)
    requires Ok(h, s) && CanGrow(s) && !s.Rehashing() && s.ht0.buckets != []
    ensures var n, used, t := |s.ht0.buckets|, s.ht0.used, ExpandIfNeeded(s).0;
            if (s.canResize && used >= n) || used >= 6 * n
            then t.Rehashing() && t.rehashidx == 0 && LeastSize(|t.ht1.buckets|, 2 * used)
            else t == s
  {
    var n, used := |s.ht0.buckets|, s.ht0.used;
    ForcedAt(used, n);
    SizeAtLeast(n);
    assert 2 * used % 0x1_0000_0000_0000_0000 == 2 * used;
    NextPowerLeast(2 * used);
  }

  // -------------------------------------------------------------------- moving

  /** The step hidden in a call: with no iterator open it moves one bucket, passing at most ten empty
      ones, or passes ten and moves none, or there was nothing left to move. */
  lemma StepMovesOne(h: Hash, s: State) returns (t: State, moved: nat, empty: nat)
    requires Ok(h, s) && s.Rehashing() && s.iterators == 0
    ensures t == Stopped(h, s, 1, 10) && Step(h, s) == if t.ht0.used == 0 then Finish(t) else t
    ensures Passed(s, t, moved, empty) && moved <= 1 && empty <= 10
    ensures t.ht0.used != 0 ==> moved == 1 || empty == 10
  {
    t, moved, empty := RehashVisits(h, s, 1);
  }

  /** If t is still in the rehashing s was in, it is further on. */
  ghost predicate Driven(s: State, t: State)
  {
    t.Rehashing() && |t.ht0.buckets| == |s.ht0.buckets| ==> t.rehashidx > s.rehashidx
  }

  lemma StepDrives(h: Hash, s: State)
    requires Ok(h, s) && s.Rehashing() && s.iterators == 0
    ensures Driven(s, Step(h, s)) && Driven(s, Prepare(h, s).0)
  {
    StepOk(h, s);
  }

  /** Every add, replace, find and delete on a dictionary that is not empty drives a rehash on. */
  lemma CallsAdvance(h: Hash, s: State, op: Op)
    requires Ok(h, s) && CanGrow(s) && s.Rehashing() && s.iterators == 0 && s.Total() > 0 && Ordinary(op)
    ensures Driven(s, Apply(h, s, op).0)
  {
    StepDrives(h, s);
    StepOk(h, s);
    PrepareOk(h, s);
    match op
    case OpAdd(k, v) => ChangeKeepsDriven(h, s, Prepare(h, s).0, k, v);
    case OpReplace(k, v) => ChangeKeepsDriven(h, s, Prepare(h, s).0, k, v);
    case OpDelete(k) => RemoveKeepsDriven(h, s, Step(h, s), k);
    case OpFind(k) =>
  }

  lemma ChangeKeepsDriven(h: Hash, s: State, t: State, k: Key, v: Value)
    requires Ok(h, t) && Driven(s, t) && t.ht0.buckets != []
    ensures Driven(s, Insert(h, t, Entry(k, v)))
    ensures Lookup(h, t, k).Some? ==> Driven(s, Assign(h, t, k, v))
  {
  }

  lemma RemoveKeepsDriven(h: Hash, s: State, t: State, k: Key)
    requires Ok(h, t) && Driven(s, t)
    ensures Driven(s, RemoveKey(h, t, k).0)
  {
    if Lookup(h, t, k).Some? {
      UnlinkOk(h, t, k);
    }
  }

  // --------------------------------------------------------------------- order

  /** A new entry comes first in the chain of its hash, in the table insertions go to; all other
      chains stay. */
  lemma InsertsOnTop(h: Hash, s: State, e: Entry, j: nat)
    requires Ok(h, s) && s.ht0.buckets != [] && j < TargetSize(s)
    ensures var t := Insert(h, s, e);
            var was, now := if s.Rehashing() then s.ht1.buckets else s.ht0.buckets,
                            if s.Rehashing() then t.ht1.buckets else t.ht0.buckets;
            |now| == |was| && now[j] == if j == h(e.key) % |was| then [e] + was[j] else was[j]
  {
  }

  /** The entries of a chain that belong in bucket j of n, in the order of the chain. */
  function Belonging(h: Hash, c: Chain, j: nat, n: nat): Chain
    requires n > 0
  {
    if c == [] then []
    else (if h(c[0].key) % n == j then [c[0]] else []) + Belonging(h, c[1..], j, n)
  }

  /** Moving a chain puts its entries on top of the chains they belong to, the last one first. */
  lemma {:induction false} MovesInReverse(h: Hash, c: Chain, dst: seq<Chain>, j: nat)
    requires j < |dst|
    ensures MoveChain(h, c, dst)[j] == Backwards(Belonging(h, c, j, |dst|)) + dst[j]
    decreases |c|
  {
    if c == [] {
      assert Backwards<Entry>([]) + dst[j] == dst[j];
    } else {
      var rest := Belonging(h, c[1..], j, |dst|);
      MovesInReverse(h, c[1..], PushFront(h, dst, c[0]), j);
      BackwardsCons(c[0], rest);
      if Slot(h, c[0].key, |dst|) == j {
        assert Backwards(rest) + ([c[0]] + dst[j]) == (Backwards(rest) + [c[0]]) + dst[j];
        assert Belonging(h, c, j, |dst|) == [c[0]] + rest;
      } else {
        assert Belonging(h, c, j, |dst|) == rest;
      }
    }
  }

  lemma BackwardsCons(e: Entry, c: Chain)
    ensures Backwards([e] + c) == Backwards(c) + [e]
  {
  }
}
