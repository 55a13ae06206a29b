/** The dictionary of dict.c as a value: two chained tables, the rehash index and the
    number of safe iterators, with every operation as a function from state to state. */
module DictModel {
  import opened Powers
  import opened Words
  import opened Bytes

  type Key = ByteString
  type Value = ByteString

  /** The hash is any function of the key's content, so equal keys have equal hashes. */
  type Hash = Key -> U64

  datatype Entry = Entry(key: Key, val: Value)

  type Chain = seq<Entry>

  /** `table`, `size` and `used`; an unallocated table has no buckets. */
  datatype Table = Table(buckets: seq<Chain>, used: nat)

  datatype State = State(ht0: Table, ht1: Table, rehashidx: int, iterators: nat, canResize: bool)
  {
    predicate Rehashing() { rehashidx != -1 }
    function Total(): nat { ht0.used + ht1.used }
  }

  const INITIAL_SIZE: nat := 4
  const FORCE_RATIO: nat := 5
  const LONG_MAX: nat := 0x7fff_ffff_ffff_ffff
  const NO_TABLE: Table := Table([], 0)

  function Empty(canResize: bool): State { State(NO_TABLE, NO_TABLE, -1, 0, canResize) }

  // ------------------------------------------------------------------ chains

  function FindIn(c: Chain, k: Key): Option<Value>
  {
    if c == [] then None else if c[0].key == k then Some(c[0].val) else FindIn(c[1..], k)
  }

  function SetIn(c: Chain, k: Key, v: Value): (r: Chain)
    ensures |r| == |c|
  {
    if c == [] then [] else if c[0].key == k then [Entry(k, v)] + c[1..] else [c[0]] + SetIn(c[1..], k, v)
  }

  function RemoveIn(c: Chain, k: Key): Chain
  {
    if c == [] then [] else if c[0].key == k then c[1..] else [c[0]] + RemoveIn(c[1..], k)
  }

  predicate Distinct(c: Chain)
  {
    c == [] || (FindIn(c[1..], c[0].key).None? && Distinct(c[1..]))
  }

  lemma {:induction false} SetInOk(c: Chain, k: Key, v: Value)
    requires Distinct(c) && FindIn(c, k).Some?
    ensures Distinct(SetIn(c, k, v))
    ensures forall x :: FindIn(SetIn(c, k, v), x) == if x == k then Some(v) else FindIn(c, x)
  {
    if c[0].key == k {
      assert SetIn(c, k, v)[1..] == c[1..];
    } else {
      SetInOk(c[1..], k, v);
      assert SetIn(c, k, v)[1..] == SetIn(c[1..], k, v);
    }
  }

  lemma {:induction false} RemoveInOk(c: Chain, k: Key)
    requires Distinct(c) && FindIn(c, k).Some?
    ensures Distinct(RemoveIn(c, k)) && |RemoveIn(c, k)| == |c| - 1
    ensures forall x :: FindIn(RemoveIn(c, k), x) == if x == k then None else FindIn(c, x)
  {
    if c[0].key != k {
      RemoveInOk(c[1..], k);
      assert RemoveIn(c, k)[1..] == RemoveIn(c[1..], k);
    }
  }

  // ------------------------------------------------------------------ tables

  /** `hash & sizemask` for a power-of-two size (Words.MaskIsRemainder). */
  function Slot(h: Hash, k: Key, size: nat): (i: nat)
    requires size > 0
    ensures i < size
  {
    h(k) % size
  }

  function Get(h: Hash, b: seq<Chain>, k: Key): Option<Value>
  {
    if b == [] then None else FindIn(b[Slot(h, k, |b|)], k)
  }

  function SumLen(b: seq<Chain>): nat
  {
    if b == [] then 0 else |b[0]| + SumLen(b[1..])
  }

  function PushFront(h: Hash, b: seq<Chain>, e: Entry): (r: seq<Chain>)
    requires b != []
    ensures |r| == |b|
  {
    var i := Slot(h, e.key, |b|);
    b[i := [e] + b[i]]
  }

  /** Every entry sits in the bucket of its hash, and no chain holds a key twice. */
  ghost predicate Placed(h: Hash, b: seq<Chain>)
  {
    forall i | 0 <= i < |b| ::
      Distinct(b[i]) && (forall x :: FindIn(b[i], x).Some? ==> Slot(h, x, |b|) == i)
  }

  ghost predicate IsTableSize(n: nat)
  {
    exists k: nat :: 2 <= k < BITS && Pow2(k) == n
  }

  ghost predicate TableOk(h: Hash, t: Table)
  {
    && (t.buckets == [] || IsTableSize(|t.buckets|))
    && Placed(h, t.buckets)
    && t.used == SumLen(t.buckets)
  }

  lemma {:induction false} SumLenUpdate(b: seq<Chain>, i: nat, c: Chain)
    requires i < |b|
    ensures SumLen(b[i := c]) == SumLen(b) - |b[i]| + |c|
  {
    if i == 0 {
      assert b[i := c][1..] == b[1..];
    } else {
      assert b[i := c][1..] == b[1..][i - 1 := c];
      SumLenUpdate(b[1..], i - 1, c);
    }
  }

  lemma {:induction false} SumLenZero(b: seq<Chain>)
    ensures SumLen(b) == 0 <==> forall i | 0 <= i < |b| :: b[i] == []
  {
    if b != [] {
      SumLenZero(b[1..]);
      assert (forall i | 0 <= i < |b| :: b[i] == []) <==>
             b[0] == [] && forall i | 0 <= i < |b| - 1 :: b[1..][i] == [] by {
        assert forall i | 1 <= i < |b| :: b[i] == b[1..][i - 1];
      }
    }
  }

  function EmptyBuckets(n: nat): (b: seq<Chain>)
    ensures |b| == n && forall i | 0 <= i < n :: b[i] == []
  {
    seq(n, _ => [])
  }

  lemma EmptyBucketsOk(h: Hash, n: nat)
    ensures Placed(h, EmptyBuckets(n)) && SumLen(EmptyBuckets(n)) == 0
    ensures forall x :: Get(h, EmptyBuckets(n), x).None?
  {
    SumLenZero(EmptyBuckets(n));
  }

  /** Replacing one bucket by a chain that agrees with it except perhaps at k. */
  lemma UpdateBucket(h: Hash, b: seq<Chain>, k: Key, c: Chain, v: Option<Value>)
    requires b != [] && Placed(h, b) && Distinct(c)
    requires forall x :: FindIn(c, x) == if x == k then v else FindIn(b[Slot(h, k, |b|)], x)
    ensures var r := b[Slot(h, k, |b|) := c];
            && Placed(h, r)
            && SumLen(r) == SumLen(b) - |b[Slot(h, k, |b|)]| + |c|
            && (forall x :: Get(h, r, x) == if x == k then v else Get(h, b, x))
  {
    SumLenUpdate(b, Slot(h, k, |b|), c);
  }

  lemma PushFrontOk(h: Hash, b: seq<Chain>, e: Entry)
    requires b != [] && Placed(h, b) && Get(h, b, e.key).None?
    ensures var r := PushFront(h, b, e);
            && Placed(h, r) && SumLen(r) == SumLen(b) + 1
            && (forall x :: Get(h, r, x) == if x == e.key then Some(e.val) else Get(h, b, x))
  {
    var c := b[Slot(h, e.key, |b|)];
    assert ([e] + c)[1..] == c;
    UpdateBucket(h, b, e.key, [e] + c, Some(e.val));
  }

  // ------------------------------------------------------------- well-formed

  /** The invariant inside dictRehash, where the index may have just passed the last bucket. */
  ghost predicate Moving(h: Hash, s: State)
  {
    && TableOk(h, s.ht0) && TableOk(h, s.ht1)
    && s.rehashidx >= -1
    && (!s.Rehashing() ==> s.ht1 == NO_TABLE)
    && (s.Rehashing() ==>
          && s.ht0.buckets != [] && s.ht1.buckets != []
          && |s.ht0.buckets| != |s.ht1.buckets|
          && s.rehashidx <= |s.ht0.buckets|
          && (forall i | 0 <= i < s.rehashidx :: s.ht0.buckets[i] == [])
          && (forall x :: Get(h, s.ht0.buckets, x).None? || Get(h, s.ht1.buckets, x).None?))
  }

  /** The invariant of every state between calls. */
  ghost predicate Ok(h: Hash, s: State)
  {
    Moving(h, s) && (s.Rehashing() ==> s.rehashidx < |s.ht0.buckets|)
  }

  /** The finite map the two tables stand for. */
  function Lookup(h: Hash, s: State, k: Key): Option<Value>
  {
    var r := Get(h, s.ht0.buckets, k);
    if r.Some? then r else Get(h, s.ht1.buckets, k)
  }

  function MapGet(m: map<Key, Value>, k: Key): Option<Value>
  {
    if k in m then Some(m[k]) else None
  }

  ghost predicate Agrees(h: Hash, s: State, m: map<Key, Value>)
  {
    (forall x :: Lookup(h, s, x) == MapGet(m, x)) && s.Total() == |m|
  }

  /** Two states that answer every lookup alike and hold as many entries. */
  ghost predicate SameMap(h: Hash, s: State, t: State)
  {
    (forall x :: Lookup(h, t, x) == Lookup(h, s, x)) && t.Total() == s.Total()
  }

  lemma AgreesSame(h: Hash, s: State, t: State, m: map<Key, Value>)
    requires Agrees(h, s, m) && SameMap(h, s, t)
    ensures Agrees(h, t, m)
  {
  }

  lemma EmptyOk(h: Hash, canResize: bool)
    ensures Ok(h, Empty(canResize)) && Agrees(h, Empty(canResize), map[])
  {
  }

  // ------------------------------------------------------- incremental rehash

  /** Move the entries of a chain, front to back, to the heads of their new buckets. */
  function MoveChain(h: Hash, c: Chain, dst: seq<Chain>): (r: seq<Chain>)
    requires dst != []
    ensures |r| == |dst|
    decreases |c|
  {
    if c == [] then dst else MoveChain(h, c[1..], PushFront(h, dst, c[0]))
  }

  function MoveBucket(h: Hash, s: State): State
    requires s.Rehashing() && 0 <= s.rehashidx < |s.ht0.buckets| && s.ht1.buckets != []
    requires |s.ht0.buckets[s.rehashidx]| <= s.ht0.used
  {
    var c := s.ht0.buckets[s.rehashidx];
    s.(ht0 := Table(s.ht0.buckets[s.rehashidx := []], s.ht0.used - |c|),
       ht1 := Table(MoveChain(h, c, s.ht1.buckets), s.ht1.used + |c|),
       rehashidx := s.rehashidx + 1)
  }

  lemma {:induction false} MoveChainOk(h: Hash, c: Chain, dst: seq<Chain>)
    requires dst != [] && Placed(h, dst) && Distinct(c)
    requires forall x :: FindIn(c, x).None? || Get(h, dst, x).None?
    ensures var r := MoveChain(h, c, dst);
            && Placed(h, r) && SumLen(r) == SumLen(dst) + |c|
            && (forall x :: Get(h, r, x) == if FindIn(c, x).Some? then FindIn(c, x) else Get(h, dst, x))
    decreases |c|
  {
    if c != [] {
      assert FindIn(c, c[0].key).Some?;
      PushFrontOk(h, dst, c[0]);
      var d := PushFront(h, dst, c[0]);
      forall x ensures FindIn(c[1..], x).None? || Get(h, d, x).None? {
        assert FindIn(c, x).None? || Get(h, dst, x).None?;
      }
      MoveChainOk(h, c[1..], d);
    }
  }

  lemma {:induction false} BucketWithin(b: seq<Chain>, i: nat)
    requires i < |b|
    ensures |b[i]| <= SumLen(b)
  {
    if i > 0 {
      BucketWithin(b[1..], i - 1);
    }
  }

  /** The first non-empty bucket at or after i, giving up once `visits` empty ones were seen. */
  function SkipEmpty(b: seq<Chain>, i: nat, visits: nat): (r: (nat, nat))
    requires visits > 0 && i < |b| && exists j :: i <= j < |b| && b[j] != []
    ensures i <= r.0 < |b| && (forall j | i <= j < r.0 :: b[j] == []) && r.1 + (r.0 - i) == visits
    ensures r.1 > 0 ==> b[r.0] != []
    decreases |b| - i
  {
    if b[i] != [] then (i, visits)
    else if visits == 1 then (i + 1, 0)
    else SkipEmpty(b, i + 1, visits - 1)
  }

  /** The old table is released and the new one takes its place. */
  function Finish(s: State): State
  {
    s.(ht0 := s.ht1, ht1 := NO_TABLE, rehashidx := -1)
  }

  /** The assert of dictRehash: while entries are left in the old table, some bucket at or
      after the rehash index is non-empty, so the index is in range. */
  lemma MoreToMove(h: Hash, s: State)
    requires Moving(h, s) && s.Rehashing() && s.ht0.used != 0
    ensures s.rehashidx < |s.ht0.buckets|
    ensures exists j :: s.rehashidx <= j < |s.ht0.buckets| && s.ht0.buckets[j] != []
  {
    SumLenZero(s.ht0.buckets);
    var j :| 0 <= j < |s.ht0.buckets| && s.ht0.buckets[j] != [];
    assert s.rehashidx <= j;
  }

  /** Clearing a bucket takes exactly its keys out of the table. */
  lemma ClearBucketOk(h: Hash, b: seq<Chain>, i: nat)
    requires i < |b| && Placed(h, b)
    ensures Placed(h, b[i := []]) && SumLen(b[i := []]) == SumLen(b) - |b[i]|
    ensures forall x :: Get(h, b[i := []], x) == if FindIn(b[i], x).Some? then None else Get(h, b, x)
    ensures forall x :: FindIn(b[i], x).Some? ==> Get(h, b, x) == FindIn(b[i], x)
  {
    SumLenUpdate(b, i, []);
  }

  lemma MoveBucketOk(h: Hash, s: State)
    requires Moving(h, s) && s.Rehashing() && s.rehashidx < |s.ht0.buckets|
    ensures |s.ht0.buckets[s.rehashidx]| <= s.ht0.used
    ensures Moving(h, MoveBucket(h, s)) && SameMap(h, s, MoveBucket(h, s))
  {
    var b0, b1, i := s.ht0.buckets, s.ht1.buckets, s.rehashidx;
    var c := b0[i];
    BucketWithin(b0, i);
    ClearBucketOk(h, b0, i);
    MoveChainOk(h, c, b1);
  }

  lemma FinishOk(h: Hash, s: State)
    requires Moving(h, s) && s.Rehashing() && s.ht0.used == 0
    ensures Ok(h, Finish(s)) && SameMap(h, s, Finish(s))
  {
    SumLenZero(s.ht0.buckets);
  }

  /** One turn of the outer loop of dictRehash: pass empty buckets, then move one, unless the
      budget of empty visits runs out first (0 left). */
  ghost function Turn(h: Hash, s: State, visits: nat): (State, nat)
    requires Moving(h, s) && s.Rehashing() && s.ht0.used != 0 && visits > 0
  {
    MoreToMove(h, s);
    var (i, left) := SkipEmpty(s.ht0.buckets, s.rehashidx, visits);
    var t := s.(rehashidx := i);
    if left == 0 then (t, 0)
    else
      MoveBucketOk(h, t);
      (MoveBucket(h, t), left)
  }

  /** t is s some way further into the rehashing. */
  ghost predicate Further(h: Hash, s: State, t: State)
  {
    && Moving(h, t) && t.Rehashing() && SameMap(h, s, t)
    && t.iterators == s.iterators && t.canResize == s.canResize
    && |t.ht0.buckets| == |s.ht0.buckets| && |t.ht1.buckets| == |s.ht1.buckets|
    && s.rehashidx < t.rehashidx
    && (forall j | t.rehashidx <= j < |s.ht0.buckets| :: t.ht0.buckets[j] == s.ht0.buckets[j])
  }

  lemma SkipEmptyOk(h: Hash, s: State, visits: nat)
    requires Moving(h, s) && s.Rehashing() && s.ht0.used != 0 && visits > 0
    requires exists j :: s.rehashidx <= j < |s.ht0.buckets| && s.ht0.buckets[j] != []
    ensures var t := s.(rehashidx := SkipEmpty(s.ht0.buckets, s.rehashidx, visits).0);
            Ok(h, t) && SameMap(h, s, t)
  {
  }

  lemma TurnOk(h: Hash, s: State, visits: nat)
    requires Moving(h, s) && s.Rehashing() && s.ht0.used != 0 && visits > 0
    ensures var (t, left) := Turn(h, s, visits);
            Further(h, s, t) && (left == 0 ==> Ok(h, t) && t.ht0.used != 0)
  {
    MoreToMove(h, s);
    SkipEmptyOk(h, s, visits);
    var t := s.(rehashidx := SkipEmpty(s.ht0.buckets, s.rehashidx, visits).0);
    if SkipEmpty(s.ht0.buckets, s.rehashidx, visits).1 > 0 {
      MoveBucketOk(h, t);
    }
  }

  /** Where the outer loop of dictRehash stops, with n steps and `visits` visits to empty buckets
      left: the old table is empty, or the steps or the visits are used up. */
  ghost function Stopped(h: Hash, s: State, n: nat, visits: nat): (t: State)
    requires Moving(h, s) && s.Rehashing() && (n > 0 ==> visits > 0)
    decreases n
  {
    if s.ht0.used == 0 || n == 0 then s
    else
      TurnOk(h, s, visits);
      var (t, left) := Turn(h, s, visits);
      if left == 0 then t else Stopped(h, t, n - 1, left)
  }

  /** That loop and the check for the end of the rehashing behind it. The flag is the return
      value: there is more to move. */
  ghost function RehashLoop(h: Hash, s: State, n: nat, visits: nat): (r: (State, bool))
    requires Moving(h, s) && s.Rehashing() && (n > 0 ==> visits > 0)
  {
    var t := Stopped(h, s, n, visits);
    if t.ht0.used == 0 then (Finish(t), false) else (t, true)
  }

  /** What the outer loop keeps: going on from here it stops where it should. */
  ghost predicate Pending(h: Hash, s: State, n: nat, visits: nat, goal: State)
  {
    && Moving(h, s) && s.Rehashing() && (n > 0 ==> visits > 0)
    && Stopped(h, s, n, visits) == goal
  }

  ghost function Rehash(h: Hash, s: State, n: nat): (r: (State, bool))
    requires Ok(h, s)
  {
    if !s.Rehashing() then (s, false) else RehashLoop(h, s, n, 10 * n)
  }

  /** What a rehash may do to the shape: nothing to the map, and either the old table is
      finished or the index has advanced while both sizes stand. */
  ghost predicate RehashEffect(h: Hash, s: State, t: State, more: bool)
  {
    && Ok(h, t) && SameMap(h, s, t)
    && t.iterators == s.iterators && t.canResize == s.canResize
    && more == t.Rehashing()
    && (more ==>
          && s.rehashidx <= t.rehashidx
          && |t.ht0.buckets| == |s.ht0.buckets| && |t.ht1.buckets| == |s.ht1.buckets|)
    && (!more && s.Rehashing() ==> t.ht0.buckets != [] && |t.ht0.buckets| == |s.ht1.buckets|)
  }

  /** t is s where the loop has stopped. */
  ghost predicate Reached(h: Hash, s: State, t: State)
  {
    && (t == s || Further(h, s, t)) && Moving(h, t) && t.Rehashing()
    && (t.ht0.used != 0 ==> t.rehashidx < |t.ht0.buckets|)
  }

  lemma FurtherOn(h: Hash, s: State, t: State, u: State)
    requires Further(h, s, t) && Reached(h, t, u)
    ensures Reached(h, s, u) && u != s
  {
  }

  lemma {:induction false} StoppedOk(h: Hash, s: State, n: nat, visits: nat)
    requires Moving(h, s) && s.Rehashing() && (n > 0 ==> visits > 0)
    ensures Reached(h, s, Stopped(h, s, n, visits))
    ensures n > 0 && s.ht0.used != 0 ==> s.rehashidx < Stopped(h, s, n, visits).rehashidx
    decreases n
  {
    if s.ht0.used != 0 {
      MoreToMove(h, s);
      if n > 0 {
        TurnOk(h, s, visits);
        var (t, left) := Turn(h, s, visits);
        if left > 0 {
          StoppedOk(h, t, n - 1, left);
          FurtherOn(h, s, t, Stopped(h, t, n - 1, left));
        }
      }
    }
  }

  lemma RehashLoopOk(h: Hash, s: State, n: nat, visits: nat)
    requires Moving(h, s) && s.Rehashing() && (n > 0 ==> visits > 0)
    ensures var r := RehashLoop(h, s, n, visits);
            RehashEffect(h, s, r.0, r.1) && (r.1 && n > 0 ==> s.rehashidx < r.0.rehashidx)
  {
    StoppedOk(h, s, n, visits);
    var t := Stopped(h, s, n, visits);
    if t.ht0.used == 0 {
      FinishOk(h, t);
    }
  }

  // ---------------------------------------------------------------- its visits

  /** The empty ones among the buckets lo to hi - 1. */
  function CountEmpty(b: seq<Chain>, lo: nat, hi: nat): (n: nat)
    requires lo <= hi <= |b|
    decreases hi - lo
  {
    if lo == hi then 0 else (if b[lo] == [] then 1 else 0) + CountEmpty(b, lo + 1, hi)
  }

  lemma {:induction false} CountEmptySplit(b: seq<Chain>, lo: nat, mid: nat, hi: nat)
    requires lo <= mid <= hi <= |b|
    ensures CountEmpty(b, lo, hi) == CountEmpty(b, lo, mid) + CountEmpty(b, mid, hi)
    decreases mid - lo
  {
    if lo < mid {
      CountEmptySplit(b, lo + 1, mid, hi);
    }
  }

  lemma {:induction false} CountEmptyAll(b: seq<Chain>, lo: nat, hi: nat)
    requires lo <= hi <= |b| && forall j | lo <= j < hi :: b[j] == []
    ensures CountEmpty(b, lo, hi) == hi - lo
    decreases hi - lo
  {
    if lo < hi {
      CountEmptyAll(b, lo + 1, hi);
    }
  }

  lemma {:induction false} CountEmptyAlike(b: seq<Chain>, c: seq<Chain>, lo: nat, hi: nat)
    requires lo <= hi <= |b| == |c| && forall j | lo <= j < hi :: b[j] == c[j]
    ensures CountEmpty(b, lo, hi) == CountEmpty(c, lo, hi)
    decreases hi - lo
  {
    if lo < hi {
      CountEmptyAlike(b, c, lo + 1, hi);
    }
  }

  /** On the way from s to t, `empty` empty buckets were passed and `moved` others moved. */
  ghost predicate Passed(s: State, t: State, moved: nat, empty: nat)
  {
    && 0 <= s.rehashidx <= t.rehashidx <= |s.ht0.buckets|
    && CountEmpty(s.ht0.buckets, s.rehashidx, t.rehashidx) == empty
    && t.rehashidx - s.rehashidx == moved + empty
  }

  lemma TurnPasses(h: Hash, s: State, visits: nat)
    requires Moving(h, s) && s.Rehashing() && s.ht0.used != 0 && visits > 0
    ensures var (t, left) := Turn(h, s, visits);
            left <= visits && Passed(s, t, if left == 0 then 0 else 1, visits - left)
  {
    TurnOk(h, s, visits);
    var b, lo := s.ht0.buckets, s.rehashidx;
    MoreToMove(h, s);
    var (i, left) := SkipEmpty(b, lo, visits);
    CountEmptyAll(b, lo, i);
    if left > 0 {
      CountEmptySplit(b, lo, i, i + 1);
    }
  }

  lemma PassedOn(h: Hash, s: State, t: State, u: State, m: nat, e: nat, m2: nat, e2: nat)
    requires Further(h, s, t) && Passed(s, t, m, e) && Passed(t, u, m2, e2)
    ensures Passed(s, u, m + m2, e + e2)
  {
    CountEmptyAlike(s.ht0.buckets, t.ht0.buckets, t.rehashidx, u.rehashidx);
    CountEmptySplit(s.ht0.buckets, s.rehashidx, t.rehashidx, u.rehashidx);
  }

  lemma {:induction false} StoppedPasses(h: Hash, s: State, n: nat, visits: nat) returns (moved: nat, empty: nat)
    requires Moving(h, s) && s.Rehashing() && (n > 0 ==> visits > 0)
    ensures Passed(s, Stopped(h, s, n, visits), moved, empty) && moved <= n && empty <= visits
    ensures Stopped(h, s, n, visits).ht0.used != 0 ==> moved == n || empty == visits
    decreases n
  {
    moved, empty := 0, 0;
    if s.ht0.used != 0 && n > 0 {
      TurnOk(h, s, visits);
      TurnPasses(h, s, visits);
      var (t, left) := Turn(h, s, visits);
      if left == 0 {
        empty := visits;
      } else {
        var m, e := StoppedPasses(h, t, n - 1, left);
        PassedOn(h, s, t, Stopped(h, t, n - 1, left), 1, visits - left, m, e);
        moved, empty := m + 1, e + (visits - left);
      }
    }
  }

  /** dictRehash keeps the invariant and the map, reports exactly whether rehashing is still
      on, and then has advanced if asked for at least one step. */
  lemma RehashOk(h: Hash, s: State, n: nat)
    requires Ok(h, s)
    ensures var r := Rehash(h, s, n);
            && RehashEffect(h, s, r.0, r.1)
            && (r.1 && n > 0 ==> s.rehashidx < r.0.rehashidx)
  {
    if s.Rehashing() {
      RehashLoopOk(h, s, n, 10 * n);
    }
  }

  /** The work of one dictRehash, whether or not it finishes: up to the state t in which it stops
      it moves at most n buckets and passes at most 10n empty ones; it stops short of the end
      only when one of these limits is reached. */
  lemma RehashVisits(h: Hash, s: State, n: nat) returns (t: State, moved: nat, empty: nat)
    requires Ok(h, s) && s.Rehashing()
    ensures t == Stopped(h, s, n, 10 * n)
    ensures Rehash(h, s, n) == if t.ht0.used == 0 then (Finish(t), false) else (t, true)
    ensures Passed(s, t, moved, empty) && moved <= n && empty <= 10 * n
    ensures t.ht0.used != 0 ==> moved == n || empty == 10 * n
  {
    t := Stopped(h, s, n, 10 * n);
    moved, empty := StoppedPasses(h, s, n, 10 * n);
  }

  lemma RehashKeepsOk(h: Hash, s: State, n: nat)
    requires Ok(h, s)
    ensures Ok(h, Rehash(h, s, n).0)
  {
    RehashOk(h, s, n);
  }

  /** Repeated single steps finish: each one that leaves work advances the index. */
  ghost function RehashTimes(h: Hash, s: State, calls: nat): (t: State)
    requires Ok(h, s)
    ensures Ok(h, t)
    decreases calls
  {
    if calls == 0 then s else RehashOk(h, s, 1); RehashTimes(h, Rehash(h, s, 1).0, calls - 1)
  }

  lemma {:induction false} RehashFinishes(h: Hash, s: State, calls: nat)
    requires Ok(h, s) && (s.Rehashing() ==> calls >= |s.ht0.buckets| - s.rehashidx)
    ensures !RehashTimes(h, s, calls).Rehashing() && SameMap(h, s, RehashTimes(h, s, calls))
    decreases calls
  {
    if calls > 0 {
      RehashOk(h, s, 1);
      RehashFinishes(h, Rehash(h, s, 1).0, calls - 1);
    }
  }

  // ------------------------------------------------------------------ resizing

  function NextPowerFrom(i: nat, size: nat): nat
    requires i > 0
    decreases size - i
  {
    if i >= size then i else NextPowerFrom(2 * i, size)
  }

  /** _dictNextPower. */
  function NextPower(size: nat): nat
  {
    if size >= LONG_MAX then LONG_MAX + 1 else NextPowerFrom(INITIAL_SIZE, size)
  }

  lemma {:induction false} NextPowerFromOk(k: nat, size: nat)
    requires 2 <= k < BITS && size < LONG_MAX
    ensures var n := NextPowerFrom(Pow2(k), size);
            && IsTableSize(n) && n >= size && (n == Pow2(k) || (n % 2 == 0 && n / 2 < size))
    decreases size - Pow2(k)
  {
    if Pow2(k) < size {
      assert k + 1 < BITS by { Pow2Constants(); }
      NextPowerFromOk(k + 1, size);
    }
  }

  /** The least admissible table size that holds `size` entries, up to the overflow cap. */
  lemma NextPowerOk(size: nat)
    ensures var n := NextPower(size);
            && IsTableSize(n) && n >= INITIAL_SIZE
            && (size < LONG_MAX ==> n >= size && (n == INITIAL_SIZE || (n % 2 == 0 && n / 2 < size)))
  {
    Pow2Constants();
    if size < LONG_MAX {
      NextPowerFromOk(2, size);
    }
    var n := NextPower(size);
    var k: nat :| 2 <= k < BITS && Pow2(k) == n;
    if k > 2 { Pow2Strict(2, k); }
  }

  /** dictExpand. The flag is DICT_OK. */
  function Expand(s: State, size: nat): (State, bool)
  {
    if s.Rehashing() || s.ht0.used > size then (s, false)
    else
      var n := NextPower(size);
      if n == |s.ht0.buckets| then (s, false)
      else if s.ht0.buckets == [] then (s.(ht0 := Table(EmptyBuckets(n), 0)), true)
      else (s.(ht1 := Table(EmptyBuckets(n), 0), rehashidx := 0), true)
  }

  lemma ExpandOk(h: Hash, s: State, size: nat)
    requires Ok(h, s)
    ensures Ok(h, Expand(s, size).0) && SameMap(h, s, Expand(s, size).0)
  {
    NextPowerOk(size);
    EmptyBucketsOk(h, NextPower(size));
  }

  /** dictResize narrows `used` to a 32-bit int before asking for a table of that size. */
  function ToInt32(n: nat): int
  {
    var low := n % 0x1_0000_0000;
    if low < 0x8000_0000 then low else low - 0x1_0000_0000
  }

  function Resize(s: State): (State, bool)
  {
    if !s.canResize || s.Rehashing() then (s, false)
    else
      Expand(s, FitSize(ToInt32(s.ht0.used)))
  }

  function FitSize(n: int): (size: nat)
    ensures size >= INITIAL_SIZE && size >= n
  {
    if n < INITIAL_SIZE then INITIAL_SIZE else n
  }

  /** The narrowed number asks for enough room exactly below 2^31 entries. */
  lemma NarrowedFits(used: nat)
    ensures used <= FitSize(ToInt32(used)) <==> used < 0x8000_0000
    ensures used < 0x8000_0000 ==> ToInt32(used) == used
  {
  }

  /** Because of the narrowing, a resize takes place only below 2^31 entries; there it asks for
      the least size that holds all of them. */
  lemma ResizeOk(h: Hash, s: State)
    requires Ok(h, s)
    ensures Ok(h, Resize(s).0) && SameMap(h, s, Resize(s).0)
    ensures var fit := NextPower(FitSize(s.ht0.used));
            Resize(s).1 <==>
              s.canResize && !s.Rehashing() && s.ht0.used < 0x8000_0000 && |s.ht0.buckets| != fit
  {
    NarrowedFits(s.ht0.used);
    ExpandOk(h, s, FitSize(ToInt32(s.ht0.used)));
  }

  /** _dictExpandIfNeeded; the doubling is unsigned 64-bit arithmetic. */
  function ExpandIfNeeded(s: State): (State, bool)
  {
    if s.Rehashing() then (s, true)
    else if s.ht0.buckets == [] then Expand(s, INITIAL_SIZE)
    else if s.ht0.used >= |s.ht0.buckets| && (s.canResize || s.ht0.used / |s.ht0.buckets| > FORCE_RATIO)
    then Expand(s, 2 * s.ht0.used % 0x1_0000_0000_0000_0000)
    else (s, true)
  }

  /** Doubling `used` neither wraps nor reaches the cap of _dictNextPower. */
  ghost predicate CanGrow(s: State) { s.Total() < 0x4000_0000_0000_0000 }

  lemma SizeAtLeast(n: nat)
    requires IsTableSize(n)
    ensures n >= INITIAL_SIZE
  {
    Pow2Constants();
    var k: nat :| 2 <= k < BITS && Pow2(k) == n;
    if k > 2 { Pow2Strict(2, k); }
  }

  /** Below the overflow limit, the expansion an insertion triggers never fails; whenever it
      does not fail there is a table to insert into. */
  lemma ExpandIfNeededOk(h: Hash, s: State)
    requires Ok(h, s)
    ensures var r := ExpandIfNeeded(s);
            && Ok(h, r.0) && SameMap(h, s, r.0)
            && r.0.iterators == s.iterators && r.0.canResize == s.canResize
            && (r.1 ==> r.0.ht0.buckets != [])
            && (CanGrow(s) ==> r.1)
  {
    if !s.Rehashing() {
      if s.ht0.buckets == [] {
        ExpandOk(h, s, INITIAL_SIZE);
        NextPowerOk(INITIAL_SIZE);
      } else {
        SizeAtLeast(|s.ht0.buckets|);
        ExpandOk(h, s, 2 * s.ht0.used % 0x1_0000_0000_0000_0000);
        NextPowerOk(2 * s.ht0.used);
      }
    }
  }

  // ------------------------------------------------------------ map operations

  /** "if (dictIsRehashing(d)) _dictRehashStep(d)". */
  ghost function Step(h: Hash, s: State): State
    requires Ok(h, s)
  {
    if s.iterators == 0 then Rehash(h, s, 1).0 else s
  }

  lemma StepOk(h: Hash, s: State)
    requires Ok(h, s)
    ensures RehashEffect(h, s, Step(h, s), Step(h, s).Rehashing())
    ensures s.iterators > 0 ==> Step(h, s) == s
    ensures s.iterators == 0 && Step(h, s).Rehashing() ==> s.rehashidx < Step(h, s).rehashidx
  {
    RehashOk(h, s, 1);
  }

  lemma StepKeepsTable(h: Hash, s: State)
    requires Ok(h, s)
    ensures !s.Rehashing() ==> Step(h, s) == s
    ensures s.Total() > 0 ==> Step(h, s).ht0.buckets != []
  {
    StepOk(h, s);
  }

  /** What _dictKeyIndex searches: one rehash step done and the table expanded if needed. */
  ghost function Prepare(h: Hash, s: State): (State, bool)
    requires Ok(h, s)
  {
    ExpandIfNeeded(Step(h, s))
  }

  lemma PrepareOk(h: Hash, s: State)
    requires Ok(h, s)
    ensures var r := Prepare(h, s);
            && Ok(h, r.0) && SameMap(h, s, r.0)
            && r.0.iterators == s.iterators && r.0.canResize == s.canResize
            && (r.1 ==> r.0.ht0.buckets != [])
            && (CanGrow(s) ==> r.1)
  {
    StepOk(h, s);
    ExpandIfNeededOk(h, Step(h, s));
  }

  lemma PrepareFits(h: Hash, s: State)
    requires Ok(h, s)
    ensures !s.Rehashing() ==> Step(h, s) == s
    ensures Prepare(h, s).1 ==> Prepare(h, s).0.ht0.buckets != []
    ensures CanGrow(s) ==> Prepare(h, s).1
  {
    StepOk(h, s);
    PrepareOk(h, s);
  }

  /** The new entry goes to the head of its bucket, in the new table while rehashing. */
  function Insert(h: Hash, s: State, e: Entry): State
    requires s.ht0.buckets != [] && (s.Rehashing() ==> s.ht1.buckets != [])
  {
    if s.Rehashing() then s.(ht1 := Table(PushFront(h, s.ht1.buckets, e), s.ht1.used + 1))
    else s.(ht0 := Table(PushFront(h, s.ht0.buckets, e), s.ht0.used + 1))
  }

  function SetAt(h: Hash, t: Table, k: Key, v: Value): Table
    requires t.buckets != []
  {
    var i := Slot(h, k, |t.buckets|);
    t.(buckets := t.buckets[i := SetIn(t.buckets[i], k, v)])
  }

  function RemoveAt(h: Hash, t: Table, k: Key): Table
    requires t.buckets != [] && t.used > 0
  {
    var i := Slot(h, k, |t.buckets|);
    Table(t.buckets[i := RemoveIn(t.buckets[i], k)], t.used - 1)
  }

  /** "dictSetVal" on the entry of a present key. */
  function Assign(h: Hash, s: State, k: Key, v: Value): State
    requires Lookup(h, s, k).Some?
  {
    if Get(h, s.ht0.buckets, k).Some? then s.(ht0 := SetAt(h, s.ht0, k, v))
    else s.(ht1 := SetAt(h, s.ht1, k, v))
  }

  function Unlink(h: Hash, s: State, k: Key): State
    requires Lookup(h, s, k).Some? && (Get(h, s.ht0.buckets, k).Some? ==> s.ht0.used > 0)
    requires Get(h, s.ht0.buckets, k).None? ==> s.ht1.used > 0
  {
    if Get(h, s.ht0.buckets, k).Some? then s.(ht0 := RemoveAt(h, s.ht0, k))
    else s.(ht1 := RemoveAt(h, s.ht1, k))
  }

  lemma InsertOk(h: Hash, s: State, e: Entry)
    requires Ok(h, s) && s.ht0.buckets != [] && Lookup(h, s, e.key).None?
    ensures Ok(h, Insert(h, s, e)) && Insert(h, s, e).Total() == s.Total() + 1
    ensures forall x :: Lookup(h, Insert(h, s, e), x) == if x == e.key then Some(e.val) else Lookup(h, s, x)
  {
    PushFrontOk(h, if s.Rehashing() then s.ht1.buckets else s.ht0.buckets, e);
  }

  lemma SetAtOk(h: Hash, t: Table, k: Key, v: Value)
    requires TableOk(h, t) && Get(h, t.buckets, k).Some?
    ensures TableOk(h, SetAt(h, t, k, v))
    ensures forall x :: Get(h, SetAt(h, t, k, v).buckets, x) == if x == k then Some(v) else Get(h, t.buckets, x)
  {
    var c := t.buckets[Slot(h, k, |t.buckets|)];
    SetInOk(c, k, v);
    UpdateBucket(h, t.buckets, k, SetIn(c, k, v), Some(v));
  }

  lemma RemoveAtOk(h: Hash, t: Table, k: Key)
    requires TableOk(h, t) && Get(h, t.buckets, k).Some?
    ensures t.used > 0 && TableOk(h, RemoveAt(h, t, k))
    ensures forall x :: Get(h, RemoveAt(h, t, k).buckets, x) == if x == k then None else Get(h, t.buckets, x)
  {
    var c := t.buckets[Slot(h, k, |t.buckets|)];
    BucketWithin(t.buckets, Slot(h, k, |t.buckets|));
    RemoveInOk(c, k);
    UpdateBucket(h, t.buckets, k, RemoveIn(c, k), None);
  }

  lemma AssignOk(h: Hash, s: State, k: Key, v: Value)
    requires Ok(h, s) && Lookup(h, s, k).Some?
    ensures Ok(h, Assign(h, s, k, v)) && Assign(h, s, k, v).Total() == s.Total()
    ensures forall x :: Lookup(h, Assign(h, s, k, v), x) == if x == k then Some(v) else Lookup(h, s, x)
  {
    var t := if Get(h, s.ht0.buckets, k).Some? then s.ht0 else s.ht1;
    SetAtOk(h, t, k, v);
  }

  lemma UnlinkOk(h: Hash, s: State, k: Key)
    requires Ok(h, s) && Lookup(h, s, k).Some?
    ensures Get(h, s.ht0.buckets, k).Some? ==> s.ht0.used > 0
    ensures Get(h, s.ht0.buckets, k).None? ==> s.ht1.used > 0
    ensures Ok(h, Unlink(h, s, k)) && Unlink(h, s, k).Total() == s.Total() - 1
    ensures forall x :: Lookup(h, Unlink(h, s, k), x) == if x == k then None else Lookup(h, s, x)
  {
    var t := if Get(h, s.ht0.buckets, k).Some? then s.ht0 else s.ht1;
    RemoveAtOk(h, t, k);
  }

  /** dictAdd: the flag says the key was added. */
  ghost function Add(h: Hash, s: State, k: Key, v: Value): (State, bool)
    requires Ok(h, s)
  {
    PrepareOk(h, s);
    var (t, ok) := Prepare(h, s);
    if !ok || Lookup(h, t, k).Some? then (t, false) else (Insert(h, t, Entry(k, v)), true)
  }

  /** Barring overflow, an add fails exactly on a key that is already there. */
  lemma AddFailsOnDuplicateOnly(h: Hash, s: State, k: Key, v: Value)
    requires Ok(h, s)
    ensures CanGrow(s) ==> (Add(h, s, k, v).1 <==> Lookup(h, s, k).None?)
    ensures Add(h, s, k, v).1 ==> Lookup(h, s, k).None?
  {
    PrepareOk(h, s);
  }

  /** dictReplace: as dictAdd, but a present key gets the new value. */
  ghost function Replace(h: Hash, s: State, k: Key, v: Value): (State, bool)
    requires Ok(h, s) && CanGrow(s)
  {
    PrepareOk(h, s);
    var t := Prepare(h, s).0;
    if Lookup(h, t, k).Some? then (Assign(h, t, k, v), false) else (Insert(h, t, Entry(k, v)), true)
  }

  /** dictFind and dictFetchValue. */
  ghost function Find(h: Hash, s: State, k: Key): (State, Option<Value>)
    requires Ok(h, s)
  {
    if s.Total() == 0 then (s, None) else (Step(h, s), Lookup(h, Step(h, s), k))
  }

  /** The search-and-unlink part of dictGenericDelete. */
  ghost function RemoveKey(h: Hash, s: State, k: Key): (State, Option<Value>)
    requires Ok(h, s)
  {
    if Lookup(h, s, k).None? then (s, None)
    else
      UnlinkOk(h, s, k);
      (Unlink(h, s, k), Lookup(h, s, k))
  }

  /** dictGenericDelete, for dictDelete and dictUnlink: the value is that of the removed entry. */
  ghost function Delete(h: Hash, s: State, k: Key): (State, Option<Value>)
    requires Ok(h, s)
  {
    if s.Total() == 0 then (s, None)
    else
      StepOk(h, s);
      RemoveKey(h, Step(h, s), k)
  }

  lemma EmptyHasNoKeys(h: Hash, s: State)
    requires Ok(h, s) && s.Total() == 0
    ensures forall x :: Lookup(h, s, x).None?
  {
    SumLenZero(s.ht0.buckets);
    SumLenZero(s.ht1.buckets);
  }

  // ---------------------------------------------------------- entry pointers

  /** A `dictEntry *` into the tables: which table, which bucket, how far down the chain. */
  datatype Ref = Ref(table: nat, bucket: nat, pos: nat)

  predicate ChainAt(c: Chain, j: nat, k: Key)
  {
    j < |c| && c[j].key == k && forall i | 0 <= i < j :: c[i].key != k
  }

  function TableOf(s: State, r: Ref): Table { if r.table == 0 then s.ht0 else s.ht1 }

  /** r points to the entry of k. */
  predicate PointsTo(h: Hash, s: State, r: Ref, k: Key)
  {
    var b := TableOf(s, r).buckets;
    && b != [] && r.bucket == Slot(h, k, |b|)
    && ChainAt(b[r.bucket], r.pos, k)
    && (r.table == 0 || (r.table == 1 && Get(h, s.ht0.buckets, k).None?))
  }

  lemma {:induction false} ChainAtMeans(c: Chain, j: nat, k: Key, v: Value)
    requires ChainAt(c, j, k)
    ensures FindIn(c, k) == Some(c[j].val)
    ensures SetIn(c, k, v) == c[j := Entry(k, v)]
    ensures RemoveIn(c, k) == c[..j] + c[j + 1..]
  {
    if j > 0 {
      ChainAtMeans(c[1..], j - 1, k, v);
      assert c[j := Entry(k, v)] == [c[0]] + c[1..][j - 1 := Entry(k, v)];
      assert c[..j] + c[j + 1..] == [c[0]] + (c[1..][..j - 1] + c[1..][j..]);
    }
  }

  /** A pointer to the entry of k reads its value, and writing through it is Assign. */
  lemma PointsToMeans(h: Hash, s: State, r: Ref, k: Key, v: Value)
    requires PointsTo(h, s, r, k)
    ensures Lookup(h, s, k) == Some(TableOf(s, r).buckets[r.bucket][r.pos].val)
    ensures var b := TableOf(s, r).buckets;
            SetAt(h, TableOf(s, r), k, v).buckets == b[r.bucket := b[r.bucket][r.pos := Entry(k, v)]]
    ensures Get(h, s.ht0.buckets, k).Some? <==> r.table == 0
  {
    ChainAtMeans(TableOf(s, r).buckets[r.bucket], r.pos, k, v);
  }
}
