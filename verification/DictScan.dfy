/** dictScan: one stateless step over the bucket arrays, and what whole runs of such steps
    guarantee while the dictionary changes freely between them. */
module DictScan {
  import opened Powers
  import opened Words
  import opened Cursors
  import opened Bytes
  import opened DictModel
  import opened DictRuns
  import opened DictClass

  ghost function Exponent(n: nat): (k: nat)
    requires IsTableSize(n)
    ensures 2 <= k < BITS && Pow2(k) == n
  {
    var k: nat :| 2 <= k < BITS && Pow2(k) == n; k
  }

  function Smaller(s: State): Table
  {
    if s.Rehashing() && |s.ht0.buckets| > |s.ht1.buckets| then s.ht1 else s.ht0
  }

  function Larger(s: State): Table
  {
    if s.Rehashing() && |s.ht0.buckets| > |s.ht1.buckets| then s.ht0 else s.ht1
  }

  /** `v & sizemask`. */
  function Index(v: Word, k: nat): nat { Val(And(v, Mask(k))) }

  ghost function BucketAt(b: seq<Chain>, v: Word): Chain
    requires IsTableSize(|b|)
  {
    var k := Exponent(|b|);
    MaskIsRemainder(v, k);
    b[Index(v, k)]
  }

  ghost function BucketsAt(b: seq<Chain>, vs: seq<Word>): seq<Entry>
    requires IsTableSize(|b|)
  {
    if vs == [] then [] else BucketAt(b, vs[0]) + BucketsAt(b, vs[1..])
  }

  lemma NonEmptyHasTable(h: Hash, s: State)
    requires Ok(h, s) && s.Total() > 0
    ensures IsTableSize(|Smaller(s).buckets|)
    ensures s.Rehashing() ==> IsTableSize(|Larger(s).buckets|)
    ensures s.Rehashing() ==> Exponent(|Smaller(s).buckets|) < Exponent(|Larger(s).buckets|)
  {
    if s.Rehashing() {
      var i, j := Exponent(|Smaller(s).buckets|), Exponent(|Larger(s).buckets|);
      if j < i { Pow2Strict(j, i); }
    }
  }

  /** The entries handed to the callback, in order. */
  ghost function ScanEmits(h: Hash, s: State, v: Word): seq<Entry>
    requires Ok(h, s)
  {
    if s.Total() == 0 then []
    else
      NonEmptyHasTable(h, s);
      if !s.Rehashing() then BucketAt(s.ht0.buckets, v)
      else
        var i, j := Exponent(|Smaller(s).buckets|), Exponent(|Larger(s).buckets|);
        BucketAt(Smaller(s).buckets, v) + BucketsAt(Larger(s).buckets, Expansions(v, i, j))
  }

  /** The cursor returned: always the successor with respect to the smaller table. */
  ghost function ScanNext(h: Hash, s: State, v: Word): Word
    requires Ok(h, s)
  {
    if s.Total() == 0 then ZERO
    else
      NonEmptyHasTable(h, s);
      Advance(v, Exponent(|Smaller(s).buckets|))
  }

  // --------------------------------------------------------------- the method

  lemma MaskVal(k: nat)
    requires k <= BITS
    ensures Val(Mask(k)) == Pow2(k) - 1
  {
    var low, high := Repeat(true, k), Repeat(false, BITS - k);
    assert Mask(k) == low + high;
    assert Val(low) == Pow2(k) - 1 by { ValRepeat(k); }
    assert Val(high) == 0 by { ValRepeat(BITS - k); }
    ValConcat(low, high);
  }

  /** sizemask, as the bits it is used for. */
  lemma MaskOfSize(k: nat)
    requires k < BITS
    ensures Pow2(k) - 1 < 0x1_0000_0000_0000_0000 && ToWord(Pow2(k) - 1) == Mask(k)
  {
    assert Pow2(BITS) == 0x1_0000_0000_0000_0000 by { Pow2Constants(); }
    Pow2Strict(k, BITS);
    MaskVal(k);
    ValWord(Pow2(k) - 1);
    ValInjective(ToWord(Pow2(k) - 1), Mask(k));
  }

  lemma EmitStep(b: seq<Chain>, v: Word, i: nat, j: nat)
    requires IsTableSize(|b|) && i < j <= BITS
    ensures var w := Advance(v, j);
            BucketsAt(b, Expansions(v, i, j)) ==
              BucketAt(b, v) + (if MoreExpansions(w, i, j) then BucketsAt(b, Expansions(w, i, j)) else [])
  {
    var w := Advance(v, j);
    if MoreExpansions(w, i, j) {
      assert Expansions(v, i, j)[1..] == Expansions(w, i, j);
    } else {
      assert Expansions(v, i, j)[1..] == [];
    }
  }

  /** The chain at `t->table[v & mask]`. */
  method ReadBucket(t: array<Chain>, v: Word, mask: Word, ghost k: nat) returns (c: Chain)
    requires IsTableSize(t.Length) && k == Exponent(t.Length) && mask == Mask(k)
    ensures c == BucketAt(t[..], v)
  {
    MaskIsRemainder(v, k);
    c := t[Val(And(v, mask))];
  }

  /** The do-while over the larger table: read the bucket at the cursor, advance, and go on
      while a bit covered only by the larger mask is set. */
  method ScanExpansions(t1: array<Chain>, v0: Word, m0: Word, m1: Word, ghost i: nat, ghost j: nat)
    returns (emitted: seq<Entry>, v: Word)
    requires IsTableSize(t1.Length) && j == Exponent(t1.Length) && i < j
    requires m0 == Mask(i) && m1 == Mask(j)
    ensures emitted == BucketsAt(t1[..], Expansions(v0, i, j))
    ensures v == Advance(v0, i)
  {
    v := v0;
    emitted := [];
    ghost var b := t1[..];
    ghost var whole := BucketsAt(b, Expansions(v0, i, j));
    while true
      invariant emitted + BucketsAt(b, Expansions(v, i, j)) == whole
      invariant Advance(v, i) == Advance(v0, i)
      decreases Pow2(BITS) - Rank(v)
    {
      EmitStep(b, v, i, j);
      ExpansionStep(v, i, j);
      var c := ReadBucket(t1, v, m1, j);
      v := AdvanceCursor(v, m1, j);
      RankBound(v);
      ghost var rest := if MoreExpansions(v, i, j) then BucketsAt(b, Expansions(v, i, j)) else [];
      assert emitted + (c + rest) == (emitted + c) + rest;
      emitted := emitted + c;
      if And(v, Xor(m0, m1)) == ZERO {
        return;
      }
    }
  }

  /** The rehashing case: the bucket of the smaller table, then all its expansions. */
  method ScanTwo(t0: array<Chain>, t1: array<Chain>, v: Word, ghost i: nat, ghost j: nat)
    returns (emitted: seq<Entry>, next: Word)
    requires IsTableSize(t0.Length) && IsTableSize(t1.Length)
    requires i == Exponent(t0.Length) && j == Exponent(t1.Length) && i < j
    ensures emitted == BucketAt(t0[..], v) + BucketsAt(t1[..], Expansions(v, i, j))
    ensures next == Advance(v, i)
  {
    MaskOfSize(i);
    MaskOfSize(j);
    var m0, m1 := ToWord(t0.Length - 1), ToWord(t1.Length - 1);
    emitted := ReadBucket(t0, v, m0, i);
    var more;
    more, next := ScanExpansions(t1, v, m0, m1, i, j);
    emitted := emitted + more;
  }

  method Scan(d: Dict, v: Word) returns (emitted: seq<Entry>, next: Word)
    requires d.Valid()
    ensures emitted == ScanEmits(d.hash, d.View(), v)
    ensures next == ScanNext(d.hash, d.View(), v)
  {
    if d.used0 + d.used1 == 0 {
      return [], ZERO;
    }
    NonEmptyHasTable(d.hash, d.View());
    if d.rehashidx == -1 {
      ghost var k := Exponent(d.table0.Length);
      MaskOfSize(k);
      var m0 := ToWord(d.table0.Length - 1);
      emitted := ReadBucket(d.table0, v, m0, k);
      next := AdvanceCursor(v, m0, k);
    } else {
      var t0, t1 := d.table0, d.table1;
      if t0.Length > t1.Length {
        t0, t1 := t1, t0;
      }
      emitted, next := ScanTwo(t0, t1, v, Exponent(t0.Length), Exponent(t1.Length));
    }
  }

  // ----------------------------------------------------- what one call covers

  lemma {:induction false} FindInMember(c: Chain, k: Key)
    requires FindIn(c, k).Some?
    ensures Entry(k, FindIn(c, k).value) in c
  {
    if c[0].key != k {
      FindInMember(c[1..], k);
    }
  }

  /** A key of the table whose hash agrees with the cursor on the masked bits is in the bucket. */
  lemma BucketHolds(h: Hash, b: seq<Chain>, v: Word, k: Key)
    requires IsTableSize(|b|) && Get(h, b, k).Some?
    requires ToWord(h(k))[..Exponent(|b|)] == v[..Exponent(|b|)]
    ensures Entry(k, Get(h, b, k).value) in BucketAt(b, v)
  {
    var j, w := Exponent(|b|), ToWord(h(k));
    ValWord(h(k));
    MaskIsRemainder(w, j);
    MaskKeepsLow(w, j);
    MaskKeepsLow(v, j);
    FindInMember(b[Slot(h, k, |b|)], k);
  }

  lemma {:induction false} BucketsAtMember(b: seq<Chain>, vs: seq<Word>, u: Word, e: Entry)
    requires IsTableSize(|b|) && u in vs && e in BucketAt(b, u)
    ensures e in BucketsAt(b, vs)
  {
    if u != vs[0] {
      BucketsAtMember(b, vs[1..], u, e);
    }
  }

  ghost predicate Emitted(h: Hash, s: State, v: Word, k: Key)
    requires Ok(h, s)
  {
    Lookup(h, s, k).Some? && Entry(k, Lookup(h, s, k).value) in ScanEmits(h, s, v)
  }

  function KeyRank(h: Hash, k: Key): nat { Rank(ToWord(h(k))) }

  /** One call emits every stored key that lies between the cursor and its successor, whether
      the key sits in the only table, the smaller, or the larger one. */
  lemma CallCovers(h: Hash, s: State, v: Word, k: Key)
    requires Ok(h, s) && Lookup(h, s, k).Some? && Rank(v) <= KeyRank(h, k)
    requires ScanNext(h, s, v) == ZERO || KeyRank(h, k) < Rank(ScanNext(h, s, v))
    ensures Emitted(h, s, v, k)
  {
    if s.Total() == 0 {
      EmptyHasNoKeys(h, s);
    } else {
      NonEmptyHasTable(h, s);
      var w, small := ToWord(h(k)), Smaller(s).buckets;
      var i := Exponent(|small|);
      if Get(h, small, k).Some? {
        AdvanceCovers(v, w, i);
        BucketHolds(h, small, v, k);
      } else {
        LargerCovers(h, s, v, k);
      }
    }
  }

  lemma LargerCovers(h: Hash, s: State, v: Word, k: Key)
    requires Ok(h, s) && s.Total() > 0 && Lookup(h, s, k).Some? && Rank(v) <= KeyRank(h, k)
    requires Get(h, Smaller(s).buckets, k).None?
    requires ScanNext(h, s, v) == ZERO || KeyRank(h, k) < Rank(ScanNext(h, s, v))
    ensures Emitted(h, s, v, k)
  {
    NonEmptyHasTable(h, s);
    var w, large := ToWord(h(k)), Larger(s).buckets;
    var i, j := Exponent(|Smaller(s).buckets|), Exponent(|large|);
    ExpansionsCover(v, w, i, j);
    var u :| u in Expansions(v, i, j) && w[..j] == u[..j];
    BucketHolds(h, large, u, k);
    BucketsAtMember(large, Expansions(v, i, j), u, Entry(k, Get(h, large, k).value));
  }

  lemma {:induction false} MemberFound(c: Chain, e: Entry)
    requires Distinct(c) && e in c
    ensures FindIn(c, e.key) == Some(e.val)
  {
    if c[0] != e {
      MemberFound(c[1..], e);
    }
  }

  /** Everything in a bucket of a table is stored in the table. */
  lemma BucketStored(h: Hash, b: seq<Chain>, v: Word, e: Entry)
    requires IsTableSize(|b|) && Placed(h, b) && e in BucketAt(b, v)
    ensures Get(h, b, e.key) == Some(e.val)
  {
    var k := Exponent(|b|);
    MaskIsRemainder(v, k);
    MemberFound(b[Index(v, k)], e);
  }

  lemma {:induction false} BucketsStored(h: Hash, b: seq<Chain>, vs: seq<Word>, e: Entry)
    requires IsTableSize(|b|) && Placed(h, b) && e in BucketsAt(b, vs)
    ensures Get(h, b, e.key) == Some(e.val)
  {
    if e in BucketAt(b, vs[0]) {
      BucketStored(h, b, vs[0], e);
    } else {
      BucketsStored(h, b, vs[1..], e);
    }
  }

  /** In any state a call emits stored entries only. */
  lemma CallEmitsStored(h: Hash, s: State, v: Word, e: Entry)
    requires Ok(h, s) && e in ScanEmits(h, s, v)
    ensures Lookup(h, s, e.key) == Some(e.val)
  {
    NonEmptyHasTable(h, s);
    var small, large := Smaller(s).buckets, Larger(s).buckets;
    if e in BucketAt(small, v) {
      BucketStored(h, small, v, e);
    } else {
      BucketsStored(h, large, Expansions(v, Exponent(|small|), Exponent(|large|)), e);
    }
  }

  // -------------------------------------- what one call emits besides: nothing

  lemma {:induction false} AbsentFromChain(c: Chain, e: Entry)
    requires FindIn(c, e.key).None?
    ensures multiset(c)[e] == 0
  {
    if c != [] {
      assert c == [c[0]] + c[1..];
      AbsentFromChain(c[1..], e);
    }
  }

  lemma {:induction false} OnceInChain(c: Chain, e: Entry)
    requires Distinct(c)
    ensures multiset(c)[e] == if FindIn(c, e.key) == Some(e.val) then 1 else 0
  {
    if c != [] {
      assert c == [c[0]] + c[1..];
      if c[0].key == e.key {
        AbsentFromChain(c[1..], e);
      } else {
        OnceInChain(c[1..], e);
      }
    }
  }

  lemma OccurrencesAdd(a: seq<Entry>, b: seq<Entry>, e: Entry)
    ensures multiset(a + b)[e] == multiset(a)[e] + multiset(b)[e]
  {
  }

  /** An entry is in the bucket at a cursor once if it is in the table and its hash agrees with the
      cursor on the masked bits, and otherwise not at all. */
  lemma OnceAtCursor(h: Hash, b: seq<Chain>, v: Word, e: Entry)
    requires IsTableSize(|b|) && Placed(h, b)
    ensures var k := Exponent(|b|);
            multiset(BucketAt(b, v))[e] ==
              if ToWord(h(e.key))[..k] == v[..k] && Get(h, b, e.key) == Some(e.val) then 1 else 0
  {
    var k, w := Exponent(|b|), ToWord(h(e.key));
    ValWord(h(e.key));
    MaskIsRemainder(v, k);
    MaskIsRemainder(w, k);
    IndexIsLow(v, k);
    IndexIsLow(w, k);
    OnceInChain(b[Index(v, k)], e);
    if Index(w, k) == Index(v, k) {
      ValInjective(w[..k], v[..k]);
    }
  }

  lemma {:induction false} ExpansionsAgree(v: Word, i: nat, j: nat, u: Word)
    requires i < j <= BITS && u in Expansions(v, i, j)
    ensures u[..i] == v[..i] && Window(u, j) >= Window(v, j)
    decreases Pow2(BITS) - Rank(v)
  {
    var w := Advance(v, j);
    ExpansionStep(v, i, j);
    if u != v && MoreExpansions(w, i, j) {
      RankBound(w);
      NextWindow(v, i, j);
      ExpansionsAgree(w, i, j, u);
    }
  }

  lemma NextWindow(v: Word, i: nat, j: nat)
    requires i < j <= BITS && MoreExpansions(Advance(v, j), i, j)
    ensures Window(Advance(v, j), j) == Window(v, j) + 1
  {
    var w := Advance(v, j);
    assert And(ZERO, Xor(Mask(i), Mask(j))) == ZERO;
    ValBound(Reverse(v[..j]));
    WindowSteps(v, j);
  }

  /** What the larger table adds comes once, and only from the cursor on. */
  lemma {:induction false} OnceInExpansions(h: Hash, b: seq<Chain>, v: Word, i: nat, j: nat, e: Entry)
    requires IsTableSize(|b|) && Placed(h, b) && j == Exponent(|b|) && i < j
    ensures var n := multiset(BucketsAt(b, Expansions(v, i, j)))[e];
            n <= 1 && (n == 1 ==> Window(ToWord(h(e.key)), j) >= Window(v, j))
    decreases Pow2(BITS) - Rank(v)
  {
    var w := Advance(v, j);
    EmitStep(b, v, i, j);
    OnceAtCursor(h, b, v, e);
    ExpansionStep(v, i, j);
    if MoreExpansions(w, i, j) {
      RankBound(w);
      NextWindow(v, i, j);
      OnceInExpansions(h, b, w, i, j, e);
      OccurrencesAdd(BucketAt(b, v), BucketsAt(b, Expansions(w, i, j)), e);
    } else {
      OccurrencesAdd(BucketAt(b, v), [], e);
    }
  }

  lemma AbsentIsNowhere(s: seq<Entry>, e: Entry)
    ensures multiset(s)[e] > 0 <==> e in s
  {
  }

  /** In any state a call emits no entry twice. */
  lemma CallEmitsOnce(h: Hash, s: State, v: Word, e: Entry)
    requires Ok(h, s)
    ensures multiset(ScanEmits(h, s, v))[e] <= 1
  {
    if s.Total() > 0 {
      NonEmptyHasTable(h, s);
      var small, large := Smaller(s).buckets, Larger(s).buckets;
      OnceAtCursor(h, small, v, e);
      if s.Rehashing() {
        var i, j := Exponent(|small|), Exponent(|large|);
        var more := BucketsAt(large, Expansions(v, i, j));
        OnceInExpansions(h, large, v, i, j, e);
        OccurrencesAdd(BucketAt(small, v), more, e);
        AbsentIsNowhere(more, e);
        if e in more { BucketsStored(h, large, Expansions(v, i, j), e); }
      }
    }
  }

  lemma {:induction false} FoundAtCursor(h: Hash, b: seq<Chain>, vs: seq<Word>, e: Entry) returns (u: Word)
    requires IsTableSize(|b|) && Placed(h, b) && e in BucketsAt(b, vs)
    ensures u in vs && e in BucketAt(b, u)
  {
    if e in BucketAt(b, vs[0]) {
      u := vs[0];
    } else {
      u := FoundAtCursor(h, b, vs[1..], e);
    }
  }

  lemma LocalAtCursor(h: Hash, b: seq<Chain>, v: Word, e: Entry)
    requires IsTableSize(|b|) && Placed(h, b) && e in BucketAt(b, v)
    ensures ToWord(h(e.key))[..Exponent(|b|)] == v[..Exponent(|b|)]
  {
    OnceAtCursor(h, b, v, e);
    AbsentIsNowhere(BucketAt(b, v), e);
  }

  /** In any state a call emits only entries whose hash agrees with the cursor on the mask of the
      smaller table. */
  lemma CallEmitsLocal(h: Hash, s: State, v: Word, e: Entry)
    requires Ok(h, s) && e in ScanEmits(h, s, v)
    ensures IsTableSize(|Smaller(s).buckets|)
    ensures var i := Exponent(|Smaller(s).buckets|); ToWord(h(e.key))[..i] == v[..i]
  {
    NonEmptyHasTable(h, s);
    var small, large := Smaller(s).buckets, Larger(s).buckets;
    if e in BucketAt(small, v) {
      LocalAtCursor(h, small, v, e);
    } else {
      var i, j := Exponent(|small|), Exponent(|large|);
      var u := FoundAtCursor(h, large, Expansions(v, i, j), e);
      LocalAtCursor(h, large, u, e);
      ExpansionsAgree(v, i, j, u);
      assert ToWord(h(e.key))[..i] == ToWord(h(e.key))[..j][..i] && u[..i] == u[..j][..i];
    }
  }

  // -------------------------------------------------------------- whole runs

  ghost predicate AllOk(h: Hash, states: seq<State>)
  {
    forall i | 0 <= i < |states| :: Ok(h, states[i])
  }

  /** The cursor after i calls, when the dictionary is in states[i] at call i. */
  ghost function Cursor(h: Hash, states: seq<State>, i: nat): Word
    requires AllOk(h, states) && i <= |states|
  {
    if i == 0 then ZERO else ScanNext(h, states[i - 1], Cursor(h, states, i - 1))
  }

  /** The caller goes on as long as the cursor returned is not 0. */
  ghost predicate Continues(h: Hash, states: seq<State>, n: nat)
    requires AllOk(h, states) && n <= |states|
  {
    forall i | 0 < i < n :: Cursor(h, states, i) != ZERO
  }

  ghost predicate EmittedBefore(h: Hash, states: seq<State>, n: nat, k: Key)
    requires AllOk(h, states) && n <= |states|
  {
    exists i | 0 <= i < n :: Emitted(h, states[i], Cursor(h, states, i), k)
  }

  ghost predicate StoredUntil(h: Hash, states: seq<State>, n: nat, k: Key)
    requires n <= |states|
  {
    forall i | 0 <= i < n :: Lookup(h, states[i], k).Some?
  }

  lemma EmittedNow(h: Hash, states: seq<State>, n: nat, k: Key)
    requires AllOk(h, states) && 0 < n <= |states|
    requires Emitted(h, states[n - 1], Cursor(h, states, n - 1), k)
    ensures EmittedBefore(h, states, n, k)
  {
  }

  lemma EmittedEarlier(h: Hash, states: seq<State>, n: nat, k: Key)
    requires AllOk(h, states) && 0 < n <= |states| && EmittedBefore(h, states, n - 1, k)
    ensures EmittedBefore(h, states, n, k)
  {
    var i :| 0 <= i < n - 1 && Emitted(h, states[i], Cursor(h, states, i), k);
  }

  /** The key's rank lies below the cursor after n calls; a cursor of 0 has passed all ranks. */
  ghost predicate Passed(h: Hash, states: seq<State>, n: nat, k: Key)
    requires AllOk(h, states) && n <= |states|
  {
    Cursor(h, states, n) == ZERO || KeyRank(h, k) < Rank(Cursor(h, states, n))
  }

  /** The n-th call emits the key, or the key was already passed before it. */
  lemma PassedByLast(h: Hash, states: seq<State>, n: nat, k: Key)
    requires AllOk(h, states) && 0 < n <= |states| && Lookup(h, states[n - 1], k).Some?
    requires Passed(h, states, n, k)
    ensures EmittedBefore(h, states, n, k) || (n > 1 && Passed(h, states, n - 1, k))
  {
    var s, v := states[n - 1], Cursor(h, states, n - 1);
    if Rank(v) <= KeyRank(h, k) {
      CallCovers(h, s, v, k);
      EmittedNow(h, states, n, k);
    } else {
      RankZero(v);
    }
  }

  /** Invariant of a run: a key stored at every call so far that the cursor has passed has been
      emitted. */
  lemma {:induction false} CoveredSoFar(h: Hash, states: seq<State>, n: nat, k: Key)
    requires AllOk(h, states) && 0 < n <= |states| && StoredUntil(h, states, n, k)
    requires Passed(h, states, n, k)
    ensures EmittedBefore(h, states, n, k)
  {
    PassedByLast(h, states, n, k);
    if n > 1 && Passed(h, states, n - 1, k) {
      CoveredSoFar(h, states, n - 1, k);
      EmittedEarlier(h, states, n, k);
    }
  }

  /** Scan coverage: in a scan, which starts from cursor 0 and ends when 0 is returned, every key
      stored at each of its calls is emitted, whatever happens to the dictionary in between. */
  lemma ScanCoverage(h: Hash, states: seq<State>, k: Key)
    requires AllOk(h, states) && states != [] && Cursor(h, states, |states|) == ZERO
    requires StoredUntil(h, states, |states|, k)
    ensures EmittedBefore(h, states, |states|, k)
  {
    CoveredSoFar(h, states, |states|, k);
  }

  /** The states of a run in which batches of ordinary calls separate the scan calls. */
  ghost predicate Evolves(h: Hash, states: seq<State>, maps: seq<map<Key, Value>>, batches: seq<seq<Op>>)
  {
    && |states| == |maps| == |batches| + 1
    && (forall i | 0 <= i < |states| :: Ok(h, states[i]) && Agrees(h, states[i], maps[i]))
    && (forall i | 0 <= i < |batches| ::
          && Room(states[i], batches[i])
          && states[i + 1] == Run(h, states[i], maps[i], batches[i]).0
          && maps[i + 1] == MapRun(maps[i], batches[i]).0)
  }

  /** The same for runs of calls: adds, deletes, expansions, shrinks, rehash steps and
      iterators between the scan calls, and a key that the map holds at each of them. */
  lemma ScanCoverageOfRuns(h: Hash, states: seq<State>, maps: seq<map<Key, Value>>, batches: seq<seq<Op>>, k: Key)
    requires Evolves(h, states, maps, batches)
    requires Cursor(h, states, |states|) == ZERO
    requires forall i | 0 <= i < |maps| :: k in maps[i]
    ensures exists i | 0 <= i < |states| ::
              Entry(k, maps[i][k]) in ScanEmits(h, states[i], Cursor(h, states, i))
  {
    forall i | 0 <= i < |states| ensures Lookup(h, states[i], k) == Some(maps[i][k]) {
      assert k in maps[i] && Agrees(h, states[i], maps[i]);
    }
    ScanCoverage(h, states, k);
    var i :| 0 <= i < |states| && Emitted(h, states[i], Cursor(h, states, i), k);
    assert Lookup(h, states[i], k) == Some(maps[i][k]);
  }

  // ---------------------------------------------------------------- progress

  /** Every call that does not end the scan moves the reversed cursor forward. */
  lemma CallProgress(h: Hash, s: State, v: Word)
    requires Ok(h, s)
    ensures ScanNext(h, s, v) == ZERO || Rank(v) < Rank(ScanNext(h, s, v))
  {
    if s.Total() > 0 {
      NonEmptyHasTable(h, s);
      AdvanceProgress(v, Exponent(|Smaller(s).buckets|));
    }
  }

  ghost predicate SizesUpTo(h: Hash, states: seq<State>, K: nat)
    requires AllOk(h, states)
  {
    forall i | 0 <= i < |states| :: |Smaller(states[i]).buckets| <= Pow2(K)
  }

  lemma MulCancel(a: nat, b: nat, d: nat)
    requires d * a < d * b
    ensures a < b
  {
    if a >= b { MulMonotone(b, a, d); }
  }

  lemma WindowsInAll(K: nat, q: nat)
    requires K <= BITS && Width(K) * q < Pow2(BITS)
    ensures q < Pow2(K)
  {
    Pow2Add(BITS - K, K);
    MulCancel(q, Pow2(K), Width(K));
  }

  /** One more call that does not end the scan passes at least one more of the 2^K windows. */
  lemma CallClimbs(h: Hash, s: State, v: Word, K: nat, p: nat) returns (q: nat)
    requires Ok(h, s) && K <= BITS && |Smaller(s).buckets| <= Pow2(K)
    requires ScanNext(h, s, v) != ZERO && Rank(v) == Width(K) * p
    ensures Rank(ScanNext(h, s, v)) == Width(K) * q && p < q
  {
    CallProgress(h, s, v);
    NonEmptyHasTable(h, s);
    var k := Exponent(|Smaller(s).buckets|);
    assert k <= K by { if k > K { Pow2Strict(K, k); } }
    q := AdvanceAligned(v, k, K);
    MulCancel(p, q, Width(K));
  }

  /** After n calls that did not end the scan, the cursor has passed n of the 2^K windows. */
  lemma {:induction false} CursorClimbs(h: Hash, states: seq<State>, n: nat, K: nat) returns (q: nat)
    requires AllOk(h, states) && n <= |states| && K <= BITS && SizesUpTo(h, states, K)
    requires forall i | 0 < i <= n :: Cursor(h, states, i) != ZERO
    ensures Rank(Cursor(h, states, n)) == Width(K) * q && q >= n
  {
    if n == 0 {
      RankZero(ZERO);
      q := 0;
    } else {
      var p := CursorClimbs(h, states, n - 1, K);
      assert Cursor(h, states, n) != ZERO;
      q := CallClimbs(h, states[n - 1], Cursor(h, states, n - 1), K, p);
    }
  }

  /** Scan progress: if the smaller table never has more than 2^K buckets, a scan that has not
      ended after n calls has n < 2^K; so it ends within 2^K calls. */
  lemma ScanEnds(h: Hash, states: seq<State>, K: nat)
    requires AllOk(h, states) && K <= BITS && SizesUpTo(h, states, K)
    requires forall i | 0 < i <= |states| :: Cursor(h, states, i) != ZERO
    ensures |states| < Pow2(K)
  {
    var q := CursorClimbs(h, states, |states|, K);
    RankBound(Cursor(h, states, |states|));
    WindowsInAll(K, q);
  }

  // ------------------------------------------------------- a resting dictionary

  ghost function Same(s: State, n: nat): seq<State> { seq(n, _ => s) }

  lemma FirstWindow(k: nat)
    requires k <= BITS
    ensures Window(ZERO, k) == 0
  {
    assert ZERO[..k] == Repeat(false, k);
    assert Reverse(Repeat(false, k)) == Repeat(false, k);
    ValRepeat(k);
  }

  /** The cursor after i advances with one mask. */
  function Advances(k: nat, i: nat): Word { if i == 0 then ZERO else Advance(Advances(k, i - 1), k) }

  /** Where the cursor is after i advances: in window i, or back at 0 after the last one. */
  predicate AtWindow(v: Word, k: nat, i: nat)
    requires k <= BITS
  {
    if i == Pow2(k) then v == ZERO else Window(v, k) == i && (i > 0 ==> v != ZERO)
  }

  lemma WindowAfter(v: Word, k: nat, i: nat)
    requires k <= BITS && 0 < i <= Pow2(k) && AtWindow(v, k, i - 1)
    ensures AtWindow(Advance(v, k), k, i)
  {
    WindowSteps(v, k);
  }

  /** The i-th advance reaches window i, and the 2^k-th wraps to 0. */
  lemma {:induction false} AdvancesWindow(k: nat, i: nat)
    requires k <= BITS && i <= Pow2(k)
    ensures AtWindow(Advances(k, i), k, i)
  {
    if i == 0 {
      FirstWindow(k);
    } else {
      AdvancesWindow(k, i - 1);
      WindowAfter(Advances(k, i - 1), k, i);
    }
  }

  lemma RestingNext(h: Hash, s: State, v: Word)
    requires Ok(h, s) && s.Total() > 0 && !s.Rehashing()
    ensures ScanNext(h, s, v) == Advance(v, (NonEmptyHasTable(h, s); Exponent(|s.ht0.buckets|)))
  {
  }

  /** On a dictionary at rest each call is an advance with its one mask. */
  lemma RestingCall(h: Hash, s: State, n: nat, i: nat)
    requires Ok(h, s) && s.Total() > 0 && !s.Rehashing() && 0 < i <= n
    ensures Cursor(h, Same(s, n), i) ==
            Advance(Cursor(h, Same(s, n), i - 1), (NonEmptyHasTable(h, s); Exponent(|s.ht0.buckets|)))
  {
    assert Same(s, n)[i - 1] == s;
    RestingNext(h, s, Cursor(h, Same(s, n), i - 1));
  }

  ghost predicate FollowsBy(vs: seq<Word>, k: nat)
  {
    vs != [] && vs[0] == ZERO && forall j | 0 < j < |vs| :: vs[j] == Advance(vs[j - 1], k)
  }

  lemma {:induction false} AdvancesFollow(vs: seq<Word>, k: nat, i: nat)
    requires i < |vs| && FollowsBy(vs, k)
    ensures vs[i] == Advances(k, i)
  {
    if i > 0 {
      AdvancesFollow(vs, k, i - 1);
    }
  }

  lemma RestingCursors(h: Hash, s: State, n: nat) returns (vs: seq<Word>)
    requires Ok(h, s) && s.Total() > 0 && !s.Rehashing()
    ensures |vs| == n + 1 && forall j | 0 <= j <= n :: vs[j] == Cursor(h, Same(s, n), j)
    ensures FollowsBy(vs, (NonEmptyHasTable(h, s); Exponent(|s.ht0.buckets|)))
  {
    NonEmptyHasTable(h, s);
    var k := Exponent(|s.ht0.buckets|);
    vs := seq(n + 1, j requires 0 <= j <= n => Cursor(h, Same(s, n), j));
    forall j | 0 < j < |vs| ensures vs[j] == Advance(vs[j - 1], k) {
      RestingCall(h, s, n, j);
    }
  }

  lemma CursorAdvances(h: Hash, s: State, n: nat, i: nat)
    requires Ok(h, s) && s.Total() > 0 && !s.Rehashing() && i <= n
    ensures Cursor(h, Same(s, n), i) == Advances((NonEmptyHasTable(h, s); Exponent(|s.ht0.buckets|)), i)
  {
    NonEmptyHasTable(h, s);
    var vs := RestingCursors(h, s, n);
    AdvancesFollow(vs, Exponent(|s.ht0.buckets|), i);
  }

  /** On a dictionary at rest the i-th call reads window i. */
  lemma RestingCursor(h: Hash, s: State, n: nat, i: nat)
    requires Ok(h, s) && s.Total() > 0 && !s.Rehashing() && i <= n
    requires i <= |s.ht0.buckets|
    ensures var k := (NonEmptyHasTable(h, s); Exponent(|s.ht0.buckets|));
            AtWindow(Cursor(h, Same(s, n), i), k, i)
  {
    NonEmptyHasTable(h, s);
    CursorAdvances(h, s, n, i);
    AdvancesWindow(Exponent(|s.ht0.buckets|), i);
  }

  lemma WindowSteps(v: Word, k: nat)
    requires k <= BITS
    ensures Window(v, k) + 1 == Pow2(k) ==> Advance(v, k) == ZERO
    ensures Window(v, k) + 1 < Pow2(k) ==> Window(Advance(v, k), k) == Window(v, k) + 1 && Advance(v, k) != ZERO
  {
    AdvancedWindow(v, k);
    ValIncrement(Reverse(v[..k]));
    AdvanceWraps(v, k);
  }

  lemma AdvanceWraps(v: Word, k: nat)
    requires k <= BITS
    ensures Advance(v, k) == ZERO <==> Window(v, k) + 1 == Pow2(k)
  {
    AdvanceRank(v, k);
    RankZero(Advance(v, k));
    RankSplit(v, k);
  }

  lemma AdvancedWindow(v: Word, k: nat)
    requires k <= BITS
    ensures Window(Advance(v, k), k) == Val(Increment(Reverse(v[..k])))
  {
    var inc := Increment(Reverse(v[..k]));
    AdvanceShape(v, k);
    assert Advance(v, k)[..k] == Reverse(inc);
    ReverseInvolution(inc);
  }

  /** The bucket that call i reads on a dictionary at rest. */
  ghost function RestingIndex(h: Hash, s: State, i: nat): nat
    requires Ok(h, s) && s.Total() > 0 && !s.Rehashing() && i <= |s.ht0.buckets|
  {
    NonEmptyHasTable(h, s);
    Index(Cursor(h, Same(s, |s.ht0.buckets|), i), Exponent(|s.ht0.buckets|))
  }

  lemma RestingWindow(h: Hash, s: State, i: nat)
    requires Ok(h, s) && s.Total() > 0 && !s.Rehashing() && i < |s.ht0.buckets|
    ensures var k := (NonEmptyHasTable(h, s); Exponent(|s.ht0.buckets|));
            && Window(Cursor(h, Same(s, |s.ht0.buckets|), i), k) == i
            && (forall b | 0 <= b < |s.ht0.buckets| && WindowOfIndex(b, k) == i :: RestingIndex(h, s, i) == b)
  {
    NonEmptyHasTable(h, s);
    var n := |s.ht0.buckets|;
    RestingCursor(h, s, n, i);
    forall b | 0 <= b < n && WindowOfIndex(b, Exponent(n)) == i ensures RestingIndex(h, s, i) == b {
      IndexOfWindow(Cursor(h, Same(s, n), i), b, Exponent(n));
    }
  }

  ghost predicate Visited(h: Hash, s: State, b: nat)
    requires Ok(h, s) && s.Total() > 0 && !s.Rehashing()
  {
    exists i | 0 <= i < |s.ht0.buckets| :: RestingIndex(h, s, i) == b
  }

  /** On a dictionary at rest a scan takes exactly `size` calls. */
  lemma RestingScanLength(h: Hash, s: State)
    requires Ok(h, s) && s.Total() > 0 && !s.Rehashing()
    ensures var n := |s.ht0.buckets|;
            Continues(h, Same(s, n), n) && Cursor(h, Same(s, n), n) == ZERO
  {
    var n := |s.ht0.buckets|;
    RestingCursor(h, s, n, n);
    forall i | 0 < i < n ensures Cursor(h, Same(s, n), i) != ZERO {
      RestingCursor(h, s, n, i);
    }
  }

  /** These calls visit every bucket, and none of them twice. */
  lemma RestingScanVisits(h: Hash, s: State)
    requires Ok(h, s) && s.Total() > 0 && !s.Rehashing()
    ensures forall b | 0 <= b < |s.ht0.buckets| :: Visited(h, s, b)
    ensures forall i, j | 0 <= i < j < |s.ht0.buckets| :: RestingIndex(h, s, i) != RestingIndex(h, s, j)
  {
    NonEmptyHasTable(h, s);
    var n := |s.ht0.buckets|;
    var k := Exponent(n);
    forall b | 0 <= b < n ensures Visited(h, s, b) {
      RestingWindow(h, s, WindowOfIndex(b, k));
      assert RestingIndex(h, s, WindowOfIndex(b, k)) == b;
    }
    forall i, j | 0 <= i < j < n ensures RestingIndex(h, s, i) != RestingIndex(h, s, j) {
      RestingWindow(h, s, i);
      RestingWindow(h, s, j);
      DifferentWindows(Cursor(h, Same(s, n), i), Cursor(h, Same(s, n), j), k);
    }
  }

  // ------------------------------------- what a resting scan hands over in all

  function Flatten(parts: seq<seq<Entry>>): seq<Entry>
  {
    if parts == [] then [] else Flatten(parts[..|parts| - 1]) + parts[|parts| - 1]
  }

  /** What each call of the scan hands to the callback. */
  ghost function RestingParts(h: Hash, s: State): (parts: seq<seq<Entry>>)
    requires Ok(h, s) && s.Total() > 0 && !s.Rehashing()
    ensures |parts| == |s.ht0.buckets|
  {
    seq(|s.ht0.buckets|, i requires 0 <= i < |s.ht0.buckets| => ScanEmits(h, s, Cursor(h, Same(s, |s.ht0.buckets|), i)))
  }

  lemma RestingBucket(h: Hash, s: State, i: nat)
    requires Ok(h, s) && s.Total() > 0 && !s.Rehashing() && i < |s.ht0.buckets|
    ensures RestingIndex(h, s, i) < |s.ht0.buckets|
    ensures ScanEmits(h, s, Cursor(h, Same(s, |s.ht0.buckets|), i)) == s.ht0.buckets[RestingIndex(h, s, i)]
  {
    var v := Cursor(h, Same(s, |s.ht0.buckets|), i);
    NonEmptyHasTable(h, s);
    MaskIsRemainder(v, Exponent(|s.ht0.buckets|));
  }

  /** A bucket holds an entry once if the key's hash leads to it and the entry is stored. */
  lemma OnceInBucket(h: Hash, s: State, j: nat, e: Entry)
    requires Ok(h, s) && !s.Rehashing() && j < |s.ht0.buckets|
    ensures multiset(s.ht0.buckets[j])[e] ==
            if j == Slot(h, e.key, |s.ht0.buckets|) && Lookup(h, s, e.key) == Some(e.val) then 1 else 0
  {
    OnceInChain(s.ht0.buckets[j], e);
  }

  /** If e is in the parts of index `slot` only, and there once if `stored`, and no index comes
      twice, then e is in the whole once if that index comes at all. */
  lemma {:induction false} GatheredOnce(parts: seq<seq<Entry>>, idx: seq<nat>, e: Entry, slot: nat, stored: bool)
    requires |parts| == |idx| && forall j, k | 0 <= j < k < |idx| :: idx[j] != idx[k]
    requires forall j | 0 <= j < |idx| :: multiset(parts[j])[e] == if idx[j] == slot && stored then 1 else 0
    ensures multiset(Flatten(parts))[e] == if stored && slot in idx then 1 else 0
    decreases |parts|
  {
    if parts != [] {
      var n := |parts| - 1;
      GatheredOnce(parts[..n], idx[..n], e, slot, stored);
      OccurrencesAdd(Flatten(parts[..n]), parts[n], e);
      assert idx == idx[..n] + [idx[n]];
    }
  }

  lemma RestingIndices(h: Hash, s: State) returns (idx: seq<nat>)
    requires Ok(h, s) && s.Total() > 0 && !s.Rehashing()
    ensures |idx| == |s.ht0.buckets|
    ensures forall j | 0 <= j < |idx| :: idx[j] == RestingIndex(h, s, j) && idx[j] < |idx|
    ensures forall j, k | 0 <= j < k < |idx| :: idx[j] != idx[k]
    ensures forall b | 0 <= b < |idx| :: b in idx
  {
    RestingScanVisits(h, s);
    forall j | 0 <= j < |s.ht0.buckets| ensures RestingIndex(h, s, j) < |s.ht0.buckets| {
      RestingBucket(h, s, j);
    }
    idx := seq(|s.ht0.buckets|, j requires 0 <= j < |s.ht0.buckets| => RestingIndex(h, s, j));
    forall b | 0 <= b < |idx| ensures b in idx {
      assert Visited(h, s, b);
      var i :| 0 <= i < |s.ht0.buckets| && RestingIndex(h, s, i) == b;
      assert idx[i] == b;
    }
  }

  /** On a dictionary at rest a scan hands over every stored entry exactly once, and nothing else. */
  lemma RestingScanEmits(h: Hash, s: State, e: Entry)
    requires Ok(h, s) && s.Total() > 0 && !s.Rehashing()
    ensures multiset(Flatten(RestingParts(h, s)))[e] == if Lookup(h, s, e.key) == Some(e.val) then 1 else 0
  {
    NonEmptyHasTable(h, s);
    var idx := RestingIndices(h, s);
    var slot, stored := Slot(h, e.key, |idx|), Lookup(h, s, e.key) == Some(e.val);
    var parts := RestingParts(h, s);
    forall j | 0 <= j < |idx| ensures multiset(parts[j])[e] == if idx[j] == slot && stored then 1 else 0 {
      RestingBucket(h, s, j);
      OnceInBucket(h, s, idx[j], e);
    }
    GatheredOnce(parts, idx, e, slot, stored);
  }

  lemma IndexIsLow(v: Word, k: nat)
    requires k <= BITS
    ensures Index(v, k) == Val(v[..k])
  {
    MaskIsRemainder(v, k);
    ValSplit(v, k);
  }

  lemma IndexWindow(v: Word, w: Word, k: nat)
    requires k <= BITS && Index(v, k) == Index(w, k)
    ensures Window(v, k) == Window(w, k)
  {
    IndexIsLow(v, k);
    IndexIsLow(w, k);
    ValInjective(v[..k], w[..k]);
  }

  lemma DifferentWindows(v: Word, w: Word, k: nat)
    requires k <= BITS && Window(v, k) != Window(w, k)
    ensures Index(v, k) != Index(w, k)
  {
    if Index(v, k) == Index(w, k) {
      IndexWindow(v, w, k);
    }
  }

  function WindowOfIndex(b: nat, k: nat): (i: nat)
    ensures i < Pow2(k)
  {
    ValBound(Reverse(Bits(b, k)));
    Val(Reverse(Bits(b, k)))
  }

  lemma IndexOfWindow(v: Word, b: nat, k: nat)
    requires k <= BITS && b < Pow2(k) && Window(v, k) == WindowOfIndex(b, k)
    ensures Index(v, k) == b
  {
    ValInjective(Reverse(v[..k]), Reverse(Bits(b, k)));
    ReverseInjective(v[..k], Bits(b, k));
    IndexIsLow(v, k);
    ValBits(b, k);
  }
}
