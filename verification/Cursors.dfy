/** The reverse-binary cursor of dictScan, and the order on bit-reversed words that makes
    it survive resizes. A table of 2^k buckets cuts the range of ranks into 2^k windows of
    2^(64-k) ranks; a bucket is exactly the keys whose rank lies in one window. */
module Cursors {
  import opened Powers
  import opened Words

  /** The position of a word in the scan order: its bits read in reverse. */
  function Rank(v: Word): nat { Val(Reverse(v)) }

  /** Which of the 2^k windows the word falls in. */
  function Window(v: Word, k: nat): nat
    requires k <= BITS
  {
    Val(Reverse(v[..k]))
  }

  function Width(k: nat): nat
    requires k <= BITS
  {
    Pow2(BITS - k)
  }

  /** "v |= ~mask; v = rev(v); v++; v = rev(v)". */
  function Advance(v: Word, k: nat): Word
  {
    Reverse(Increment(Reverse(Or(v, Not(Mask(k))))))
  }

  method AdvanceCursor(v: Word, mask: Word, ghost k: nat) returns (r: Word)
    requires mask == Mask(k)
    ensures r == Advance(v, k)
  {
    r := Or(v, Not(mask));
    r := Rev(r);
    r := Increment(r);
    r := Rev(r);
  }

  // ------------------------------------------------------- ranks and windows

  lemma RankBound(v: Word)
    ensures Rank(v) < Pow2(BITS)
  {
    ValBound(Reverse(v));
  }

  lemma RankZero(v: Word)
    ensures Rank(v) == 0 <==> v == ZERO
  {
    assert Reverse(ZERO) == ZERO;
    ValRepeat(BITS);
    if Rank(v) == 0 {
      ValInjective(Reverse(v), ZERO);
      ReverseInjective(v, ZERO);
    }
  }

  lemma RankSplit(v: Word, k: nat)
    requires k <= BITS
    ensures Rank(v) == Val(Reverse(v[k..])) + Width(k) * Window(v, k)
    ensures Width(k) * Window(v, k) <= Rank(v) < Width(k) * Window(v, k) + Width(k)
  {
    assert v == v[..k] + v[k..];
    ReverseConcat(v[..k], v[k..]);
    ValConcat(Reverse(v[k..]), Reverse(v[..k]));
    ValBound(Reverse(v[k..]));
  }

  lemma WindowUnique(a: nat, b: nat, d: nat, r: nat)
    requires d * a <= r < d * a + d && d * b <= r < d * b + d
    ensures a == b
  {
    assert a <= b by { if a > b { MulSucc(d, b); MulMonotone(b + 1, a, d); } }
    assert b <= a by { if b > a { MulSucc(d, a); MulMonotone(a + 1, b, d); } }
  }

  lemma MulSucc(d: nat, a: int)
    ensures d * (a + 1) == d * a + d
  {
  }

  /** Two words of one window agree on the k low bits, that is, share a bucket. */
  lemma SameWindow(v: Word, w: Word, k: nat)
    requires k <= BITS
    requires Width(k) * Window(v, k) <= Rank(w) < Width(k) * Window(v, k) + Width(k)
    ensures w[..k] == v[..k]
  {
    RankSplit(w, k);
    WindowUnique(Window(v, k), Window(w, k), Width(k), Rank(w));
    ValInjective(Reverse(v[..k]), Reverse(w[..k]));
    ReverseInjective(v[..k], w[..k]);
  }

  // ------------------------------------------------------------- increments

  lemma {:induction false} IncrementOnes(n: nat, b: seq<bool>)
    ensures Increment(Repeat(true, n) + b) == Repeat(false, n) + Increment(b)
  {
    if n == 0 {
      assert Repeat(true, n) + b == b;
    } else {
      assert (Repeat(true, n) + b)[1..] == Repeat(true, n - 1) + b;
      IncrementOnes(n - 1, b);
      assert Repeat(false, n) == [false] + Repeat(false, n - 1);
    }
  }

  lemma {:induction false} IncrementLow(a: seq<bool>, b: seq<bool>)
    requires false in a
    ensures Increment(a + b) == Increment(a) + b && true in Increment(a)
  {
    if a[0] {
      assert a == [a[0]] + a[1..];
      assert (a + b)[1..] == a[1..] + b;
      IncrementLow(a[1..], b);
    } else {
      assert (a + b)[1..] == a[1..] + b;
      assert Increment(a)[0];
    }
  }

  /** Advancing touches the k low bits only, and clears all others. */
  lemma AdvanceShape(v: Word, k: nat)
    requires k <= BITS
    ensures Advance(v, k) == Reverse(Increment(Reverse(v[..k]))) + Repeat(false, BITS - k)
  {
    var n := BITS - k;
    assert Or(v, Not(Mask(k))) == v[..k] + Repeat(true, n);
    ReverseConcat(v[..k], Repeat(true, n));
    assert Reverse(Repeat(true, n)) == Repeat(true, n);
    IncrementOnes(n, Reverse(v[..k]));
    ReverseConcat(Repeat(false, n), Increment(Reverse(v[..k])));
    assert Reverse(Repeat(false, n)) == Repeat(false, n);
  }

  /** The reversed cursor moves to the start of the next window, or wraps to 0 after the last. */
  lemma AdvanceRank(v: Word, k: nat)
    requires k <= BITS
    ensures Rank(Advance(v, k)) ==
            if Window(v, k) + 1 == Pow2(k) then 0 else Width(k) * Window(v, k) + Width(k)
  {
    AdvanceVal(v, k);
    ValIncrement(Reverse(v[..k]));
    MulSucc(Width(k), Window(v, k));
  }

  lemma AdvanceVal(v: Word, k: nat)
    requires k <= BITS
    ensures Rank(Advance(v, k)) == Width(k) * Val(Increment(Reverse(v[..k])))
  {
    var inc := Increment(Reverse(v[..k]));
    AdvanceShape(v, k);
    ReverseConcat(Reverse(inc), Repeat(false, BITS - k));
    ReverseInvolution(inc);
    assert Reverse(Repeat(false, BITS - k)) == Repeat(false, BITS - k);
    ValConcat(Repeat(false, BITS - k), inc);
    ValRepeat(BITS - k);
  }

  lemma TopWindow(d: nat, a: nat, n: nat)
    requires a + 1 == n
    ensures d * a + d == d * n
  {
  }

  lemma LastWindow(v: Word, k: nat)
    requires k <= BITS && Window(v, k) + 1 == Pow2(k)
    ensures Width(k) * Window(v, k) + Width(k) == Pow2(BITS)
  {
    Pow2Add(BITS - k, k);
    TopWindow(Width(k), Window(v, k), Pow2(k));
  }

  /** Progress: unless it wraps to 0, the cursor moves forward in scan order. */
  lemma AdvanceProgress(v: Word, k: nat)
    requires k <= BITS
    ensures Advance(v, k) == ZERO || Rank(v) < Rank(Advance(v, k))
  {
    AdvanceRank(v, k);
    RankZero(Advance(v, k));
    RankSplit(v, k);
  }

  /** Everything between the cursor and its successor shares the cursor's bucket. */
  lemma AdvanceCovers(v: Word, w: Word, k: nat)
    requires k <= BITS && Rank(v) <= Rank(w)
    requires Advance(v, k) == ZERO || Rank(w) < Rank(Advance(v, k))
    ensures w[..k] == v[..k]
  {
    AdvanceRank(v, k);
    RankZero(Advance(v, k));
    RankSplit(v, k);
    RankBound(w);
    if Window(v, k) + 1 == Pow2(k) { LastWindow(v, k); }
    SameWindow(v, w, k);
  }

  // --------------------------------------- expansions into a larger table

  /** The loop guard of the rehashing case: some bit covered only by the larger mask is set. */
  predicate MoreExpansions(v: Word, small: nat, large: nat)
  {
    And(v, Xor(Mask(small), Mask(large))) != ZERO
  }

  lemma ReversedCarry(lo: seq<bool>, n: nat)
    ensures Reverse(Increment(Reverse(lo + Repeat(true, n)))) == Reverse(Increment(Reverse(lo))) + Repeat(false, n)
  {
    ReverseConcat(lo, Repeat(true, n));
    assert Reverse(Repeat(true, n)) == Repeat(true, n);
    IncrementOnes(n, Reverse(lo));
    ReverseConcat(Repeat(false, n), Increment(Reverse(lo)));
    assert Reverse(Repeat(false, n)) == Repeat(false, n);
  }

  lemma ReversedStay(lo: seq<bool>, mid: seq<bool>)
    requires false in mid
    ensures Reverse(Increment(Reverse(lo + mid))) == lo + Reverse(Increment(Reverse(mid)))
    ensures true in Increment(Reverse(mid))
  {
    ReverseConcat(lo, mid);
    var i :| 0 <= i < |mid| && !mid[i];
    assert !Reverse(mid)[|mid| - 1 - i];
    IncrementLow(Reverse(mid), Reverse(lo));
    ReverseConcat(Increment(Reverse(mid)), Reverse(lo));
    ReverseInvolution(lo);
  }

  /** The bits between the two masks carry over: the turn ends in the next small bucket. */
  lemma ExpansionCarries(v: Word, small: nat, large: nat)
    requires small < large <= BITS && v[small..large] == Repeat(true, large - small)
    ensures !MoreExpansions(Advance(v, large), small, large) && Advance(v, large) == Advance(v, small)
  {
    assert v[..large] == v[..small] + v[small..large];
    ReversedCarry(v[..small], large - small);
    AdvanceShape(v, large);
    AdvanceShape(v, small);
    assert Repeat(false, large - small) + Repeat(false, BITS - large) == Repeat(false, BITS - small);
    MiddleBitsClear(Advance(v, small), small, large);
  }

  /** They do not: the low bits stay, so the turn stays in the same small bucket. */
  lemma ExpansionStays(v: Word, small: nat, large: nat)
    requires small < large <= BITS && false in v[small..large]
    ensures MoreExpansions(Advance(v, large), small, large)
    ensures Advance(v, large)[..small] == v[..small] && Rank(v) < Rank(Advance(v, large))
  {
    var mid := Increment(Reverse(v[small..large]));
    assert v[..large] == v[..small] + v[small..large];
    ReversedStay(v[..small], v[small..large]);
    AdvanceShape(v, large);
    MiddleBitSet(Advance(v, large), mid, small, large);
    AdvanceProgress(v, large);
  }

  lemma AllOnes(b: seq<bool>)
    requires false !in b
    ensures b == Repeat(true, |b|)
  {
    forall i | 0 <= i < |b| ensures b[i] == Repeat(true, |b|)[i] {
      assert b[i] in b;
    }
  }

  /** One turn of that loop either ends with the successor in the small table, or stays
      inside the small table's window. */
  lemma ExpansionStep(v: Word, small: nat, large: nat)
    requires small < large <= BITS
    ensures !MoreExpansions(Advance(v, large), small, large) ==> Advance(v, large) == Advance(v, small)
    ensures MoreExpansions(Advance(v, large), small, large) ==>
              && Advance(Advance(v, large), small) == Advance(v, small)
              && Advance(v, large)[..small] == v[..small]
              && Rank(v) < Rank(Advance(v, large))
  {
    if false in v[small..large] {
      ExpansionStays(v, small, large);
      AdvanceShape(v, small);
      AdvanceShape(Advance(v, large), small);
    } else {
      AllOnes(v[small..large]);
      ExpansionCarries(v, small, large);
    }
  }

  lemma MiddleBitsClear(w: Word, small: nat, large: nat)
    requires small < large <= BITS && w[small..] == Repeat(false, BITS - small)
    ensures !MoreExpansions(w, small, large)
  {
    forall i | 0 <= i < BITS ensures !And(w, Xor(Mask(small), Mask(large)))[i] {
      assert i >= small ==> w[i] == w[small..][i - small];
    }
  }

  lemma MiddleBitSet(w: Word, a: seq<bool>, small: nat, large: nat)
    requires small < large <= BITS && |a| == large - small
    requires w[small..large] == Reverse(a) && true in a
    ensures MoreExpansions(w, small, large) && w != ZERO
  {
    var i :| 0 <= i < |a| && a[i];
    var j := large - 1 - i;
    assert w[small..large][j - small] == a[i];
    assert w[j] && And(w, Xor(Mask(small), Mask(large)))[j];
    assert !ZERO[j];
  }

  /** The cursors at which the larger table is read during one call. */
  function Expansions(v: Word, small: nat, large: nat): (vs: seq<Word>)
    requires small < large <= BITS
    ensures |vs| > 0 && vs[0] == v
    decreases Pow2(BITS) - Rank(v)
  {
    var w := Advance(v, large);
    if MoreExpansions(w, small, large) then
      ExpansionStep(v, small, large);
      RankBound(w);
      [v] + Expansions(w, small, large)
    else
      [v]
  }

  /** The expansions cover the larger table over the whole window of the smaller one. */
  lemma {:induction false} ExpansionsCover(v: Word, w: Word, small: nat, large: nat)
    requires small < large <= BITS && Rank(v) <= Rank(w)
    requires Advance(v, small) == ZERO || Rank(w) < Rank(Advance(v, small))
    ensures exists u :: u in Expansions(v, small, large) && w[..large] == u[..large]
    decreases Pow2(BITS) - Rank(v)
  {
    var next := Advance(v, large);
    ExpansionStep(v, small, large);
    if !MoreExpansions(next, small, large) || Rank(w) < Rank(next) {
      AdvanceCovers(v, w, large);
      assert v in Expansions(v, small, large);
    } else {
      RankBound(next);
      ExpansionsCover(next, w, small, large);
      var u :| u in Expansions(next, small, large) && w[..large] == u[..large];
      assert u in Expansions(v, small, large);
    }
  }

  // ------------------------------------------------------ long-run bounds

  /** Every cursor produced with at most K index bits is a multiple of the window width 2^(64-K). */
  lemma AdvanceAligned(v: Word, k: nat, K: nat) returns (q: nat)
    requires k <= K <= BITS
    ensures Rank(Advance(v, k)) == Width(K) * q
  {
    var n := Val(Increment(Reverse(v[..k])));
    AdvanceVal(v, k);
    q := Pow2(K - k) * n;
    assert Width(k) == Width(K) * Pow2(K - k) by { Pow2Add(BITS - K, K - k); }
    MulAssoc(Width(K), Pow2(K - k), n);
  }
}
