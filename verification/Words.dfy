/** Powers of two and the arithmetic facts about them that the tables and cursors need. */
module Powers {
  function Pow2(k: nat): (r: nat)
    ensures r >= 1
  {
    if k == 0 then 1 else 2 * Pow2(k - 1)
  }

  lemma {:induction false} Pow2Add(a: nat, b: nat)
    ensures Pow2(a + b) == Pow2(a) * Pow2(b)
  {
    if a == 0 {
    } else {
      Pow2Add(a - 1, b);
      MulAssoc(2, Pow2(a - 1), Pow2(b));
    }
  }

  lemma {:induction false} Pow2Strict(a: nat, b: nat)
    requires a < b
    ensures 2 * Pow2(a) <= Pow2(b)
  {
    if b == a + 1 {
    } else {
      Pow2Strict(a, b - 1);
    }
  }

  lemma Pow2Small()
    ensures Pow2(2) == 4 && Pow2(4) == 0x10 && Pow2(8) == 0x100
  {
    Pow2Add(4, 4);
  }

  lemma Pow2Constants()
    ensures Pow2(2) == 4 && Pow2(8) == 0x100 && Pow2(16) == 0x1_0000
    ensures Pow2(32) == 0x1_0000_0000 && Pow2(63) == 0x8000_0000_0000_0000
    ensures Pow2(64) == 0x1_0000_0000_0000_0000
  {
    Pow2Small();
    Pow2Add(8, 8);
    Pow2Add(16, 16);
    Pow2Add(32, 32);
    assert Pow2(64) == 2 * Pow2(63);
  }

  lemma MulAssoc(a: int, b: int, c: int)
    ensures (a * b) * c == a * (b * c)
  {
  }

  lemma MulMonotone(a: int, b: int, d: nat)
    requires a <= b
    ensures a * d <= b * d
  {
  }

  /** Quotient and remainder are determined by the usual decomposition. */
  lemma DivUnique(q: int, r: int, d: int)
    requires 0 <= r < d
    ensures (q * d + r) / d == q && (q * d + r) % d == r
  {
    var n := q * d + r;
    var p := n / d;
    assert n == p * d + n % d;
    assert p <= q by {
      if p > q { MulMonotone(q + 1, p, d); }
    }
    assert p >= q by {
      if p < q { MulMonotone(p + 1, q, d); }
    }
  }

  lemma DivModIs(n: int, q: int, r: int, d: int)
    requires 0 <= r < d && n == d * q + r
    ensures n / d == q && n % d == r
  {
    DivUnique(q, r, d);
    assert n == q * d + r;
  }
}

/** A 64-bit `unsigned long` as its bits, least significant first, with the C
    operators that dict.c applies to hashes, masks and cursors. */
module Words {
  import opened Powers

  const BITS: nat := 64

  type Word = w: seq<bool> | |w| == BITS witness seq(BITS, i => false)

  type U64 = n: nat | n < 0x1_0000_0000_0000_0000

  function And(a: Word, b: Word): (r: Word)
    ensures forall i | 0 <= i < BITS :: r[i] == (a[i] && b[i])
  {
    seq(BITS, i requires 0 <= i < BITS => a[i] && b[i])
  }

  function Or(a: Word, b: Word): (r: Word)
    ensures forall i | 0 <= i < BITS :: r[i] == (a[i] || b[i])
  {
    seq(BITS, i requires 0 <= i < BITS => a[i] || b[i])
  }

  function Xor(a: Word, b: Word): (r: Word)
    ensures forall i | 0 <= i < BITS :: r[i] == (a[i] != b[i])
  {
    seq(BITS, i requires 0 <= i < BITS => a[i] != b[i])
  }

  function Not(a: Word): (r: Word)
    ensures forall i | 0 <= i < BITS :: r[i] == !a[i]
  {
    seq(BITS, i requires 0 <= i < BITS => !a[i])
  }

  function ShiftLeft(a: Word, n: nat): (r: Word)
    ensures forall i | 0 <= i < BITS :: r[i] == (i >= n && a[i - n])
  {
    seq(BITS, i requires 0 <= i < BITS => i >= n && a[i - n])
  }

  function ShiftRight(a: Word, n: nat): (r: Word)
    ensures forall i | 0 <= i < BITS :: r[i] == (i + n < BITS && a[i + n])
  {
    seq(BITS, i requires 0 <= i < BITS => i + n < BITS && a[i + n])
  }

  /** The mask with the k lowest bits set: `size - 1` for a table of 2^k buckets. */
  function Mask(k: nat): Word { seq(BITS, i => i < k) }

  function Repeat(b: bool, n: nat): (s: seq<bool>)
    ensures |s| == n
  {
    seq(n, _ => b)
  }

  const ZERO: Word := Repeat(false, BITS)

  /** The number a little-endian bit sequence denotes. */
  function Val(b: seq<bool>): (n: nat)
  {
    if |b| == 0 then 0 else (if b[0] then 1 else 0) + 2 * Val(b[1..])
  }

  /** `w + 1`, rippling the carry upwards and dropping it at the top. */
  function Increment(b: seq<bool>): (r: seq<bool>)
    ensures |r| == |b|
  {
    if |b| == 0 then [] else if b[0] then [false] + Increment(b[1..]) else [true] + b[1..]
  }

  function Reverse(b: seq<bool>): (r: seq<bool>)
    ensures |r| == |b|
    ensures forall i | 0 <= i < |b| :: r[i] == b[|b| - 1 - i]
  {
    seq(|b|, i requires 0 <= i < |b| => b[|b| - 1 - i])
  }

  /** The n lowest bits of a number. */
  function Bits(x: nat, n: nat): (b: seq<bool>)
    ensures |b| == n
  {
    if n == 0 then [] else [x % 2 == 1] + Bits(x / 2, n - 1)
  }

  function ToWord(x: U64): Word { Bits(x, BITS) }

  // ---------------------------------------------------------------- values

  lemma {:induction false} ValBound(b: seq<bool>)
    ensures Val(b) < Pow2(|b|)
  {
    if |b| > 0 {
      ValBound(b[1..]);
    }
  }

  lemma {:induction false} ValConcat(a: seq<bool>, b: seq<bool>)
    ensures Val(a + b) == Val(a) + Pow2(|a|) * Val(b)
  {
    if |a| == 0 {
      assert a + b == b;
    } else {
      assert (a + b)[1..] == a[1..] + b;
      ValConcat(a[1..], b);
      MulAssoc(2, Pow2(|a| - 1), Val(b));
    }
  }

  lemma {:induction false} ValRepeat(n: nat)
    ensures Val(Repeat(false, n)) == 0
    ensures Val(Repeat(true, n)) == Pow2(n) - 1
  {
    if n > 0 {
      ValRepeat(n - 1);
      assert Repeat(false, n)[1..] == Repeat(false, n - 1);
      assert Repeat(true, n)[1..] == Repeat(true, n - 1);
    }
  }

  lemma {:induction false} ValInjective(a: seq<bool>, b: seq<bool>)
    requires |a| == |b| && Val(a) == Val(b)
    ensures a == b
  {
    if |a| > 0 {
      assert a[0] == b[0];
      ValInjective(a[1..], b[1..]);
      assert a == [a[0]] + a[1..] && b == [b[0]] + b[1..];
    }
  }

  lemma {:induction false} ValIncrement(b: seq<bool>)
    ensures Val(Increment(b)) == if Val(b) + 1 == Pow2(|b|) then 0 else Val(b) + 1
  {
    if |b| > 0 {
      ValIncrement(b[1..]);
      if b[0] {
        assert Increment(b)[1..] == Increment(b[1..]);
      } else {
        assert Increment(b)[1..] == b[1..];
      }
    }
  }

  lemma {:induction false} ValBits(x: nat, n: nat)
    requires x < Pow2(n)
    ensures Val(Bits(x, n)) == x
  {
    if n > 0 {
      ValBits(x / 2, n - 1);
      assert Bits(x, n)[1..] == Bits(x / 2, n - 1);
    }
  }

  lemma ValWord(x: U64)
    ensures Val(ToWord(x)) == x
  {
    Pow2Constants();
    ValBits(x, BITS);
  }

  /** The low and high part of a sequence are its remainder and quotient. */
  lemma ValSplit(b: seq<bool>, k: nat)
    requires k <= |b|
    ensures Val(b[..k]) == Val(b) % Pow2(k) && Val(b[k..]) == Val(b) / Pow2(k)
  {
    assert b == b[..k] + b[k..];
    ValConcat(b[..k], b[k..]);
    ValBound(b[..k]);
    DivModIs(Val(b), Val(b[k..]), Val(b[..k]), Pow2(k));
  }

  lemma MaskKeepsLow(w: Word, k: nat)
    requires k <= BITS
    ensures And(w, Mask(k)) == w[..k] + Repeat(false, BITS - k)
  {
  }

  /** `w & (2^k - 1)` is `w mod 2^k`: how a hash becomes a bucket index. */
  lemma MaskIsRemainder(w: Word, k: nat)
    requires k <= BITS
    ensures Val(And(w, Mask(k))) == Val(w) % Pow2(k)
  {
    var low, high := w[..k], Repeat(false, BITS - k);
    MaskKeepsLow(w, k);
    assert Val(high) == 0 by { ValRepeat(BITS - k); }
    ValConcat(low, high);
    ValSplit(w, k);
  }

  // ----------------------------------------------------------- bit reversal

  /** i mod s, by repeated subtraction. */
  function Rem(s: nat, i: nat): (r: nat)
    requires s > 0
    ensures r < s && r <= i
  {
    if i < s then i else Rem(s, i - s)
  }

  lemma {:induction false} RemDouble(s: nat, i: nat)
    requires s > 0
    ensures Rem(2 * s, i) == Rem(s, i) || Rem(2 * s, i) == Rem(s, i) + s
  {
    if i >= 2 * s {
      RemDouble(s, i - 2 * s);
    }
  }

  lemma {:induction false} RemBack(t: nat, s: nat, i: nat)
    requires 0 < s < t && s <= i
    ensures Rem(t, i - s) == if Rem(t, i) >= s then Rem(t, i) - s else Rem(t, i) + t - s
  {
    if i - s >= t {
      RemBack(t, s, i - t);
    }
  }

  lemma {:induction false} RemBelow(t: nat, i: nat, n: nat)
    requires 0 < t && i < n && Rem(t, n) == 0
    ensures i - Rem(t, i) + t <= n
  {
    if i >= t {
      RemBelow(t, i - t, n - t);
    }
  }

  /** Whether bit i lies in the lower half of its block of 2s bits. */
  predicate LowHalf(s: nat, i: nat)
    requires s > 0
  {
    Rem(2 * s, i) < s
  }

  /** Where bit i comes from once the blocks of s bits have been put in reverse order. */
  function BlockSource(s: nat, i: nat): int
    requires s > 0
  {
    BITS - s - i + 2 * Rem(s, i)
  }

  /** The mask of a round comes out of the previous one. */
  lemma BlockMask(s: nat, i: nat)
    requires s > 0
    ensures LowHalf(s, i) == (LowHalf(2 * s, i) != (i >= s && LowHalf(2 * s, i - s)))
  {
    RemDouble(2 * s, i);
    if i >= s {
      RemBack(4 * s, s, i);
    }
  }

  /** Bit i is fetched from the other half of its block. */
  lemma BlockSwap(s: nat, i: nat)
    requires s > 0 && i < BITS && Rem(2 * s, BITS) == 0
    ensures 0 <= BlockSource(s, i) < BITS
    ensures LowHalf(s, i) ==> i + s < BITS && BlockSource(s, i) == BlockSource(2 * s, i + s)
    ensures !LowHalf(s, i) ==> i >= s && BlockSource(s, i) == BlockSource(2 * s, i - s)
  {
    RemDouble(s, i);
    RemBelow(2 * s, i, BITS);
    RemBack(2 * s, s, i + s);
    if i >= s {
      RemBack(2 * s, s, i);
    }
  }

  /** The state of the loop after the round with block size s. */
  ghost predicate BlocksReversed(v0: Word, v: Word, mask: Word, s: nat)
    requires s > 0
  {
    && Rem(s, BITS) == 0
    && (forall i | 0 <= i < BITS :: mask[i] == LowHalf(s, i))
    && (forall i | 0 <= i < BITS :: 0 <= BlockSource(s, i) < BITS && v[i] == v0[BlockSource(s, i)])
  }

  /** "mask ^= (mask << s)". */
  function RoundMask(mask: Word, s: nat): Word { Xor(mask, ShiftLeft(mask, s)) }

  /** "((v >> s) & mask) | ((v << s) & ~mask)". */
  function RoundWord(v: Word, mask: Word, s: nat): Word
  {
    Or(And(ShiftRight(v, s), mask), And(ShiftLeft(v, s), Not(mask)))
  }

  lemma HalvingRound(v0: Word, v: Word, mask: Word, s: nat)
    requires s > 0 && BlocksReversed(v0, v, mask, 2 * s)
    ensures BlocksReversed(v0, RoundWord(v, RoundMask(mask, s), s), RoundMask(mask, s), s)
  {
    RemDouble(s, BITS);
    var m := RoundMask(mask, s);
    var r := RoundWord(v, m, s);
    forall i | 0 <= i < BITS
      ensures m[i] == LowHalf(s, i) && 0 <= BlockSource(s, i) < BITS && r[i] == v0[BlockSource(s, i)]
    {
      BlockMask(s, i);
      BlockSwap(s, i);
      assert m[i] == LowHalf(s, i);
      assert r[i] == if m[i] then v[i + s] else v[i - s];
    }
  }

  lemma OneBlock(v: Word)
    ensures BlocksReversed(v, v, Repeat(true, BITS), BITS)
  {
  }

  lemma SingleBits(v0: Word, v: Word, mask: Word)
    requires BlocksReversed(v0, v, mask, 1)
    ensures v == Reverse(v0)
  {
    forall i | 0 <= i < BITS ensures v[i] == Reverse(v0)[i] {
      assert BlockSource(1, i) == 63 - i;
    }
  }

  /** dict.c rev(): the parallel bit reversal, one halving of the block size per round.
      It moves every bit i to bit 63 - i. */
  method Rev(v0: Word) returns (v: Word)
    ensures v == Reverse(v0)
    ensures forall i | 0 <= i < BITS :: v[BITS - 1 - i] == v0[i]
  {
    var s := BITS;
    var mask: Word := Repeat(true, BITS);
    v := v0;
    OneBlock(v0);
    while s > 1
      invariant s in {64, 32, 16, 8, 4, 2, 1}
      invariant BlocksReversed(v0, v, mask, s)
    {
      s := s / 2;
      HalvingRound(v0, v, mask, s);
      mask := RoundMask(mask, s);
      v := RoundWord(v, mask, s);
    }
    SingleBits(v0, v, mask);
  }

  lemma ReverseInvolution(b: seq<bool>)
    ensures Reverse(Reverse(b)) == b
  {
    assert forall i | 0 <= i < |b| :: Reverse(Reverse(b))[i] == b[i];
  }

  lemma ReverseConcat(a: seq<bool>, b: seq<bool>)
    ensures Reverse(a + b) == Reverse(b) + Reverse(a)
  {
  }

  lemma ReverseInjective(a: seq<bool>, b: seq<bool>)
    requires Reverse(a) == Reverse(b)
    ensures a == b
  {
    ReverseInvolution(a);
    ReverseInvolution(b);
  }
}
