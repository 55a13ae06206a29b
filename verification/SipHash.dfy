/** Working through a sequence in blocks of eight, for any kind of element and state. */
module EightBlocks {
  /** Absorb the whole blocks of p, in order. */
  function Fold<S, T>(absorb: (S, seq<T>) -> S, s: S, p: seq<T>): S
    decreases |p|
  {
    if |p| < 8 then s else Fold(absorb, absorb(s, p[..8]), p[8..])
  }

  function Mapped<T>(g: T -> T, p: seq<T>): (r: seq<T>)
    ensures |r| == |p| && forall i | 0 <= i < |p| :: r[i] == g(p[i])
  {
    seq(|p|, i requires 0 <= i < |p| => g(p[i]))
  }

  /** Where the whole blocks end: "inlen - (inlen % 8)". */
  function WholeBlocks(n: nat): (e: nat)
    ensures e <= n < e + 8 && e == 8 * (n / 8)
  {
    n - n % 8
  }

  lemma {:induction false} FoldThenRest<S, T>(absorb: (S, seq<T>) -> S, s: S, p: seq<T>, q: seq<T>, blocks: nat)
    requires |p| == 8 * blocks
    ensures Fold(absorb, s, p + q) == Fold(absorb, Fold(absorb, s, p), q)
    decreases blocks
  {
    if blocks == 0 {
      assert p + q == q;
    } else {
      assert (p + q)[..8] == p[..8] && (p + q)[8..] == p[8..] + q;
      FoldThenRest(absorb, absorb(s, p[..8]), p[8..], q, blocks - 1);
    }
  }

  lemma FoldBlock<S, T>(absorb: (S, seq<T>) -> S, s: S, p: seq<T>, i: nat, e: nat)
    requires i + 8 <= e <= |p|
    ensures Fold(absorb, s, p[i..e]) == Fold(absorb, absorb(s, p[i..i + 8]), p[i + 8..e])
  {
    assert p[i..e][..8] == p[i..i + 8] && p[i..e][8..] == p[i + 8..e];
  }

  /** "for (; in != end; in += 8)". */
  method ForBlocks<S, T>(absorb: (S, seq<T>) -> S, s0: S, input: seq<T>) returns (s: S)
    ensures s == Fold(absorb, s0, input[..WholeBlocks(|input|)])
  {
    var end := WholeBlocks(|input|);
    var i := 0;
    ghost var done := 0;
    s := s0;
    while i != end
      invariant i == 8 * done && done <= |input| / 8
      invariant Fold(absorb, s, input[i..end]) == Fold(absorb, s0, input[..end])
      decreases end - i
    {
      FoldBlock(absorb, s, input, i, end);
      s := absorb(s, input[i..i + 8]);
      i := i + 8;
      done := done + 1;
    }
  }

  /** The same loop, transforming every element as it is read. */
  method ForMappedBlocks<S, T>(absorb: (S, seq<T>) -> S, g: T -> T, s0: S, input: seq<T>) returns (s: S)
    ensures s == Fold(absorb, s0, Mapped(g, input)[..WholeBlocks(|input|)])
  {
    var end := WholeBlocks(|input|);
    ghost var mapped := Mapped(g, input);
    var i := 0;
    ghost var done := 0;
    s := s0;
    while i != end
      invariant i == 8 * done && done <= |input| / 8
      invariant Fold(absorb, s, mapped[i..end]) == Fold(absorb, s0, mapped[..end])
      decreases end - i
    {
      FoldBlock(absorb, s, mapped, i, end);
      assert Mapped(g, input[i..i + 8]) == mapped[i..i + 8];
      s := absorb(s, Mapped(g, input[i..i + 8]));
      i := i + 8;
      done := done + 1;
    }
  }

  /** The bytes of a last block: the tail, filling, and one closing element. */
  function Filled<T>(t: seq<T>, zero: T, last: T): (p: seq<T>)
    requires |t| < 8
    ensures |p| == 8
  {
    t + seq(7 - |t|, _ => zero) + [last]
  }

  function At<T>(t: seq<T>, i: nat, zero: T): T { if i < |t| then t[i] else zero }

  lemma FilledAt<T>(t: seq<T>, zero: T, last: T)
    requires |t| < 8
    ensures var p := Filled(t, zero, last);
            && p[0] == At(t, 0, zero) && p[1] == At(t, 1, zero) && p[2] == At(t, 2, zero)
            && p[3] == At(t, 3, zero) && p[4] == At(t, 4, zero) && p[5] == At(t, 5, zero)
            && p[6] == At(t, 6, zero) && p[7] == last
  {
  }

  /** A fall-through switch on n: labels i, i - 1, ..., 1 each add one element, from label n on. */
  function FallThrough<T>(add: (T, T) -> T, b: T, xs: seq<T>, n: nat, i: nat): T
    requires i <= |xs|
  {
    if i == 0 then b else FallThrough(add, if n >= i then add(b, xs[i - 1]) else b, xs, n, i - 1)
  }

  /** Labels that are skipped would have added nothing. */
  lemma {:induction false} FallThroughAll<T(!new)>(add: (T, T) -> T, zero: T, b: T, xs: seq<T>, n: nat, i: nat)
    requires i <= |xs| && forall j | n <= j < |xs| :: xs[j] == zero
    requires forall x :: add(x, zero) == x
    ensures FallThrough(add, b, xs, n, i) == FallThrough(add, b, xs, |xs|, i)
  {
    if i > 0 {
      FallThroughAll(add, zero, if n >= i then add(b, xs[i - 1]) else b, xs, n, i - 1);
    }
  }

  lemma SevenLabels<T>(add: (T, T) -> T, b: T, xs: seq<T>)
    requires |xs| == 7
    ensures FallThrough(add, b, xs, 7, 7) ==
            add(add(add(add(add(add(add(b, xs[6]), xs[5]), xs[4]), xs[3]), xs[2]), xs[1]), xs[0])
  {
    var b6 := add(b, xs[6]);
    var b5 := add(b6, xs[5]);
    var b4 := add(b5, xs[4]);
    var b3 := add(b4, xs[3]);
    var b2 := add(b3, xs[2]);
    assert FallThrough(add, b, xs, 7, 7) == FallThrough(add, b5, xs, 7, 5);
    assert FallThrough(add, b5, xs, 7, 5) == FallThrough(add, b3, xs, 7, 3);
    assert FallThrough(add, b3, xs, 7, 3) == FallThrough(add, b2, xs, 7, 2);
    assert FallThrough(add, b2, xs, 7, 2) == FallThrough(add, add(b2, xs[1]), xs, 7, 1);
  }

  /** A padded sequence folds as its whole blocks, then the filled last block. */
  lemma FoldPadded<S, T>(absorb: (S, seq<T>) -> S, s: S, m: seq<T>, zero: T, last: T)
    ensures var e := WholeBlocks(|m|);
            Fold(absorb, s, m[..e] + Filled(m[e..], zero, last)) ==
            absorb(Fold(absorb, s, m[..e]), Filled(m[e..], zero, last))
  {
    var e := WholeBlocks(|m|);
    var p := Filled(m[e..], zero, last);
    FoldThenRest(absorb, s, m[..e], p, |m| / 8);
    assert p[..8] == p && p[8..] == [];
  }
}

/** SipHash-1-2 as siphash.c computes it, block by block with a fall-through tail, and its
    case-folding twin; both refine the padded-message definition of section 2 of Aumasson and
    Bernstein, "SipHash: a fast short-input PRF" (with one and two rounds). */
module SipHash {
  import opened EightBlocks

  type Octets = seq<bv8>

  datatype Lanes = Lanes(v0: bv64, v1: bv64, v2: bv64, v3: bv64)

  function Rotl(x: bv64, b: nat): bv64
    requires 0 < b < 64
  {
    (x << b) | (x >> (64 - b))
  }

  /** "a += b; b = ROTL(b, r); b ^= a". */
  function Mix(a: bv64, b: bv64, r: nat): (bv64, bv64)
    requires 0 < r < 64
  {
    (a + b, Rotl(b, r) ^ (a + b))
  }

  /** SipRound, in the order of the SIPROUND macro. */
  function SipRound(l: Lanes): Lanes
  {
    var (a0, a1) := Mix(l.v0, l.v1, 13);
    var (a2, a3) := Mix(l.v2, l.v3, 16);
    var (b0, b3) := Mix(Rotl(a0, 32), a3, 21);
    var (b2, b1) := Mix(a2, a1, 17);
    Lanes(b0, b1, Rotl(b2, 32), b3)
  }

  function Rounds(n: nat, l: Lanes): Lanes { if n == 0 then l else Rounds(n - 1, SipRound(l)) }

  /** Eight bytes as a little-endian word. */
  function LoadWord(b: Octets): bv64
    requires |b| == 8
  {
    (b[0] as bv64) | ((b[1] as bv64) << 8) | ((b[2] as bv64) << 16) | ((b[3] as bv64) << 24)
    | ((b[4] as bv64) << 32) | ((b[5] as bv64) << 40) | ((b[6] as bv64) << 48) | ((b[7] as bv64) << 56)
  }

  /** Absorbing a word takes c rounds. */
  function AbsorbWord(c: nat, l: Lanes, m: bv64): Lanes
  {
    var r := Rounds(c, l.(v3 := l.v3 ^ m));
    r.(v0 := r.v0 ^ m)
  }

  function Absorb(c: nat): (Lanes, Octets) -> Lanes
  {
    (l, b) => if |b| == 8 then AbsorbWord(c, l, LoadWord(b)) else l
  }

  function Init(k: Octets): Lanes
    requires |k| == 16
  {
    var k0, k1 := LoadWord(k[..8]), LoadWord(k[8..]);
    Lanes(0x736f6d6570736575 ^ k0, 0x646f72616e646f6d ^ k1, 0x6c7967656e657261 ^ k0, 0x7465646279746573 ^ k1)
  }

  /** The end takes d rounds. */
  function Finish(d: nat, l: Lanes): bv64
  {
    var r := Rounds(d, l.(v2 := l.v2 ^ 0xff));
    r.v0 ^ r.v1 ^ r.v2 ^ r.v3
  }

  // -------------------------------------------------- the reference definition

  function LengthByte(n: bv64): bv8 { (n & 0xff) as bv8 }

  /** The message, then zero bytes and the length modulo 256, filling whole words. */
  function Padded(m: Octets): Octets
    requires |m| < 0x1_0000_0000_0000_0000
  {
    m + seq(7 - |m| % 8, _ => 0) + [LengthByte(|m| as bv64)]
  }

  /** SipHash-c-d. */
  function HashOf(c: nat, d: nat, m: Octets, k: Octets): bv64
    requires |k| == 16 && |m| < 0x1_0000_0000_0000_0000
  {
    Finish(d, Fold(Absorb(c), Init(k), Padded(m)))
  }

  /** SipHash-1-2. */
  function Hash(m: Octets, k: Octets): bv64
    requires |k| == 16 && |m| < 0x1_0000_0000_0000_0000
  {
    HashOf(1, 2, m, k)
  }

  // ------------------------------------------------------------- case folding

  /** siptlw: ASCII upper case to lower case. */
  function ToLower(c: bv8): bv8 { if 65 <= c <= 90 then c + 32 else c }

  function Lowered(m: Octets): Octets { Mapped(ToLower, m) }

  // ------------------------------------------------------------------- tails

  function Or(x: bv64, y: bv64): bv64 { x | y }

  function Wide(t: Octets, i: nat): bv64 { At(t, i, 0) as bv64 }

  /** "((uint64_t)in[i]) << 8*i" for the seven labels; a label beyond the tail is not reached. */
  function TailBytes(t: Octets): (xs: seq<bv64>)
    ensures |xs| == 7
  {
    [Wide(t, 0), Wide(t, 1) << 8, Wide(t, 2) << 16, Wide(t, 3) << 24,
     Wide(t, 4) << 32, Wide(t, 5) << 40, Wide(t, 6) << 48]
  }

  /** "b = inlen << 56" and the switch on the length of the last block. */
  function TailWord(len: bv64, t: Octets): bv64
    requires |t| < 8
  {
    FallThrough(Or, len << 56, TailBytes(t), |t|, 7)
  }

  lemma ZeroBytes(t: Octets)
    ensures forall j | |t| <= j < 7 :: TailBytes(t)[j] == 0
  {
  }

  lemma OrZero()
    ensures forall x: bv64 :: Or(x, 0) == x
  {
  }

  lemma OrOfBytes(len: bv64, b0: bv8, b1: bv8, b2: bv8, b3: bv8, b4: bv8, b5: bv8, b6: bv8)
    ensures (b0 as bv64) | ((b1 as bv64) << 8) | ((b2 as bv64) << 16) | ((b3 as bv64) << 24)
            | ((b4 as bv64) << 32) | ((b5 as bv64) << 40) | ((b6 as bv64) << 48)
            | ((LengthByte(len) as bv64) << 56)
         == (len << 56) | ((b6 as bv64) << 48) | ((b5 as bv64) << 40) | ((b4 as bv64) << 32)
            | ((b3 as bv64) << 24) | ((b2 as bv64) << 16) | ((b1 as bv64) << 8) | (b0 as bv64)
  {
  }

  lemma TailIsOr(len: bv64, t: Octets)
    requires |t| < 8
    ensures var xs := TailBytes(t);
            TailWord(len, t) == Or(Or(Or(Or(Or(Or(Or(len << 56, xs[6]), xs[5]), xs[4]), xs[3]), xs[2]), xs[1]), xs[0])
  {
    ZeroBytes(t);
    OrZero();
    FallThroughAll(Or, 0, len << 56, TailBytes(t), |t|, 7);
    SevenLabels(Or, len << 56, TailBytes(t));
  }

  /** The tail word is the last word of the padded message. */
  lemma TailIsPadding(len: bv64, t: Octets)
    requires |t| < 8
    ensures LoadWord(Filled(t, 0, LengthByte(len))) == TailWord(len, t)
  {
    FilledAt(t, 0, LengthByte(len));
    OrOfBytes(len, At(t, 0, 0), At(t, 1, 0), At(t, 2, 0), At(t, 3, 0), At(t, 4, 0), At(t, 5, 0), At(t, 6, 0));
    TailIsOr(len, t);
  }

  lemma PaddedShape(m: Octets)
    requires |m| < 0x1_0000_0000_0000_0000
    ensures var e := WholeBlocks(|m|);
            Padded(m) == m[..e] + Filled(m[e..], 0, LengthByte(|m| as bv64))
  {
  }

  /** The blocks, then the tail word: that is the hash of the message. */
  lemma BlocksAndTail(m: Octets, k: Octets, l: Lanes)
    requires |k| == 16 && |m| < 0x1_0000_0000_0000_0000
    requires l == Fold(Absorb(1), Init(k), m[..WholeBlocks(|m|)])
    ensures Finish(2, AbsorbWord(1, l, TailWord(|m| as bv64, m[WholeBlocks(|m|)..]))) == Hash(m, k)
  {
    var t := m[WholeBlocks(|m|)..];
    var len := |m| as bv64;
    PaddedShape(m);
    FoldPadded(Absorb(1), Init(k), m, 0, LengthByte(len));
    TailIsPadding(len, t);
  }

  // ---------------------------------------------------------------- the hashes

  method SipHashOf(input: Octets, k: Octets) returns (h: bv64)
    requires |k| == 16 && |input| < 0x1_0000_0000_0000_0000
    ensures h == Hash(input, k)
  {
    var l := ForBlocks(Absorb(1), Init(k), input);
    var left := input[WholeBlocks(|input|)..];
    BlocksAndTail(input, k, l);
    l := AbsorbWord(1, l, TailWord(|input| as bv64, left));
    h := Finish(2, l);
  }

  /** siphash_nocase: every byte is folded as it is read, in blocks and tail. */
  method SipHashNoCase(input: Octets, k: Octets) returns (h: bv64)
    requires |k| == 16 && |input| < 0x1_0000_0000_0000_0000
    ensures h == Hash(Lowered(input), k)
  {
    var l := ForMappedBlocks(Absorb(1), ToLower, Init(k), input);
    var left := Lowered(input[WholeBlocks(|input|)..]);
    assert left == Lowered(input)[WholeBlocks(|input|)..];
    BlocksAndTail(Lowered(input), k, l);
    l := AbsorbWord(1, l, TailWord(|input| as bv64, left));
    h := Finish(2, l);
  }

  /** The same byte, or an ASCII letter in its two cases: 65 to 90 and 97 to 122. */
  predicate SameLetter(x: bv8, y: bv8)
  {
    x == y || (65 <= x <= 90 && y == x + 32) || (65 <= y <= 90 && x == y + 32)
  }

  predicate EqualUpToCase(a: Octets, b: Octets)
  {
    |a| == |b| && forall i | 0 <= i < |a| :: SameLetter(a[i], b[i])
  }

  lemma LowerMeans(x: bv8, y: bv8)
    ensures SameLetter(x, y) <==> ToLower(x) == ToLower(y)
  {
  }

  /** Folding identifies exactly the strings that are equal up to ASCII case. */
  lemma LoweredMeans(a: Octets, b: Octets)
    ensures EqualUpToCase(a, b) <==> Lowered(a) == Lowered(b)
  {
    if |a| == |b| {
      forall i | 0 <= i < |a| ensures SameLetter(a[i], b[i]) <==> Lowered(a)[i] == Lowered(b)[i] {
        LowerMeans(a[i], b[i]);
      }
    } else {
      assert |Lowered(a)| != |Lowered(b)|;
    }
  }

  /** The case-folding hash of SipHashNoCase: strings equal up to ASCII case hash alike, and a
      string without upper case hashes as in the plain hash. */
  lemma NoCaseHash(a: Octets, b: Octets, k: Octets)
    requires |k| == 16 && |a| < 0x1_0000_0000_0000_0000 && EqualUpToCase(a, b)
    ensures Hash(Lowered(a), k) == Hash(Lowered(b), k)
    ensures (forall i | 0 <= i < |a| :: a[i] < 65 || 90 < a[i]) ==> Hash(Lowered(b), k) == Hash(a, k)
  {
    LoweredMeans(a, b);
    if forall i | 0 <= i < |a| :: a[i] < 65 || 90 < a[i] {
      assert Lowered(a) == a;
    }
  }
}
