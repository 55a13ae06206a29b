/** Integers as text: sdsll2str and sdsull2str, which write the digits backwards into a small
    buffer and reverse them in place, and atol, which reads them back. */
module SdsNumbers {
  import opened Bytes
  import opened SdsArgs

  const LLSTR_SIZE: nat := 21
  const LLONG_MAX: int := 0x7fff_ffff_ffff_ffff
  const ULLONG_MAX: int := 0xffff_ffff_ffff_ffff

  predicate IsDigit(c: Byte) { '0' <= c <= '9' }

  function Digit(n: nat): (c: Byte)
    requires n < 10
    ensures IsDigit(c) && DigitValue(c) == n
  {
    ('0' as int + n) as char
  }

  function DigitValue(c: Byte): nat
    requires IsDigit(c)
  {
    c as int - '0' as int
  }

  /** Canonical decimal: no leading zeros, a sign only when negative. */
  function DecimalNat(n: nat): (r: ByteString)
    ensures r != [] && forall i | 0 <= i < |r| :: IsDigit(r[i])
  {
    if n < 10 then [Digit(n)] else DecimalNat(n / 10) + [Digit(n % 10)]
  }

  function Decimal(v: int): ByteString
  {
    if v < 0 then ['-'] + DecimalNat(-v) else DecimalNat(v)
  }

  /** The digits in the order the do-while loop produces them. */
  function LowFirst(n: nat): (r: ByteString)
    ensures r != []
  {
    if n < 10 then [Digit(n)] else [Digit(n % 10)] + LowFirst(n / 10)
  }

  lemma BackwardsSnoc(s: ByteString, c: Byte)
    ensures Backwards(s + [c]) == [c] + Backwards(s)
  {
  }

  lemma {:induction false} LowFirstBackwards(n: nat)
    ensures Backwards(LowFirst(n)) == DecimalNat(n)
  {
    if n >= 10 {
      LowFirstBackwards(n / 10);
      assert Backwards(LowFirst(n)) == Backwards(LowFirst(n / 10)) + [Digit(n % 10)];
    }
  }

  // -------------------------------------------------------------- buffer size

  function Pow10(k: nat): nat { if k == 0 then 1 else 10 * Pow10(k - 1) }

  lemma {:induction false} LowFirstLength(n: nat, k: nat)
    requires k > 0 && n < Pow10(k)
    ensures |LowFirst(n)| <= k
  {
    assert Pow10(1) == 10;
    if k > 1 && n >= 10 {
      LowFirstLength(n / 10, k - 1);
    }
  }

  lemma Pow10Limits()
    ensures Pow10(19) > LLONG_MAX && Pow10(20) > ULLONG_MAX
  {
    assert Pow10(4) == 1_0000;
    assert Pow10(8) == 1_0000 * Pow10(4);
    assert Pow10(12) == 1_0000 * Pow10(8);
    assert Pow10(16) == 1_0000 * Pow10(12);
    assert Pow10(20) == 1_0000 * Pow10(16);
    assert Pow10(20) == 10 * Pow10(19);
  }

  // -------------------------------------------------------------- the writers

  /** The digits still to be written once v is what is left. */
  function Remaining(v: nat): ByteString { if v == 0 then [] else LowFirst(v) }

  lemma LowFirstStep(v: nat)
    ensures LowFirst(v) == [Digit(v % 10)] + Remaining(v / 10)
  {
  }

  /** The do-while: the digits of v, lowest first. */
  method WriteLowFirst(s: array<Byte>, v0: nat) returns (p: nat)
    requires |LowFirst(v0)| <= s.Length
    modifies s
    ensures p == |LowFirst(v0)| && s[..p] == LowFirst(v0)
    ensures forall k | p <= k < s.Length :: s[k] == old(s[k])
  {
    ghost var all := LowFirst(v0);
    var v := v0;
    p := 0;
    while true
      invariant Written(s, all, p) && p < |all| && all[p..] == LowFirst(v)
      invariant forall k | p <= k < s.Length :: s[k] == old(s[k])
      decreases v
    {
      WriteDigit(s, p, v, all);
      p := p + 1;
      v := v / 10;
      if v == 0 {
        return;
      }
    }
  }

  ghost predicate Written(s: array<Byte>, all: ByteString, p: nat)
    reads s
  {
    p <= |all| <= s.Length && s[..p] == all[..p]
  }

  /** "*p++ = '0'+(v%10)", with the digits of v still to be written. */
  method WriteDigit(s: array<Byte>, p: nat, v: nat, ghost all: ByteString)
    requires Written(s, all, p) && p < |all| && all[p..] == LowFirst(v)
    modifies s
    ensures Written(s, all, p + 1) && all[p + 1..] == Remaining(v / 10)
    ensures forall k | p < k < s.Length :: s[k] == old(s[k])
  {
    LowFirstStep(v);
    TailStep(all, p, Digit(v % 10), Remaining(v / 10));
    s[p] := Digit(v % 10);
    assert s[..p + 1] == s[..p] + [s[p]];
    assert all[..p + 1] == all[..p] + [all[p]];
  }

  lemma TailStep(all: ByteString, p: nat, d: Byte, rest: ByteString)
    requires p < |all| && all[p..] == [d] + rest
    ensures all[p] == d && all[p + 1..] == rest
  {
    assert all[p..][1..] == all[p + 1..];
  }

  /** "Reverse the string": swap from both ends. */
  method ReverseRange(s: array<Byte>, n: nat)
    requires 0 < n <= s.Length
    modifies s
    ensures s[..n] == Backwards(old(s[..n]))
    ensures forall k | n <= k < s.Length :: s[k] == old(s[k])
  {
    var i, j := 0, n - 1;
    while i < j
      invariant 0 <= i <= j + 1 && i + j == n - 1
      invariant forall k | 0 <= k < i :: s[k] == old(s[n - 1 - k]) && s[n - 1 - k] == old(s[k])
      invariant forall k | i <= k <= j :: s[k] == old(s[k])
      invariant forall k | n <= k < s.Length :: s[k] == old(s[k])
    {
      var aux := s[i];
      s[i] := s[j];
      s[j] := aux;
      i := i + 1;
      j := j - 1;
    }
    ghost var was := old(s[..n]);
    forall k | 0 <= k < n ensures s[..n][k] == Backwards(was)[k] {
      assert was[n - 1 - k] == old(s[n - 1 - k]);
    }
  }

  /** sdsll2str: canonical decimal, NUL-terminated, in at most 21 bytes, for every value whose
      negation is representable. */
  method Ll2Str(s: array<Byte>, value: int) returns (l: nat)
    requires -LLONG_MAX <= value <= LLONG_MAX && s.Length >= LLSTR_SIZE
    modifies s
    ensures l < LLSTR_SIZE && s[..l] == Decimal(value) && s[l] == '\0'
    ensures forall k | l < k < s.Length :: s[k] == old(s[k])
  {
    var v: nat := if value < 0 then -value else value;
    Pow10Limits();
    LowFirstLength(v, 19);
    LowFirstBackwards(v);
    var p := WriteLowFirst(s, v);
    ghost var digits := s[..p];
    if value < 0 {
      s[p] := '-';
      p := p + 1;
      assert s[..p] == digits + ['-'];
      BackwardsSnoc(digits, '-');
    }
    l := p;
    s[p] := '\0';
    ghost var text := s[..l];
    assert text == if value < 0 then digits + ['-'] else digits;
    ReverseRange(s, l);
  }

  /** sdsull2str. */
  method Ull2Str(s: array<Byte>, v: nat) returns (l: nat)
    requires v <= ULLONG_MAX && s.Length >= LLSTR_SIZE
    modifies s
    ensures l < LLSTR_SIZE && s[..l] == Decimal(v) && s[l] == '\0'
    ensures forall k | l < k < s.Length :: s[k] == old(s[k])
  {
    Pow10Limits();
    LowFirstLength(v, 20);
    LowFirstBackwards(v);
    l := WriteLowFirst(s, v);
    s[l] := '\0';
    ghost var text := s[..l];
    assert text == LowFirst(v);
    ReverseRange(s, l);
  }

  // -------------------------------------------------------------- reading back

  function ReadDigits(s: ByteString, acc: nat): nat
    decreases |s|
  {
    if s == [] || !IsDigit(s[0]) then acc else ReadDigits(s[1..], 10 * acc + DigitValue(s[0]))
  }

  /** atol: blanks, an optional sign, then digits up to the first other byte. */
  function Atol(s: ByteString): int
  {
    var t := SkipBlanks(s);
    if t != [] && t[0] == '-' then var n: int := ReadDigits(t[1..], 0); -n
    else if t != [] && t[0] == '+' then ReadDigits(t[1..], 0)
    else ReadDigits(t, 0)
  }

  lemma {:induction false} ReadDigitsThrough(a: ByteString, b: ByteString, acc: nat)
    requires forall i | 0 <= i < |a| :: IsDigit(a[i])
    ensures ReadDigits(a + b, acc) == ReadDigits(b, ReadDigits(a, acc))
    decreases |a|
  {
    if a == [] {
      assert a + b == b;
    } else {
      assert (a + b)[1..] == a[1..] + b;
      ReadDigitsThrough(a[1..], b, 10 * acc + DigitValue(a[0]));
    }
  }

  lemma {:induction false} ReadDecimalNat(n: nat, post: ByteString)
    requires post == [] || !IsDigit(post[0])
    ensures ReadDigits(DecimalNat(n) + post, 0) == n
  {
    ReadDigitsThrough(DecimalNat(n), post, 0);
    if n >= 10 {
      var d := [Digit(n % 10)];
      ReadDigitsThrough(DecimalNat(n / 10), d, 0);
      ReadDecimalNat(n / 10, []);
      assert DecimalNat(n / 10) + [] == DecimalNat(n / 10);
      assert ReadDigits(d, n / 10) == ReadDigits(d[1..], 10 * (n / 10) + n % 10);
    } else {
      assert DecimalNat(n)[1..] == [];
    }
  }

  lemma AtolUnsigned(n: nat, post: ByteString)
    requires post == [] || !IsDigit(post[0])
    ensures Atol(DecimalNat(n) + post) == n
  {
    var s := DecimalNat(n) + post;
    assert IsDigit(s[0]) by { assert s[0] == DecimalNat(n)[0]; }
    assert SkipBlanks(s) == s;
    ReadDecimalNat(n, post);
  }

  /** The digit writers and atol are inverse: text that starts with the decimal of v, up to
      something that is not a digit, reads as v. */
  lemma AtolDecimal(v: int, post: ByteString)
    requires post == [] || !IsDigit(post[0])
    ensures Atol(Decimal(v) + post) == v
  {
    if v < 0 {
      var digits := DecimalNat(-v) + post;
      assert Decimal(v) + post == ['-'] + digits;
      assert SkipBlanks(['-'] + digits) == ['-'] + digits;
      ReadDecimalNat(-v, post);
    } else {
      AtolUnsigned(v, post);
    }
  }

  // ------------------------------------------------------------ what atol reads

  /** The number a sequence of digits stands for, from the last digit on. */
  function NumberOf(d: ByteString): nat
    requires forall i | 0 <= i < |d| :: '0' <= d[i] <= '9'
  {
    if d == [] then 0 else 10 * NumberOf(d[..|d| - 1]) + (d[|d| - 1] as int - '0' as int)
  }

  lemma {:induction false} ReadsNumber(d: ByteString, post: ByteString)
    requires (forall i | 0 <= i < |d| :: '0' <= d[i] <= '9') && (post == [] || post[0] < '0' || post[0] > '9')
    ensures ReadDigits(d + post, 0) == NumberOf(d)
    decreases |d|
  {
    if d == [] {
      assert d + post == post;
    } else {
      var init, last := d[..|d| - 1], [d[|d| - 1]];
      assert d + post == init + (last + post) && init + last == d && init + [] == init;
      ReadsNumber(init, []);
      ReadDigitsThrough(init, [], 0);
      ReadDigitsThrough(init, last + post, 0);
      assert (last + post)[1..] == post;
    }
  }

  /** The six blanks of the C locale. */
  predicate Blank(c: Byte)
  {
    c == ' ' || c == '\t' || c == '\n' || c == '\U{0B}' || c == '\U{0C}' || c == '\r'
  }

  lemma {:induction false} SkipsBlanks(w: ByteString, t: ByteString)
    requires forall i | 0 <= i < |w| :: Blank(w[i])
    ensures SkipBlanks(w + t) == SkipBlanks(t)
  {
    if w == [] {
      assert w + t == t;
    } else {
      assert (w + t)[1..] == w[1..] + t && (w + t)[0] == w[0];
      SkipsBlanks(w[1..], t);
    }
  }

  /** Nothing more of a number follows. */
  predicate Ended(sign: ByteString, d: ByteString, post: ByteString)
  {
    || post == []
    || ((post[0] < '0' || post[0] > '9') &&
        (sign == [] && d == [] ==> !Blank(post[0]) && post[0] != '+' && post[0] != '-'))
  }

  lemma AtolBlanks(w: ByteString, t: ByteString)
    requires forall i | 0 <= i < |w| :: Blank(w[i])
    ensures Atol(w + t) == Atol(t)
  {
    SkipsBlanks(w, t);
  }

  lemma AtolSigned(sign: Byte, number: ByteString)
    requires sign == '+' || sign == '-'
    ensures Atol([sign] + number) == if sign == '-' then -(ReadDigits(number, 0) as int) else ReadDigits(number, 0)
  {
    assert ([sign] + number)[1..] == number;
    assert SkipBlanks([sign] + number) == [sign] + number;
  }

  lemma AtolBare(number: ByteString)
    requires number == [] || (!Blank(number[0]) && number[0] != '+' && number[0] != '-')
    ensures Atol(number) == ReadDigits(number, 0)
  {
    assert SkipBlanks(number) == number;
  }

  /** What atol reads of any text: blanks, a sign or none, digits or none, and then something else.
      Leading blanks, zeros and a '+' change nothing, and without digits it is 0. */
  lemma AtolReads(w: ByteString, sign: ByteString, d: ByteString, post: ByteString)
    requires forall i | 0 <= i < |w| :: Blank(w[i])
    requires |sign| <= 1 && (sign != [] ==> sign[0] == '+' || sign[0] == '-') && Ended(sign, d, post)
    requires forall i | 0 <= i < |d| :: '0' <= d[i] <= '9'
    ensures Atol(w + (sign + (d + post))) == if sign == ['-'] then -(NumberOf(d) as int) else NumberOf(d)
  {
    var number := d + post;
    AtolBlanks(w, sign + number);
    ReadsNumber(d, post);
    if sign == [] {
      assert sign + number == number;
      assert number != [] ==> number[0] == if d != [] then d[0] else post[0];
      AtolBare(number);
    } else {
      AtolSigned(sign[0], number);
    }
  }

  lemma {:induction false} LeadingZero(d: ByteString)
    requires forall i | 0 <= i < |d| :: '0' <= d[i] <= '9'
    ensures NumberOf("0" + d) == NumberOf(d)
    decreases |d|
  {
    if d == [] {
      assert "0" + d == "0" && "0"[..0] == [];
    } else {
      assert ("0" + d)[..|"0" + d| - 1] == "0" + d[..|d| - 1];
      LeadingZero(d[..|d| - 1]);
    }
  }

  lemma {:induction false} NoLeadingZero(n: nat)
    ensures n > 0 ==> DecimalNat(n)[0] != '0'
  {
    if n >= 10 {
      NoLeadingZero(n / 10);
    }
  }

  /** The decimal of n is the one sequence of digits that stands for n and, but for 0, does not
      begin with a zero. */
  lemma DecimalMeans(n: nat)
    ensures (forall i | 0 <= i < |Decimal(n)| :: '0' <= Decimal(n)[i] <= '9') && NumberOf(Decimal(n)) == n
    ensures Decimal(0) == "0" && (n > 0 ==> Decimal(n)[0] != '0' && Decimal(-(n as int)) == "-" + Decimal(n))
  {
    ReadDecimalNat(n, []);
    ReadsNumber(Decimal(n), []);
    NoLeadingZero(n);
  }
}
