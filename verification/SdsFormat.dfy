/** sdscatfmt: a small format interpreter that writes straight into a growing sds buffer. */
module SdsFormat {
  import opened Bytes
  import opened SdsNumbers
  import opened SdsBuffer

  datatype Arg = Text(s: ByteString) | Num(n: int)

  const INT_MAX: int := 0x7fff_ffff
  const UINT_MAX: int := 0xffff_ffff

  /** What a conversion appends for its argument. */
  function Render(a: Arg): ByteString { if a.Text? then a.s else Decimal(a.n) }

  predicate TakesArg(c: Byte) { c == 's' || c == 'S' || c == 'i' || c == 'I' || c == 'u' || c == 'U' }

  /** The argument has the type the conversion reads, within its range. */
  predicate Fits(c: Byte, a: Arg)
  {
    match c
    case 's' => a.Text? && '\0' !in a.s
    case 'S' => a.Text?
    case 'i' => a.Num? && -INT_MAX - 1 <= a.n <= INT_MAX
    case 'I' => a.Num? && -LLONG_MAX <= a.n <= LLONG_MAX
    case 'u' => a.Num? && 0 <= a.n <= UINT_MAX
    case 'U' => a.Num? && 0 <= a.n <= ULLONG_MAX
    case _ => false
  }

  /** The format is a C string that does not end in a lone '%', and has its arguments. */
  predicate WellFormed(fmt: ByteString, args: seq<Arg>)
    decreases |fmt|
  {
    if fmt == [] then true
    else if fmt[0] == '\0' then false
    else if fmt[0] != '%' then WellFormed(fmt[1..], args)
    else if |fmt| == 1 || fmt[1] == '\0' then false
    else if TakesArg(fmt[1]) then args != [] && Fits(fmt[1], args[0]) && WellFormed(fmt[2..], args[1..])
    else WellFormed(fmt[2..], args)
  }

  /** The text a format stands for: conversions replaced by their arguments, "%%" and any
      unknown "%c" by its second character, all else verbatim. */
  function Expansion(fmt: ByteString, args: seq<Arg>): ByteString
    requires WellFormed(fmt, args)
    decreases |fmt|
  {
    if fmt == [] then []
    else if fmt[0] != '%' then [fmt[0]] + Expansion(fmt[1..], args)
    else if TakesArg(fmt[1]) then Render(args[0]) + Expansion(fmt[2..], args[1..])
    else [fmt[1]] + Expansion(fmt[2..], args)
  }

  // ---------------------------------------------------------- what formats mean

  /** Text without '%' stands for itself, in front of whatever follows. */
  lemma {:induction false} PlainFormat(p: ByteString, q: ByteString, args: seq<Arg>)
    requires forall i | 0 <= i < |p| :: p[i] != '%' && p[i] != '\0'
    ensures WellFormed(p + q, args) <==> WellFormed(q, args)
    ensures WellFormed(q, args) ==> Expansion(p + q, args) == p + Expansion(q, args)
    decreases |p|
  {
    if p == [] {
      assert p + q == q;
      assert WellFormed(q, args) ==> [] + Expansion(q, args) == Expansion(q, args);
    } else {
      assert (p + q)[1..] == p[1..] + q && (p + q)[0] == p[0];
      PlainFormat(p[1..], q, args);
      assert WellFormed(q, args) ==> [p[0]] + (p[1..] + Expansion(q, args)) == p + Expansion(q, args);
    }
  }

  /** "%s" and "%S" stand for a text, "%i", "%I", "%u" and "%U" for the decimal of a number. */
  lemma Conversion(c: Byte, a: Arg, q: ByteString, args: seq<Arg>)
    requires c == 's' || c == 'S' || c == 'i' || c == 'I' || c == 'u' || c == 'U'
    requires Fits(c, a) && WellFormed(q, args)
    ensures WellFormed(['%', c] + q, [a] + args)
    ensures Expansion(['%', c] + q, [a] + args) == (if a.Text? then a.s else Decimal(a.n)) + Expansion(q, args)
    ensures a.Text? <==> c == 's' || c == 'S'
  {
    var f := ['%', c] + q;
    assert f[0] == '%' && f[1] == c && f[2..] == q && ([a] + args)[1..] == args;
  }

  /** "%%" stands for one percent sign, and '%' before any other byte for that byte. */
  lemma Escaped(c: Byte, q: ByteString, args: seq<Arg>)
    requires c != 's' && c != 'S' && c != 'i' && c != 'I' && c != 'u' && c != 'U' && c != '\0'
    requires WellFormed(q, args)
    ensures WellFormed(['%', c] + q, args) && Expansion(['%', c] + q, args) == [c] + Expansion(q, args)
  {
    var f := ['%', c] + q;
    assert f[0] == '%' && f[1] == c && f[2..] == q;
  }

  // ------------------------------------------------------------------ appending

  predicate RoomFor(len: nat, more: nat) { 2 * (len + more + 1) < SIZE_LIMIT - MAX_PREALLOC }

  /** The write index stands at the end of the string, whose length is within the allocation. */
  ghost predicate Writing(s: Sds, i: int)
    reads s
  {
    s.Shaped() && i == s.Len()
  }

  /** "if (sdsavail(s) < l) s = sdsMakeRoomFor(s,l)", memcpy to the write index, sdsinclen. */
  method AppendRaw(s: Sds, i0: nat, t: ByteString) returns (i: nat)
    requires Writing(s, i0) && RoomFor(i0, |t|)
    modifies s, s.buf
    ensures Writing(s, i) && (s.buf == old(s.buf) || fresh(s.buf))
    ensures s.buf[..i] == old(s.buf[..i0]) + t
  {
    ghost var was := s.buf[..i0];
    if s.Avail() < |t| {
      s.MakeRoomFor(|t|);
    }
    assert s.buf[..i0] == s.buf[..i0 + 1][..i0];
    s.Store(i0, t);
    s.IncLen(|t|);
    i := i0 + |t|;
    assert s.buf[..i0] == was;
  }

  /** "s[i++] = c" and sdsinclen, with no check for room: there has to be some. */
  method WriteOne(s: Sds, i0: nat, c: Byte) returns (i: nat)
    requires Writing(s, i0) && s.Avail() >= 1
    modifies s, s.buf
    ensures Writing(s, i) && s.buf == old(s.buf)
    ensures s.buf[..i] == old(s.buf[..i0]) + [c]
  {
    ghost var was := s.buf[..i0];
    s.buf[i0] := c;
    s.IncLen(1);
    i := i0 + 1;
    assert s.buf[..i0] == was;
  }

  /** "if (sdsavail(s)==0) s = sdsMakeRoomFor(s,1)". */
  method RoomForOne(s: Sds, ghost i: nat)
    requires Writing(s, i) && RoomFor(i, 0)
    modifies s
    ensures Writing(s, i) && s.Avail() >= 1 && (s.buf == old(s.buf) || fresh(s.buf))
    ensures s.buf[..i] == old(s.buf[..i])
  {
    if s.Avail() == 0 {
      s.MakeRoomFor(1);
      assert s.buf[..i] == s.buf[..i + 1][..i];
    }
  }

  /** One conversion that takes an argument. */
  method AppendArg(s: Sds, i0: nat, c: Byte, a: Arg) returns (i: nat)
    requires Writing(s, i0) && TakesArg(c) && Fits(c, a) && RoomFor(i0, |Render(a)|)
    modifies s, s.buf
    ensures Writing(s, i) && (s.buf == old(s.buf) || fresh(s.buf))
    ensures s.buf[..i] == old(s.buf[..i0]) + Render(a)
  {
    if c == 's' || c == 'S' {
      i := AppendRaw(s, i0, a.s);
    } else {
      var digits := new Byte[LLSTR_SIZE](_ => '\0');
      var l;
      if c == 'i' || c == 'I' {
        l := Ll2Str(digits, a.n);
      } else {
        l := Ull2Str(digits, a.n);
      }
      i := AppendRaw(s, i0, digits[..l]);
    }
  }

  /** One turn of the loop: a plain character, or a '%' and what follows it. */
  method FormatOne(s: Sds, i0: nat, fmt: ByteString, f0: nat, args: seq<Arg>, a0: nat)
    returns (i: nat, f: nat, a: nat, ghost piece: ByteString)
    requires f0 < |fmt| && a0 <= |args| && WellFormed(fmt[f0..], args[a0..])
    requires Writing(s, i0) && RoomFor(i0, |Expansion(fmt[f0..], args[a0..])|)
    modifies s, s.buf
    ensures Writing(s, i) && (s.buf == old(s.buf) || fresh(s.buf))
    ensures s.buf[..i] == old(s.buf[..i0]) + piece
    ensures f0 < f <= |fmt| && a <= |args| && WellFormed(fmt[f..], args[a..])
    ensures Expansion(fmt[f0..], args[a0..]) == piece + Expansion(fmt[f..], args[a..])
  {
    ghost var rest, left := fmt[f0..], args[a0..];
    f, a := f0, a0;
    RoomForOne(s, i0);
    if fmt[f] == '%' {
      var next := fmt[f + 1];
      assert next == rest[1] && fmt[f + 2..] == rest[2..];
      f := f + 1;
      if TakesArg(next) {
        assert args[a + 1..] == left[1..];
        piece := Render(args[a]);
        i := AppendArg(s, i0, next, args[a]);
        a := a + 1;
      } else {
        piece := [next];
        i := WriteOne(s, i0, next);
      }
    } else {
      assert fmt[f + 1..] == rest[1..];
      piece := [fmt[f]];
      i := WriteOne(s, i0, fmt[f]);
    }
    f := f + 1;
  }

  lemma Reassociate(a: ByteString, b: ByteString, c: ByteString)
    ensures a + (b + c) == (a + b) + c
  {
  }

  /** sdscatfmt. */
  method CatFmt(s: Sds, fmt: ByteString, args: seq<Arg>)
    requires s.Valid() && WellFormed(fmt, args) && RoomFor(s.Len(), |Expansion(fmt, args)|)
    modifies s, s.buf
    ensures s.Valid() && (s.buf == old(s.buf) || fresh(s.buf))
    ensures s.Contents() == old(s.Contents()) + Expansion(fmt, args)
  {
    ghost var whole := s.Contents() + Expansion(fmt, args);
    var i := s.Len();
    var f, a := 0, 0;
    assert fmt[0..] == fmt && args[0..] == args;
    while f < |fmt|
      invariant f <= |fmt| && a <= |args|
      invariant Writing(s, i) && (s.buf == old(s.buf) || fresh(s.buf))
      invariant WellFormed(fmt[f..], args[a..])
      invariant s.buf[..i] + Expansion(fmt[f..], args[a..]) == whole
    {
      ghost var was, todo := s.buf[..i], Expansion(fmt[f..], args[a..]);
      assert |was| + |todo| == |whole|;
      ghost var piece;
      i, f, a, piece := FormatOne(s, i, fmt, f, args, a);
      Reassociate(was, piece, Expansion(fmt[f..], args[a..]));
    }
    s.buf[i] := '\0';
    assert s.buf[..i] == whole;
  }
}
