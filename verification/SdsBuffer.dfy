/** The sds string object of sds.c and sds.h: five header layouts in front of a growing,
    NUL-terminated buffer. The object stands for the pointer a caller holds, so the functions
    that return a moved string here replace the buffer. */
module SdsBuffer {
  import opened Powers
  import opened Bytes

  const TYPE_5: nat := 0
  const TYPE_8: nat := 1
  const TYPE_16: nat := 2
  const TYPE_32: nat := 3
  const TYPE_64: nat := 4
  const MAX_PREALLOC: nat := 1024 * 1024

  /** The largest value a length field of this header type holds. */
  function FieldMax(kind: nat): nat
  {
    if kind == TYPE_5 then 31
    else if kind == TYPE_8 then 0xff
    else if kind == TYPE_16 then 0xffff
    else if kind == TYPE_32 then 0xffff_ffff
    else 0xffff_ffff_ffff_ffff
  }

  /** Storing a number in a length field keeps the low bits only. */
  function Truncate(n: int, kind: nat): (r: nat)
    ensures r <= FieldMax(kind) && (0 <= n <= FieldMax(kind) ==> r == n)
  {
    if 0 <= n <= FieldMax(kind) then n
    else if kind == TYPE_5 then n % 0x20
    else if kind == TYPE_8 then n % 0x100
    else if kind == TYPE_16 then n % 0x1_0000
    else if kind == TYPE_32 then n % 0x1_0000_0000
    else n % 0x1_0000_0000_0000_0000
  }

  function ReqType(size: nat): (kind: nat)
    ensures kind <= TYPE_64
    ensures size <= 0xffff_ffff_ffff_ffff ==> size <= FieldMax(kind)
    ensures kind > 0 ==> size > FieldMax(kind - 1)
  {
    if size < 0x20 then TYPE_5
    else if size < 0x100 then TYPE_8
    else if size < 0x1_0000 then TYPE_16
    else if size < 0x1_0000_0000 then TYPE_32
    else TYPE_64
  }

  /** Lengths that fit in memory with room to double: no size_t addition below can wrap. */
  const SIZE_LIMIT: nat := 0x2000_0000_0000_0000

  // -------------------------------------------------------- trimming, ranges

  /** strchr(cset, c) != NULL; the terminator of cset counts as one of its characters. */
  predicate InSet(cset: ByteString, c: Byte) { c in cset || c == '\0' }

  /** The first position from i on that is not in the set. */
  function SkipSet(s: ByteString, cset: ByteString, i: nat): (r: nat)
    requires i <= |s|
    ensures i <= r <= |s| && (r < |s| ==> !InSet(cset, s[r]))
    ensures forall k | i <= k < r :: InSet(cset, s[k])
    decreases |s| - i
  {
    if i < |s| && InSet(cset, s[i]) then SkipSet(s, cset, i + 1) else i
  }

  /** The least end above lo that keeps everything up to j not in the set. */
  function DropSet(s: ByteString, cset: ByteString, lo: nat, j: nat): (r: nat)
    requires lo <= j <= |s|
    ensures lo <= r <= j && (r > lo ==> !InSet(cset, s[r - 1]))
    ensures forall k | r <= k < j :: InSet(cset, s[k])
    decreases j
  {
    if j > lo && InSet(cset, s[j - 1]) then DropSet(s, cset, lo, j - 1) else j
  }

  function Trimmed(s: ByteString, cset: ByteString): ByteString
  {
    var lo := SkipSet(s, cset, 0);
    s[lo..DropSet(s, cset, lo, |s|)]
  }

  /** A cut that leaves a first and a last character outside the set and drops only characters
      of the set is the trimmed string; there is no other. */
  lemma TrimmedIsTheCut(s: ByteString, cset: ByteString, i: nat, j: nat)
    requires i < j <= |s|
    requires s[i] !in cset && s[i] != '\0' && forall k | 0 <= k < i :: s[k] in cset || s[k] == '\0'
    requires s[j - 1] !in cset && s[j - 1] != '\0' && forall k | j <= k < |s| :: s[k] in cset || s[k] == '\0'
    ensures Trimmed(s, cset) == s[i..j]
  {
    var lo := SkipSet(s, cset, 0);
    var hi := DropSet(s, cset, lo, |s|);
    assert lo == i;
    assert hi == j;
  }

  lemma TrimmedAway(s: ByteString, cset: ByteString)
    requires forall k | 0 <= k < |s| :: s[k] in cset || s[k] == '\0'
    ensures Trimmed(s, cset) == []
  {
    assert SkipSet(s, cset, 0) == |s|;
  }

  /** A possibly negative index, counted from the end and clamped at the start. */
  function FromEnd(len: nat, i: int): nat { if i >= 0 then i else if len + i < 0 then 0 else len + i }

  /** The characters from index first to index last, both included, as far as they exist. */
  function RangeOf(s: ByteString, start: int, end: int): ByteString
  {
    var first, last := FromEnd(|s|, start), FromEnd(|s|, end);
    if first > last || first >= |s| then []
    else if last >= |s| then s[first..]
    else s[first..last + 1]
  }

  // ------------------------------------------------------- casts in sdsIncrLen

  const SSIZE_MAX: int := 0x7fff_ffff_ffff_ffff

  /** "(unsigned int)n". */
  function ToUInt(n: nat): (r: int)
    ensures 0 <= r < 0x1_0000_0000 && (n < 0x1_0000_0000 ==> r == n)
  {
    n % 0x1_0000_0000
  }

  /** The increment as the assertions of sdsIncrLen see it: cuts lose their high bits except for
      type 64, extensions for type 32 only. */
  function SeenIncr(kind: nat, incr: int): int
  {
    if kind == TYPE_64 then incr
    else if incr < 0 then -ToUInt(-incr)
    else if kind == TYPE_32 then ToUInt(incr)
    else incr
  }

  lemma LowBits(a: int, b: int, q: int, kind: nat)
    requires TYPE_8 <= kind <= TYPE_32 && a == b + q * 0x1_0000_0000 && 0 <= b <= FieldMax(kind)
    ensures Truncate(a, kind) == b
  {
    if kind == TYPE_8 {
      DivModIs(a, q * 0x100_0000, b, 0x100);
    } else if kind == TYPE_16 {
      DivModIs(a, q * 0x1_0000, b, 0x1_0000);
    } else {
      DivModIs(a, q, b, 0x1_0000_0000);
    }
  }

  /** The addition in the length field drops the same multiples of 2^32 as the casts. */
  lemma IncrWraps(kind: nat, len: nat, alloc: nat, incr: int)
    requires TYPE_8 <= kind <= TYPE_64 && alloc <= FieldMax(kind) && 0 <= len + SeenIncr(kind, incr) <= alloc
    ensures Truncate(len + incr, kind) == len + SeenIncr(kind, incr)
  {
    var seen := SeenIncr(kind, incr);
    if seen != incr {
      var q := if incr < 0 then -(-incr / 0x1_0000_0000) else incr / 0x1_0000_0000;
      assert incr == seen + q * 0x1_0000_0000;
      LowBits(len + incr, len + seen, q, kind);
    }
  }

  /** The first argument of sdsnewlen: bytes to copy, NULL for zero bytes, or SDS_NOINIT for
      whatever the allocated block holds. */
  datatype Init = Given(t: ByteString) | Null | NoInit

  /** Which bytes a range keeps: both indices count from 0, or from -1 at the last byte; an end past
      the string stops at its last byte, and one before it at its first. */
  lemma RangeMeans(s: ByteString, start: int, end: int)
    ensures 0 <= start <= end < |s| ==> RangeOf(s, start, end) == s[start..end + 1]
    ensures 0 <= start < |s| <= end ==> RangeOf(s, start, end) == s[start..]
    ensures -|s| <= start <= end < 0 ==> RangeOf(s, start, end) == s[|s| + start..|s| + end + 1]
    ensures start < -|s| ==> RangeOf(s, start, end) == RangeOf(s, 0, end)
    ensures end < -|s| ==> RangeOf(s, start, end) == RangeOf(s, start, 0)
    ensures start < 0 <= |s| + start ==> RangeOf(s, start, end) == RangeOf(s, |s| + start, end)
    ensures end < 0 <= |s| + end ==> RangeOf(s, start, end) == RangeOf(s, start, |s| + end)
    ensures 0 <= end < start || start >= |s| ==> RangeOf(s, start, end) == []
  {
  }

  /** Which sizes each header is for. */
  lemma HeaderSizes(size: nat)
    ensures ReqType(size) == TYPE_5 <==> size <= 31
    ensures ReqType(size) == TYPE_8 <==> 32 <= size <= 255
    ensures ReqType(size) == TYPE_16 <==> 256 <= size <= 65535
    ensures ReqType(size) == TYPE_32 <==> 65536 <= size <= 4294967295
    ensures ReqType(size) == TYPE_64 <==> size >= 4294967296
  {
  }

  class Sds {
    /** The flags byte: the type in its 3 low bits and, for type 5, the length above them. */
    var kind: nat
    var len5: nat
    /** `len` and `alloc` of the other four headers. */
    var hlen: nat
    var halloc: nat
    var buf: array<Byte>

    function Len(): nat reads this { if kind == TYPE_5 then len5 else hlen }
    function Alloc(): nat reads this { if kind == TYPE_5 then len5 else halloc }
    function Avail(): int reads this { if kind == TYPE_5 then 0 else halloc - hlen }

    /** The header is consistent and the buffer as large as it says. */
    ghost predicate Shaped()
      reads this
    {
      && kind <= TYPE_64
      && Len() <= Alloc() <= FieldMax(kind) && Alloc() < SIZE_LIMIT
      && Alloc() < buf.Length
      && (kind != TYPE_5 ==> buf.Length == Alloc() + 1)
    }

    ghost predicate Valid()
      reads this, buf
    {
      Shaped() && buf[Len()] == '\0'
    }

    ghost function Contents(): ByteString
      reads this, buf
      requires Shaped()
    {
      buf[..Len()]
    }

    // ------------------------------------------------------- header accessors

    method SetLen(n: nat)
      modifies this`len5, this`hlen
      ensures Len() == Truncate(n, kind)
      ensures if kind == TYPE_5 then hlen == old(hlen) else len5 == old(len5)
    {
      if kind == TYPE_5 {
        len5 := Truncate(n, TYPE_5);
      } else {
        hlen := Truncate(n, kind);
      }
    }

    method IncLen(n: nat)
      modifies this`len5, this`hlen
      ensures Len() == Truncate(old(Len()) + n, kind)
      ensures if kind == TYPE_5 then hlen == old(hlen) else len5 == old(len5)
    {
      if kind == TYPE_5 {
        len5 := Truncate(len5 + n, TYPE_5);
      } else {
        hlen := Truncate(hlen + n, kind);
      }
    }

    method SetAlloc(n: nat)
      modifies this`halloc
      ensures halloc == if kind == TYPE_5 then old(halloc) else Truncate(n, kind)
    {
      if kind != TYPE_5 {
        halloc := Truncate(n, kind);
      }
    }

    // ----------------------------------------------------------- construction

    /** sdsnewlen. */
    constructor (init: Init, initlen: nat)
      requires initlen < SIZE_LIMIT && (init.Given? ==> |init.t| == initlen)
      ensures Valid() && fresh(buf) && Len() == initlen && Avail() == 0
      ensures init.Given? ==> Contents() == init.t
      ensures init.Null? ==> Contents() == seq(initlen, _ => '\0')
      ensures kind == if initlen == 0 then TYPE_8 else ReqType(initlen)
    {
      var t := ReqType(initlen);
      if t == TYPE_5 && initlen == 0 {
        t := TYPE_8;
      }
      kind := t;
      len5 := Truncate(initlen, TYPE_5);
      hlen := Truncate(initlen, t);
      halloc := Truncate(initlen, t);
      var sh := new Byte[initlen + 1];
      if init.Null? {
        forall i | 0 <= i <= initlen {
          sh[i] := '\0';
        }
      } else if init.Given? {
        forall i | 0 <= i < initlen {
          sh[i] := init.t[i];
        }
      }
      sh[initlen] := '\0';
      buf := sh;
      new;
      assert init.Given? ==> buf[..initlen] == init.t;
      assert init.Null? ==> buf[..initlen] == seq(initlen, _ => '\0');
    }

    // ---------------------------------------------------------------- growing

    /** s_realloc or s_malloc-and-memcpy: a block of n + 1 bytes that starts like the old one. */
    method Reallocate(n: nat)
      modifies this`buf
      ensures fresh(buf) && buf.Length == n + 1
      ensures forall i | 0 <= i < old(buf).Length && i <= n :: buf[i] == old(buf[i])
    {
      var was := buf[..];
      buf := new Byte[n + 1](i => if 0 <= i < |was| then was[i] else '\0');
    }

    /** sdsMakeRoomFor: afterwards addlen more bytes fit; content and length are unchanged,
        whatever header type the string ends up with. */
    method MakeRoomFor(addlen: nat)
      requires Shaped() && 2 * (Len() + addlen) < SIZE_LIMIT - MAX_PREALLOC
      modifies this
      ensures Shaped() && Len() == old(Len())
      ensures buf[..Len() + 1] == old(buf[..Len() + 1])
      ensures buf == old(buf) || fresh(buf)
      ensures addlen > 0 ==> kind != TYPE_5 && Avail() >= addlen
      ensures old(Avail()) >= addlen ==> buf == old(buf) && kind == old(kind) && Alloc() == old(Alloc())
      ensures old(Avail()) < addlen ==>
                Alloc() == if Len() + addlen < 0x10_0000 then 2 * (Len() + addlen) else Len() + addlen + 0x10_0000
      ensures old(Avail()) < addlen ==> kind == if Alloc() < 32 then TYPE_8 else ReqType(Alloc())
    {
      if Avail() >= addlen {
        return;
      }
      var len := Len();
      var newlen := len + addlen;
      if newlen < MAX_PREALLOC {
        newlen := newlen * 2;
      } else {
        newlen := newlen + MAX_PREALLOC;
      }
      var t := ReqType(newlen);
      if t == TYPE_5 {
        t := TYPE_8;
      }
      Reallocate(newlen);
      if kind != t {
        kind := t;
        SetLen(len);
      }
      SetAlloc(newlen);
    }

    /** sdsRemoveFreeSpace. A larger header than needed is kept if at least type 16 is needed. */
    method RemoveFreeSpace()
      requires Valid()
      modifies this
      ensures Valid() && fresh(buf) && Contents() == old(Contents())
      ensures Avail() == 0 && buf.Length == Len() + 1
      ensures kind == if ReqType(Len()) > TYPE_8 then old(kind) else ReqType(Len())
    {
      var len := Len();
      var t := ReqType(len);
      Reallocate(len);
      if !(kind == t || t > TYPE_8) {
        kind := t;
        SetLen(len);
      }
      SetAlloc(len);
    }

    /** memcpy or memmove of a given byte string to an offset. */
    method Store(at: nat, t: ByteString)
      requires at + |t| <= buf.Length
      modifies buf
      ensures buf[..] == old(buf[..at]) + t + old(buf[at + |t|..])
    {
      forall i | at <= i < at + |t| {
        buf[i] := t[i - at];
      }
    }

    // -------------------------------------------------- operations on content

    /** sdscatlen. */
    method CatLen(t: ByteString)
      requires Valid() && 2 * (Len() + |t|) < SIZE_LIMIT - MAX_PREALLOC
      modifies this, buf
      ensures Valid() && (buf == old(buf) || fresh(buf))
      ensures Contents() == old(Contents()) + t
    {
      ghost var was := Contents();
      var curlen := Len();
      MakeRoomFor(|t|);
      Store(curlen, t);
      SetLen(curlen + |t|);
      buf[curlen + |t|] := '\0';
      assert buf[..curlen] == was;
    }

    /** sdscpylen. */
    method CpyLen(t: ByteString)
      requires Valid() && 2 * (Len() + |t|) < SIZE_LIMIT - MAX_PREALLOC
      modifies this, buf
      ensures Valid() && (buf == old(buf) || fresh(buf))
      ensures Contents() == t
    {
      if Alloc() < |t| {
        MakeRoomFor(|t| - Len());
      }
      Store(0, t);
      buf[|t|] := '\0';
      SetLen(|t|);
      assert buf[..|t|] == t;
    }

    /** sdsgrowzero. */
    method GrowZero(len: nat)
      requires Valid() && 2 * (Len() + len) < SIZE_LIMIT - MAX_PREALLOC
      modifies this, buf
      ensures Valid() && (buf == old(buf) || fresh(buf))
      ensures Contents() == old(Contents()) + seq(if len > old(Len()) then len - old(Len()) else 0, _ => '\0')
    {
      ghost var was := Contents();
      var curlen := Len();
      if len <= curlen {
        return;
      }
      MakeRoomFor(len - curlen);
      Store(curlen, seq(len - curlen + 1, _ => '\0'));
      SetLen(len);
      assert buf[..curlen] == was;
    }

    /** sdsclear. */
    method Clear()
      requires Valid()
      modifies this, buf
      ensures Valid() && buf == old(buf) && Contents() == [] && (kind != TYPE_5 ==> Alloc() == old(Alloc()))
    {
      SetLen(0);
      buf[0] := '\0';
    }

    /** sdsupdatelen: the content is cut at its first NUL. */
    method UpdateLen()
      requires Valid()
      modifies this`len5, this`hlen
      ensures Valid() && Len() <= old(Len())
      ensures Contents() == old(Contents())[..Len()] && '\0' !in Contents()
      ensures Len() < old(Len()) ==> old(Contents())[Len()] == '\0'
    {
      var n := 0;
      while buf[n] != '\0'
        invariant n <= Len() && forall i | 0 <= i < n :: buf[i] != '\0'
        decreases Len() - n
      {
        n := n + 1;
      }
      SetLen(n);
    }

    // --------------------------------------------------------------- sdsIncrLen

    /** The assertions of sdsIncrLen, with the casts to unsigned int of the smaller types. A
        type 5 string must not be extended by 0, and its allocation is not consulted. */
    predicate IncrAsserted(incr: int)
      reads this
    {
      if kind == TYPE_5 then
        || (incr > 0 && Len() + incr < 32)
        || (incr < 0 && Len() >= ToUInt(-incr))
      else if kind == TYPE_32 then
        || (incr >= 0 && halloc - hlen >= ToUInt(incr))
        || (incr < 0 && hlen >= ToUInt(-incr))
      else if kind == TYPE_64 then
        || (incr >= 0 && halloc - hlen >= incr)
        || (incr < 0 && hlen >= -incr)
      else
        || (incr >= 0 && halloc - hlen >= incr)
        || (incr < 0 && hlen >= ToUInt(-incr))
    }

    /** sdsIncrLen: what passes the assertions changes the length by the increment as they see
        it, with the NUL moved. For type 5 the NUL goes where the whole increment says, which
        has to be inside the buffer. */
    method IncrLen(incr: int)
      requires Valid() && IncrAsserted(incr) && -SSIZE_MAX <= incr <= SSIZE_MAX
      requires kind == TYPE_5 ==> 0 <= Len() + incr < buf.Length
      modifies this`len5, this`hlen, buf
      ensures Valid() && kind == old(kind) && Len() == old(Len()) + SeenIncr(kind, incr)
      ensures buf[..Len()] == old(buf[..Len() + SeenIncr(kind, incr)])
    {
      IncrAssertedMeans(this, incr);
      if kind == TYPE_5 {
        len5 := Truncate(len5 + incr, TYPE_5);
      } else {
        IncrWraps(kind, hlen, Alloc(), incr);
        hlen := Truncate(hlen + incr, kind);
      }
      buf[Len()] := '\0';
    }

    // ------------------------------------------------------- cutting in place

    /** memmove the bytes [at, at + n) to the front and end the string there. */
    method KeepPart(at: nat, n: nat)
      requires Valid() && at + n <= Len()
      modifies this`len5, this`hlen, buf
      ensures Valid() && Contents() == old(Contents())[at..at + n]
    {
      if at != 0 {
        var part := buf[at..at + n];
        Store(0, part);
      }
      buf[n] := '\0';
      SetLen(n);
      assert buf[..n] == old(Contents())[at..at + n];
    }

    /** sdstrim. */
    method Trim(cset: ByteString)
      requires Valid()
      modifies this`len5, this`hlen, buf
      ensures Valid() && Contents() == Trimmed(old(Contents()), cset)
    {
      ghost var s := Contents();
      var sp, end := 0, Len() - 1;
      while sp <= end && InSet(cset, buf[sp])
        invariant 0 <= sp <= end + 1 == Len() && s == Contents()
        invariant SkipSet(s, cset, sp) == SkipSet(s, cset, 0)
      {
        sp := sp + 1;
      }
      assert sp == SkipSet(s, cset, 0);
      var ep := end;
      while ep > sp && InSet(cset, buf[ep])
        invariant (sp <= end ==> sp <= ep <= end) && (sp > end ==> ep == end) && s == Contents()
        invariant sp <= end ==> DropSet(s, cset, sp, ep + 1) == DropSet(s, cset, sp, |s|)
      {
        ep := ep - 1;
      }
      var len: nat := if sp > ep then 0 else ep - sp + 1;
      var at: nat := if sp > ep then 0 else sp;
      assert s[at..at + len] == Trimmed(s, cset);
      KeepPart(at, len);
    }

    /** sdsrange. */
    method Range(start: int, end: int)
      requires Valid()
      modifies this`len5, this`hlen, buf
      ensures Valid() && Contents() == RangeOf(old(Contents()), start, end)
    {
      ghost var s := Contents();
      var len := Len();
      if len == 0 {
        return;
      }
      var first, last := start, end;
      if first < 0 {
        first := len + first;
        if first < 0 { first := 0; }
      }
      if last < 0 {
        last := len + last;
        if last < 0 { last := 0; }
      }
      var newlen := if first > last then 0 else last - first + 1;
      if newlen != 0 {
        if first >= len {
          newlen := 0;
        } else if last >= len {
          last := len - 1;
          newlen := if first > last then 0 else last - first + 1;
        }
      } else {
        first := 0;
      }
      var at := if newlen == 0 then 0 else first;
      assert s[at..at + newlen] == RangeOf(s, start, end);
      KeepPart(at, newlen);
    }
  }

  /** For every increment: the assertions of sdsIncrLen pass exactly when the increment as they
      see it leaves a length within the allocation. For type 5 they only say that the length
      fits the header, and they refuse an increment of 0. */
  lemma IncrAssertedMeans(s: Sds, incr: int)
    requires s.Shaped() && -SSIZE_MAX <= incr <= SSIZE_MAX
    ensures s.kind != TYPE_5 ==> (s.IncrAsserted(incr) <==> 0 <= s.Len() + SeenIncr(s.kind, incr) <= s.Alloc())
    ensures s.kind == TYPE_5 ==> (s.IncrAsserted(incr) <==> incr != 0 && 0 <= s.Len() + SeenIncr(s.kind, incr) < 32)
  {
  }

  /** So they mean what they should where no cast loses anything: for type 64, for increments of
      less than 2^32, and for extensions of all types but 32; and nowhere else. A cut by 2^32,
      for instance, is taken for none. */
  lemma IncrSeenWhole(kind: nat, incr: int)
    requires kind <= TYPE_64
    ensures SeenIncr(kind, incr) == incr <==>
              kind == TYPE_64 || -0x1_0000_0000 < incr < 0x1_0000_0000 || (incr >= 0 && kind != TYPE_32)
    ensures SeenIncr(TYPE_8, -0x1_0000_0000) == 0
  {
  }

  /** Because an end before the string is clamped to 0 instead of meaning "nothing", a range
      that ends before the start still keeps the first character. */
  lemma RangeClampsEnd(s: ByteString, end: int)
    requires s != [] && end < -|s|
    ensures RangeOf(s, 0, end) == s[..1]
  {
  }
}
