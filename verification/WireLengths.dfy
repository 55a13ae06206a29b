/** The encoding of clientBuf as its format intends it: a reader that goes by the counts and the
    lengths, and looks at no other byte of an argument, gets back any argument vector at all. */
module WireLengths {
  import opened Bytes
  import opened SdsNumbers
  import opened Wire

  /** What follows the leading digits. */
  function SkipDigits(s: ByteString): (r: ByteString)
    ensures |r| <= |s|
  {
    if s != [] && '0' <= s[0] <= '9' then SkipDigits(s[1..]) else s
  }

  /** A line of a mark and a number: the number, and what follows the line. */
  function ReadCount(mark: Byte, s: ByteString): (r: Option<(nat, ByteString)>)
    ensures r.Some? ==> |r.value.1| < |s|
  {
    if s == [] || s[0] != mark then None
    else
      var rest := SkipDigits(s[1..]);
      if rest == s[1..] || |rest| < 2 || rest[0] != '\r' || rest[1] != '\n' then None
      else Some((ReadDigits(s[1..], 0), rest[2..]))
  }

  /** One argument: "$", its length, a line end, that many bytes, a line end. */
  function ReadArgument(s: ByteString): (r: Option<(ByteString, ByteString)>)
    ensures r.Some? ==> |r.value.1| < |s|
  {
    var head := ReadCount('$', s);
    if head.None? then None
    else
      var (n, rest) := head.value;
      if |rest| < n + 2 || rest[n] != '\r' || rest[n + 1] != '\n' then None
      else Some((rest[..n], rest[n + 2..]))
  }

  function ReadArguments(n: nat, s: ByteString): Option<(seq<ByteString>, ByteString)>
  {
    if n == 0 then Some(([], s))
    else
      var first := ReadArgument(s);
      if first.None? then None
      else
        var others := ReadArguments(n - 1, first.value.1);
        if others.None? then None else Some(([first.value.0] + others.value.0, others.value.1))
  }

  /** "*", the number of arguments, a line end, the arguments, and nothing else. */
  function ReadCommand(s: ByteString): Option<seq<ByteString>>
  {
    var head := ReadCount('*', s);
    if head.None? then None
    else
      var all := ReadArguments(head.value.0, head.value.1);
      if all.Some? && all.value.1 == [] then Some(all.value.0) else None
  }

  // ------------------------------------------------------------------- reading

  lemma {:induction false} SkipsDigits(d: ByteString, post: ByteString)
    requires (forall i | 0 <= i < |d| :: IsDigit(d[i])) && (post == [] || !IsDigit(post[0]))
    ensures SkipDigits(d + post) == post
  {
    if d == [] {
      assert d + post == post;
    } else {
      assert (d + post)[1..] == d[1..] + post && (d + post)[0] == d[0];
      SkipsDigits(d[1..], post);
    }
  }

  lemma ReadsCount(mark: Byte, n: nat, post: ByteString)
    ensures ReadCount(mark, [mark] + Decimal(n) + CRLF + post) == Some((n, post))
  {
    var s, rest := [mark] + Decimal(n) + CRLF + post, CRLF + post;
    assert s[1..] == Decimal(n) + rest;
    assert rest[0] == '\r' && rest[1] == '\n' && rest[2..] == post;
    SkipsDigits(Decimal(n), rest);
    ReadDecimalNat(n, rest);
    assert |s[1..]| > |rest|;
  }

  /** The length sent is that of the argument, whatever bytes it holds. */
  lemma ReadsArgument(a: ByteString, post: ByteString)
    ensures ReadArgument(BulkOne(a) + post) == Some((a, post))
  {
    var rest := a + CRLF + post;
    assert BulkOne(a) + post == ['$'] + Decimal(|a|) + CRLF + rest;
    ReadsCount('$', |a|, rest);
    assert rest[|a|] == '\r' && rest[|a| + 1] == '\n' && rest[..|a|] == a && rest[|a| + 2..] == post;
  }

  lemma {:induction false} ReadsArguments(args: seq<ByteString>)
    ensures ReadArguments(|args|, Bulks(args)) == Some((args, []))
    decreases |args|
  {
    if args != [] {
      assert Bulks(args) == BulkOne(args[0]) + Bulks(args[1..]);
      ReadsArgument(args[0], Bulks(args[1..]));
      ReadsArguments(args[1..]);
      assert [args[0]] + args[1..] == args;
    }
  }

  /** So by its lengths the encoding is binary safe, as intended. */
  lemma LengthsRoundTrip(args: seq<ByteString>)
    ensures ReadCommand(Encode(args)) == Some(args)
  {
    assert Encode(args) == ['*'] + Decimal(|args|) + CRLF + Bulks(args);
    ReadsCount('*', |args|, Bulks(args));
    ReadsArguments(args);
  }
}
