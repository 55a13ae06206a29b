/** clientBuf, which encodes an argument vector for the server, and what the tokenizer makes of
    the encoding at the other end. */
module Wire {
  import opened Bytes
  import opened SdsArgs
  import opened SdsLaws
  import opened SdsNumbers
  import opened SdsBuffer
  import opened SdsFormat

  function Header(n: nat): ByteString { "*" + Decimal(n) }

  function BulkHeader(a: ByteString): ByteString { "$" + Decimal(|a|) }

  function Bulks(args: seq<ByteString>): ByteString
  {
    if args == [] then [] else BulkHeader(args[0]) + CRLF + args[0] + CRLF + Bulks(args[1..])
  }

  /** The bytes sent for an argument vector. */
  function Encode(args: seq<ByteString>): ByteString { Header(|args|) + CRLF + Bulks(args) }

  // ------------------------------------------------------------------ clientBuf

  function BulkOne(a: ByteString): ByteString { BulkHeader(a) + CRLF + a + CRLF }

  lemma {:induction false} BulksSnoc(args: seq<ByteString>, a: ByteString)
    ensures Bulks(args + [a]) == Bulks(args) + BulkOne(a)
  {
    if args == [] {
      assert Bulks([]) == [] && (args + [a])[1..] == [] && args + [a] == [a];
    } else {
      assert (args + [a])[1..] == args[1..] + [a];
      BulksSnoc(args[1..], a);
      assert Bulks(args + [a]) == BulkOne(args[0]) + Bulks(args[1..] + [a]);
      assert Bulks(args) == BulkOne(args[0]) + Bulks(args[1..]);
    }
  }

  lemma {:induction false} BulksPrefix(args: seq<ByteString>, i: nat)
    requires i <= |args|
    ensures |Bulks(args[..i])| <= |Bulks(args)|
    decreases |args| - i
  {
    if i < |args| {
      assert args[..i + 1] == args[..i] + [args[i]];
      BulksSnoc(args[..i], args[i]);
      BulksPrefix(args, i + 1);
    } else {
      assert args[..i] == args;
    }
  }

  lemma HeaderFormat(c: Byte, spec: Byte, n: nat)
    requires c != '\0' && c != '%' && ((spec == 'i' && n <= INT_MAX) || (spec == 'u' && n <= UINT_MAX))
    ensures WellFormed([c, '%', spec, '\r', '\n'], [Num(n)])
    ensures Expansion([c, '%', spec, '\r', '\n'], [Num(n)]) == [c] + Decimal(n) + CRLF
  {
    var f := [c, '%', spec, '\r', '\n'];
    assert f[1..] == ['%', spec, '\r', '\n'] && f[1..][2..] == CRLF && [Num(n)][1..] == [];
    assert CRLF[1..] == ['\n'] && CRLF[1..][1..] == [];
    assert Expansion(['\n'], []) == ['\n'];
    assert Expansion(CRLF, []) == ['\r'] + Expansion(CRLF[1..], []);
    assert Expansion(f[1..], [Num(n)]) == Decimal(n) + CRLF;
  }

  /** Arguments are C strings, lengths are C ints, and the whole encoding fits in memory. */
  ghost predicate Sendable(args: seq<ByteString>)
  {
    && |args| <= INT_MAX && (forall a | a in args :: '\0' !in a && |a| <= INT_MAX)
    && RoomFor(0, |Encode(args)|)
  }

  lemma BulkParts(was: ByteString, head: ByteString, a: ByteString)
    ensures was + head + a + CRLF == was + (head + a + CRLF)
  {
  }

  /** One argument: its length, the bytes, and the line ends. */
  method AppendBulk(cmd: Sds, a: ByteString)
    requires cmd.Valid() && |a| <= INT_MAX && RoomFor(cmd.Len(), |BulkOne(a)|)
    modifies cmd, cmd.buf
    ensures cmd.Valid() && (cmd.buf == old(cmd.buf) || fresh(cmd.buf))
    ensures cmd.Contents() == old(cmd.Contents()) + BulkOne(a)
  {
    ghost var was := cmd.Contents();
    HeaderFormat('$', 'u', |a|);
    CatFmt(cmd, ['$', '%', 'u', '\r', '\n'], [Num(|a|)]);
    ghost var head := BulkHeader(a) + CRLF;
    assert cmd.Contents() == was + head;
    cmd.CatLen(a);
    cmd.CatLen(CRLF);
    BulkParts(was, head, a);
  }

  /** What clientBuf has written after i arguments. */
  function EncodedSoFar(args: seq<ByteString>, i: nat): ByteString
    requires i <= |args|
  {
    Header(|args|) + CRLF + Bulks(args[..i])
  }

  lemma EncodeOneMore(args: seq<ByteString>, i: nat)
    requires i < |args|
    ensures EncodedSoFar(args, i + 1) == EncodedSoFar(args, i) + BulkOne(args[i])
    ensures |EncodedSoFar(args, i)| + |BulkOne(args[i])| <= |Encode(args)|
  {
    assert args[..i + 1] == args[..i] + [args[i]];
    BulksSnoc(args[..i], args[i]);
    BulksPrefix(args, i + 1);
  }

  method NewCommand(argc: nat) returns (cmd: Sds)
    requires argc <= INT_MAX && RoomFor(0, |Header(argc) + CRLF|)
    ensures fresh(cmd) && fresh(cmd.buf) && cmd.Valid() && cmd.Contents() == Header(argc) + CRLF
  {
    cmd := new Sds(Given([]), 0);
    HeaderFormat('*', 'i', argc);
    CatFmt(cmd, ['*', '%', 'i', '\r', '\n'], [Num(argc)]);
  }

  method ClientBuf(argv: seq<ByteString>) returns (cmd: Sds)
    requires Sendable(argv)
    ensures fresh(cmd) && fresh(cmd.buf) && cmd.Valid() && cmd.Contents() == Encode(argv)
  {
    cmd := NewCommand(|argv|);
    assert cmd.Contents() == EncodedSoFar(argv, 0);
    for i := 0 to |argv|
      invariant fresh(cmd) && fresh(cmd.buf) && cmd.Valid()
      invariant cmd.Contents() == EncodedSoFar(argv, i)
    {
      EncodeOneMore(argv, i);
      assert cmd.Len() == |cmd.Contents()|;
      AppendBulk(cmd, argv[i]);
    }
    assert argv[..|argv|] == argv;
  }

  // -------------------------------------------------------------- the tokens

  /** An unquoted token reads back as itself if it is not empty, does not begin with a blank, and
      holds no byte that ends a token or opens a quote. */
  predicate WireSafe(a: ByteString)
  {
    a != [] && !IsSpace(a[0]) && forall i | 0 <= i < |a| :: IsPlain(a[i])
  }

  predicate IsPlain(c: Byte) { !EndsPlain(c) && c != '"' && c != '\'' }

  /** The words that can be typed without quotes. */
  lemma WireSafeMeans(a: ByteString)
    ensures WireSafe(a) <==> Word(a)
  {
  }

  function BulkTokens(args: seq<ByteString>): seq<ByteString>
  {
    if args == [] then [] else [BulkHeader(args[0]), args[0]] + BulkTokens(args[1..])
  }

  /** What the server is meant to see: "*n", then "$len" and the argument for each argument. */
  function WireTokens(args: seq<ByteString>): seq<ByteString> { [Header(|args|)] + BulkTokens(args) }

  lemma {:induction false} ReadPlainToken(t: ByteString, post: ByteString, acc: ByteString)
    requires forall i | 0 <= i < |t| :: IsPlain(t[i])
    ensures Token(Plain, t + CRLF + post, acc) == Some((acc + t, "\n" + post))
    decreases |t|
  {
    var rest := t + CRLF + post;
    if t == [] {
      assert rest[0] == '\r' && rest[1..] == "\n" + post;
      assert acc + t == acc;
    } else {
      assert rest[0] == t[0] && rest[1..] == t[1..] + CRLF + post;
      ReadPlainToken(t[1..], post, acc + [t[0]]);
      assert acc + [t[0]] + t[1..] == acc + t;
    }
  }

  lemma SplitAfterNewline(post: ByteString)
    ensures Split("\n" + post) == Split(post)
  {
    assert ("\n" + post)[1..] == post;
    assert SkipBlanks("\n" + post) == SkipBlanks(post);
  }

  lemma ReadWireToken(t: ByteString, post: ByteString)
    requires WireSafe(t)
    ensures Split(t + CRLF + post) == Prepend(t, Split(post))
  {
    var rest := t + CRLF + post;
    assert rest[0] == t[0] && SkipBlanks(rest) == rest;
    ReadPlainToken(t, post, []);
    assert [] + t == t;
    SplitAfterNewline(post);
  }

  lemma HeadersSafe(n: nat)
    ensures WireSafe("*" + Decimal(n)) && WireSafe("$" + Decimal(n))
  {
    var d := Decimal(n);
    assert forall i | 0 <= i < |d| :: IsDigit(d[i]);
    assert forall i | 0 < i < |"*" + d| :: ("*" + d)[i] == d[i - 1];
    assert forall i | 0 < i < |"$" + d| :: ("$" + d)[i] == d[i - 1];
  }

  lemma ReadBulk(a: ByteString, rest: ByteString)
    requires WireSafe(a)
    ensures Split(BulkOne(a) + rest) == Prepend(BulkHeader(a), Prepend(a, Split(rest)))
  {
    HeadersSafe(|a|);
    assert BulkOne(a) + rest == BulkHeader(a) + CRLF + (a + CRLF + rest);
    ReadWireToken(BulkHeader(a), a + CRLF + rest);
    ReadWireToken(a, rest);
  }

  lemma PrependTwo(s: ByteString, t: ByteString, ts: seq<ByteString>)
    ensures Prepend(s, Prepend(t, Some(ts))) == Some([s, t] + ts)
  {
    assert [s] + ([t] + ts) == [s, t] + ts;
  }

  lemma {:induction false} ReadBulks(args: seq<ByteString>)
    requires forall i | 0 <= i < |args| :: WireSafe(args[i])
    ensures Split(Bulks(args)) == Some(BulkTokens(args))
    decreases |args|
  {
    if args == [] {
      assert SkipBlanks([]) == [];
    } else {
      var a := args[0];
      ReadBulks(args[1..]);
      ReadBulk(a, Bulks(args[1..]));
      assert Bulks(args) == BulkOne(a) + Bulks(args[1..]);
      PrependTwo(BulkHeader(a), a, BulkTokens(args[1..]));
    }
  }

  /** Wire encoding: wire-safe arguments arrive as the expected tokens. */
  lemma WireRoundTrip(args: seq<ByteString>)
    requires forall i | 0 <= i < |args| :: WireSafe(args[i])
    ensures Split(Encode(args)) == Some(WireTokens(args))
  {
    HeadersSafe(|args|);
    ReadWireToken(Header(|args|), Bulks(args));
    ReadBulks(args);
  }

  lemma {:induction false} BulkTokenAt(args: seq<ByteString>, i: nat)
    requires i < |args|
    ensures |BulkTokens(args)| == 2 * |args|
    ensures BulkTokens(args)[2 * i + 1] == args[i]
    decreases |args|
  {
    if |args| > 1 {
      BulkTokenAt(args[1..], if i > 0 then i - 1 else 0);
    } else {
      assert BulkTokens(args[1..]) == [];
    }
    if i > 0 {
      assert BulkTokens(args)[2 * i + 1] == BulkTokens(args[1..])[2 * (i - 1) + 1];
    }
  }

  /** Token 2 + 2i is argument i: the positions 2, 4 and 6 that commandServer reads. */
  lemma WireTokenAt(args: seq<ByteString>, i: nat)
    requires i < |args|
    ensures |WireTokens(args)| == 2 * |args| + 1 && WireTokens(args)[2 + 2 * i] == args[i]
  {
    BulkTokenAt(args, i);
  }
}
