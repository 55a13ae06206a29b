/** The encoding of clientBuf carries lengths, but the server tokenizes on blanks and quotes; so
    it is not binary safe. This module shows that wire-safe arguments are not only sufficient
    but necessary: no other C strings come through unchanged. */
module WireExact {
  import opened Bytes
  import opened SdsArgs
  import opened Wire

  /** A C string: its bytes before the terminator. */
  predicate IsCString(a: ByteString) { '\0' !in a }

  /** The token begins with what has been read of it. */
  lemma {:induction false} TokenExtends(mode: Mode, rest: ByteString, acc: ByteString)
    requires Token(mode, rest, acc).Some?
    ensures acc <= Token(mode, rest, acc).value.0
    decreases |rest|
  {
    var c := Peek(rest, 0);
    match mode
    case Plain =>
      if c != '\0' && !EndsPlain(c) {
        if c == '"' { TokenExtends(Quoted, rest[1..], acc); }
        else if c == '\'' { TokenExtends(SingleQuoted, rest[1..], acc); }
        else { TokenExtends(Plain, rest[1..], acc + [c]); }
      }
    case Quoted =>
      if IsHexEscape(rest) { TokenExtends(Quoted, rest[4..], acc + [HexByte(rest[2], rest[3])]); }
      else if c == '\\' && Peek(rest, 1) != '\0' { TokenExtends(Quoted, rest[2..], acc + [Unescape(rest[1])]); }
      else if c != '"' && c != '\0' { TokenExtends(Quoted, rest[1..], acc + [c]); }
    case SingleQuoted =>
      if c == '\\' && Peek(rest, 1) == '\'' { TokenExtends(SingleQuoted, rest[2..], acc + ['\'']); }
      else if c != '\'' && c != '\0' { TokenExtends(SingleQuoted, rest[1..], acc + [c]); }
  }

  ghost predicate ReadsAs(mode: Mode, rest: ByteString, acc: ByteString, a: ByteString)
  {
    Token(mode, rest, acc).Some? && Token(mode, rest, acc).value.0 == a
  }

  /** A token read as `a` so far has read a prefix of it. */
  lemma ReadsPrefix(mode: Mode, rest: ByteString, acc: ByteString, a: ByteString)
    requires ReadsAs(mode, rest, acc, a)
    ensures acc <= a
  {
    TokenExtends(mode, rest, acc);
  }

  /** The text after an argument: its line end, then the next header or nothing. */
  predicate Follows(post: ByteString) { post == [] || post[0] == '$' }

  /** What is known while the inside `body` of a quoted part is read at k, if the token is to be
      p + open + body: no more characters were produced than read, and no '$' was met. */
  ghost predicate Chasing(p: ByteString, open: ByteString, body: ByteString, post: ByteString, k: nat, acc: ByteString)
  {
    && IsCString(body) && open != [] && '$' !in open && Follows(post)
    && k <= |body| + 2 && |acc| <= |p| + k
    && (forall i | 0 <= i < k && i < |body| :: body[i] != '$')
  }

  /** The next character produced is one already read, or one of `open`: never '$'. */
  lemma NextIsOld(p: ByteString, open: ByteString, body: ByteString, post: ByteString, k: nat, acc: ByteString, c: Byte)
    requires Chasing(p, open, body, post, k, acc) && |p| <= |acc| && acc + [c] <= p + open + body
    ensures c != '$'
  {
    var a := p + open + body;
    var j := |acc| - |p|;
    assert a[|acc|] == c;
    assert a[|acc|] == (open + body)[j];
  }

  /** Once inside quotes, the token cannot turn out to be the argument itself: it would have to
      run past the argument's end, where it meets the next header, or the end of the text. */
  lemma {:induction false} QuotedNever(mode: Mode, p: ByteString, open: ByteString, body: ByteString,
                                       post: ByteString, k: nat, acc: ByteString)
    requires mode != Plain && Chasing(p, open, body, post, k, acc) && |p| <= |acc|
    ensures !ReadsAs(mode, (body + CRLF + post)[k..], acc, p + open + body)
    decreases |body| + 2 - k
  {
    var s, a := body + CRLF + post, p + open + body;
    var rest := s[k..];
    if ReadsAs(mode, rest, acc, a) {
      var c := Peek(rest, 0);
      if k == |body| + 2 {
        assert rest == post;
        if post != [] {
          ReadsPrefix(mode, rest[1..], acc + ['$'], a);
          NextIsOld(p, open, body, post, k, acc, '$');
        }
      } else if k >= |body| {
        assert c == CRLF[k - |body|] && rest[1..] == s[k + 1..];
        QuotedNever(mode, p, open, body, post, k + 1, acc + [c]);
      } else {
        assert c == body[k] && c in body;
        QuotedStep(mode, p, open, body, post, k, acc);
      }
    }
  }

  /** The step inside the argument: a literal byte, an escape, or a closing quote (too early). */
  lemma {:induction false} QuotedStep(mode: Mode, p: ByteString, open: ByteString, body: ByteString,
                                      post: ByteString, k: nat, acc: ByteString)
    requires mode != Plain && Chasing(p, open, body, post, k, acc) && |p| <= |acc| && k < |body|
    ensures !ReadsAs(mode, (body + CRLF + post)[k..], acc, p + open + body)
    decreases |body| + 2 - k, 0
  {
    var s, a := body + CRLF + post, p + open + body;
    var rest := s[k..];
    var c := body[k];
    assert rest[0] == c && c in body;
    assert rest[1] == s[k + 1] && rest[1] == (if k + 1 < |body| then body[k + 1] else '\r');
    assert rest[1] != '\0' by { if k + 1 < |body| { assert body[k + 1] in body; } }
    assert |acc| < |a|;
    if ReadsAs(mode, rest, acc, a) {
      if mode == Quoted && IsHexEscape(rest) {
        HexInside(body, post, k);
        assert rest[4..] == s[k + 4..];
        QuotedNever(mode, p, open, body, post, k + 4, acc + [HexByte(rest[2], rest[3])]);
      } else if c == '\\' && (mode == Quoted || rest[1] == '\'') {
        var d := if mode == Quoted then Unescape(rest[1]) else '\'';
        assert rest[2..] == s[k + 2..];
        ReadsPrefix(mode, rest[2..], acc + [d], a);
        NextIsOld(p, open, body, post, k, acc, d);
        QuotedNever(mode, p, open, body, post, k + 2, acc + [d]);
      } else if (mode == Quoted && c != '"') || (mode == SingleQuoted && c != '\'') {
        assert rest[1..] == s[k + 1..];
        ReadsPrefix(mode, rest[1..], acc + [c], a);
        NextIsOld(p, open, body, post, k, acc, c);
        QuotedNever(mode, p, open, body, post, k + 1, acc + [c]);
      }
    }
  }

  /** A hexadecimal escape cannot reach into the line end. */
  lemma HexInside(body: ByteString, post: ByteString, k: nat)
    requires k < |body| && IsHexEscape((body + CRLF + post)[k..])
    ensures k + 4 <= |body| && forall i | k <= i < k + 4 :: body[i] != '$'
  {
    var s := body + CRLF + post;
    var rest := s[k..];
    assert s[|body|] == '\r';
    assert forall i | 0 <= i < 4 && i < |rest| :: rest[i] == s[k + i];
    assert forall i | k <= i < |body| :: s[i] == body[i];
  }

  /** If the token is to be w + p + b, blanks were skipped only where nothing was read yet. */
  lemma BlanksOrPlain(w: ByteString, p: ByteString, b: ByteString)
    requires (forall i | 0 <= i < |w| :: IsSpace(w[i])) && (p + b) != [] && !IsSpace((p + b)[0])
    requires p <= w + p + b
    ensures w == [] || p == []
  {
    assert w != [] ==> (w + p + b)[0] == w[0];
    assert p != [] ==> (p + b)[0] == p[0];
  }

  /** Reading an argument w + p + b of which the blanks w were skipped and p was read unquoted. */
  lemma {:induction false} PlainNever(w: ByteString, p: ByteString, b: ByteString, post: ByteString)
    requires IsCString(w + p + b) && !WireSafe(w + p + b) && Follows(post)
    requires forall i | 0 <= i < |w| :: IsSpace(w[i])
    requires forall i | 0 <= i < |p| :: IsPlain(p[i])
    requires (p + b) != [] && !IsSpace((p + b)[0])
    ensures !ReadsAs(Plain, b + CRLF + post, p, w + p + b)
    decreases |b|
  {
    var a, rest := w + p + b, b + CRLF + post;
    if ReadsAs(Plain, rest, p, a) {
      ReadsPrefix(Plain, rest, p, a);
      BlanksOrPlain(w, p, b);
      if b != [] {
        var c := b[0];
        assert rest[0] == c && rest[1..] == b[1..] + CRLF + post && c in a;
        assert |p| < |a|;
        if EndsPlain(c) {
        } else if !IsPlain(c) {
          var open := w + [c];
          assert a == p + open + b[1..];
          assert rest[1..] == (b[1..] + CRLF + post)[0..];
          assert IsCString(b[1..]);
          QuotedNever(if c == '"' then Quoted else SingleQuoted, p, open, b[1..], post, 0, p);
        } else {
          assert a == w + (p + [c]) + b[1..];
          assert p + b == (p + [c]) + b[1..];
          PlainNever(w, p + [c], b[1..], post);
        }
      }
    }
  }

  lemma {:induction false} SplitBlanks(a: ByteString) returns (w: ByteString, b: ByteString)
    ensures a == w + b && (forall i | 0 <= i < |w| :: IsSpace(w[i])) && (b == [] || !IsSpace(b[0]))
  {
    if a == [] || !IsSpace(a[0]) {
      w, b := [], a;
    } else {
      w, b := SplitBlanks(a[1..]);
      w := [a[0]] + w;
      assert a == [a[0]] + a[1..];
    }
  }

  lemma {:induction false} SkipThrough(w: ByteString, rest: ByteString)
    requires forall i | 0 <= i < |w| :: IsSpace(w[i])
    ensures SkipBlanks(w + rest) == SkipBlanks(rest)
  {
    if w == [] {
      assert w + rest == rest;
    } else {
      assert (w + rest)[1..] == w[1..] + rest;
      SkipThrough(w[1..], rest);
    }
  }

  /** An argument that is not wire safe is not the first token read from its place. */
  lemma UnsafeIsLost(a: ByteString, post: ByteString)
    requires IsCString(a) && !WireSafe(a) && Follows(post)
    ensures var ts := Split(a + CRLF + post); ts.Some? && ts.value != [] ==> ts.value[0] != a
  {
    var w, b := SplitBlanks(a);
    if b != [] {
      var rest := b + CRLF + post;
      assert a + CRLF + post == w + rest;
      SkipThrough(w, rest);
      assert rest[0] == b[0] && SkipBlanks(rest) == rest && b[0] in a;
      assert w + [] + b == a && [] + b == b;
      PlainNever(w, [], b, post);
    } else {
      BlankIsLost(a, post);
    }
  }

  lemma BlankIsLost(a: ByteString, post: ByteString)
    requires (forall i | 0 <= i < |a| :: IsSpace(a[i])) && Follows(post)
    ensures var ts := Split(a + CRLF + post); ts.Some? && ts.value != [] ==> ts.value[0] != a
  {
    var w := a + CRLF;
    SkipThrough(w, post);
    assert SkipBlanks(post) == post;
    if post != [] && Token(Plain, post, []).Some? {
      TokenExtends(Plain, post[1..], [] + ['$']);
    }
  }

  lemma {:induction false} BulksExact(args: seq<ByteString>)
    requires forall i | 0 <= i < |args| :: IsCString(args[i])
    requires Split(Bulks(args)) == Some(BulkTokens(args))
    ensures forall i | 0 <= i < |args| :: WireSafe(args[i])
    decreases |args|
  {
    if args != [] {
      var a, rest := args[0], Bulks(args[1..]);
      HeadersSafe(|a|);
      assert Bulks(args) == BulkHeader(a) + CRLF + (a + CRLF + rest);
      ReadWireToken(BulkHeader(a), a + CRLF + rest);
      assert BulkTokens(args)[1..] == [a] + BulkTokens(args[1..]);
      assert Split(a + CRLF + rest) == Some([a] + BulkTokens(args[1..]));
      assert Follows(rest);
      if WireSafe(a) {
        ReadWireToken(a, rest);
        assert ([a] + BulkTokens(args[1..]))[1..] == BulkTokens(args[1..]);
        BulksExact(args[1..]);
      } else {
        UnsafeIsLost(a, rest);
      }
    }
  }

  /** Exactly the vectors of wire-safe arguments come through: not empty, not beginning with a
      blank, and free of space, tab, line ends and quotes. */
  lemma WireExactly(args: seq<ByteString>)
    requires forall i | 0 <= i < |args| :: IsCString(args[i])
    ensures Split(Encode(args)) == Some(WireTokens(args)) <==> forall i | 0 <= i < |args| :: WireSafe(args[i])
  {
    if Split(Encode(args)) == Some(WireTokens(args)) {
      HeadersSafe(|args|);
      ReadWireToken(Header(|args|), Bulks(args));
      assert WireTokens(args)[1..] == BulkTokens(args);
      BulksExact(args);
    }
    if forall i | 0 <= i < |args| :: WireSafe(args[i]) {
      WireRoundTrip(args);
    }
  }
}
