/** The quoting printer sdscatrepr and the tokenizer sdssplitargs of sds.c, which undo each
    other. The tokenizer is specified on the text still to be read. */
module SdsArgs {
  import opened Bytes

  const BELL: Byte := '\U{07}'
  const BACKSPACE: Byte := '\U{08}'

  /** isspace() of the C locale. */
  predicate IsSpace(c: Byte)
  {
    c == ' ' || c == '\t' || c == '\n' || c == '\r' || c == '\U{0B}' || c == '\U{0C}'
  }

  /** isprint() of the C locale. */
  predicate IsPrint(c: Byte) { ' ' <= c <= '~' }

  predicate IsHexDigit(c: Byte) { '0' <= c <= '9' || 'a' <= c <= 'f' || 'A' <= c <= 'F' }

  function HexValue(c: Byte): (n: nat)
    ensures n < 16
  {
    if '0' <= c <= '9' then c as int - '0' as int
    else if 'a' <= c <= 'f' then c as int - 'a' as int + 10
    else if 'A' <= c <= 'F' then c as int - 'A' as int + 10
    else 0
  }

  function HexDigit(n: nat): (c: Byte)
    requires n < 16
    ensures IsHexDigit(c) && HexValue(c) == n
  {
    if n < 10 then ('0' as int + n) as char else ('a' as int + n - 10) as char
  }

  // ----------------------------------------------------------------- printing

  function EscapeByte(c: Byte): ByteString
  {
    match c
    case '\\' => "\\\\"
    case '"' => "\\\""
    case '\n' => "\\n"
    case '\r' => "\\r"
    case '\t' => "\\t"
    case _ =>
      if c == BELL then "\\a"
      else if c == BACKSPACE then "\\b"
      else if IsPrint(c) then [c]
      else ['\\', 'x', HexDigit(c as int / 16), HexDigit(c as int % 16)]
  }

  function Escape(s: ByteString): ByteString
  {
    if s == [] then [] else EscapeByte(s[0]) + Escape(s[1..])
  }

  function Repr(s: ByteString): ByteString { ['"'] + Escape(s) + ['"'] }

  lemma {:induction false} EscapeSnoc(s: ByteString, c: Byte)
    ensures Escape(s + [c]) == Escape(s) + EscapeByte(c)
  {
    if s == [] {
      assert s + [c] == [c];
    } else {
      assert (s + [c])[1..] == s[1..] + [c];
      EscapeSnoc(s[1..], c);
    }
  }

  lemma EscapeMore(before: ByteString, s: ByteString, c: Byte)
    ensures before + Escape(s + [c]) == (before + Escape(s)) + EscapeByte(c)
  {
    EscapeSnoc(s, c);
  }

  /** The switch of sdscatrepr. */
  method EscapeOne(c: Byte) returns (e: ByteString)
    ensures e == EscapeByte(c)
  {
    if c == '\\' || c == '"' {
      e := ['\\', c];
    } else if c == '\n' {
      e := "\\n";
    } else if c == '\r' {
      e := "\\r";
    } else if c == '\t' {
      e := "\\t";
    } else if c == BELL {
      e := "\\a";
    } else if c == BACKSPACE {
      e := "\\b";
    } else if IsPrint(c) {
      e := [c];
    } else {
      e := ['\\', 'x', HexDigit(c as int / 16), HexDigit(c as int % 16)];
    }
  }

  /** sdscatrepr. */
  method CatRepr(s: ByteString, p: ByteString) returns (r: ByteString)
    ensures r == s + Repr(p)
  {
    r := s + ['"'];
    ghost var open := r;
    for i := 0 to |p|
      invariant r == open + Escape(p[..i])
    {
      assert p[..i + 1] == p[..i] + [p[i]];
      EscapeMore(open, p[..i], p[i]);
      var e := EscapeOne(p[i]);
      r := r + e;
    }
    assert p[..|p|] == p;
    r := r + ['"'];
  }

  // --------------------------------------------------------------- tokenizing

  /** `p[i]` of a NUL-terminated string whose unread part is `rest`. */
  function Peek(rest: ByteString, i: nat): Byte
    requires i <= |rest|
  {
    if i < |rest| then rest[i] else '\0'
  }

  datatype Mode = Plain | Quoted | SingleQuoted

  /** "while(*p && isspace(*p)) p++". */
  function SkipBlanks(rest: ByteString): (r: ByteString)
    ensures |r| <= |rest|
    ensures r == [] || !IsSpace(r[0])
  {
    if rest != [] && IsSpace(rest[0]) then SkipBlanks(rest[1..]) else rest
  }

  predicate IsHexEscape(rest: ByteString)
  {
    Peek(rest, 0) == '\\' && Peek(rest, 1) == 'x' && IsHexDigit(Peek(rest, 2)) && IsHexDigit(Peek(rest, 3))
  }

  function HexByte(hi: Byte, lo: Byte): Byte { (HexValue(hi) * 16 + HexValue(lo)) as char }

  function Unescape(c: Byte): Byte
  {
    match c
    case 'n' => '\n'
    case 'r' => '\r'
    case 't' => '\t'
    case 'b' => BACKSPACE
    case 'a' => BELL
    case _ => c
  }

  predicate EndsPlain(c: Byte) { c == ' ' || c == '\n' || c == '\r' || c == '\t' || c == '\0' }

  /** What may come behind the quote that ends a token. */
  predicate MayClose(next: Byte) { next == '\0' || IsSpace(next) }

  /** The token being read: `acc` so far, `rest` unread. None is the error exit. */
  function Token(mode: Mode, rest: ByteString, acc: ByteString): (r: Option<(ByteString, ByteString)>)
    ensures r.Some? ==> |r.value.1| <= |rest|
    ensures r.Some? && rest != [] && rest[0] != '\0' ==> |r.value.1| < |rest|
    decreases |rest|
  {
    var c := Peek(rest, 0);
    match mode
    case Plain =>
      if c == '\0' then Some((acc, rest))
      else if EndsPlain(c) then Some((acc, rest[1..]))
      else if c == '"' then Token(Quoted, rest[1..], acc)
      else if c == '\'' then Token(SingleQuoted, rest[1..], acc)
      else Token(Plain, rest[1..], acc + [c])
    case Quoted =>
      if IsHexEscape(rest) then Token(Quoted, rest[4..], acc + [HexByte(rest[2], rest[3])])
      else if c == '\\' && Peek(rest, 1) != '\0' then Token(Quoted, rest[2..], acc + [Unescape(rest[1])])
      else if c == '"' then if MayClose(Peek(rest, 1)) then Some((acc, rest[1..])) else None
      else if c == '\0' then None
      else Token(Quoted, rest[1..], acc + [c])
    case SingleQuoted =>
      if c == '\\' && Peek(rest, 1) == '\'' then Token(SingleQuoted, rest[2..], acc + ['\''])
      else if c == '\'' then if MayClose(Peek(rest, 1)) then Some((acc, rest[1..])) else None
      else if c == '\0' then None
      else Token(SingleQuoted, rest[1..], acc + [c])
  }

  function Prepend(t: ByteString, ts: Option<seq<ByteString>>): Option<seq<ByteString>>
  {
    if ts.Some? then Some([t] + ts.value) else None
  }

  /** sdssplitargs on the text still to be read; None is its NULL result. */
  function Split(rest: ByteString): Option<seq<ByteString>>
    decreases |rest|
  {
    var r := SkipBlanks(rest);
    if Peek(r, 0) == '\0' then Some([])
    else
      var t := Token(Plain, r, []);
      if t.None? then None else Prepend(t.value.0, Split(t.value.1))
  }

  // -------------------------------------------------------------- the method

  /** What one turn of the inner loop leaves: the token is over, or the rest is to be read. */
  ghost predicate Turned(mode: Mode, line: ByteString, p: nat, current: ByteString,
                         err: bool, done: bool, cur: ByteString, q: nat)
    requires p <= |line| && q <= |line|
  {
    var goal := Token(mode, line[p..], current);
    if err then goal.None?
    else if done then goal == Some((cur, line[q..]))
    else p < q && goal == Token(mode, line[q..], cur)
  }

  /** "if (inq)": inside double quotes. */
  method InQuotes(line: ByteString, p: nat, current: ByteString)
    returns (err: bool, done: bool, cur: ByteString, q: nat)
    requires p <= |line|
    ensures q <= |line| && Turned(Quoted, line, p, current, err, done, cur, q)
  {
    ghost var rest := line[p..];
    var c := Peek(line, p);
    err, done, cur, q := false, false, current, p;
    if c == '\\' && Peek(line, p + 1) == 'x' && IsHexDigit(Peek(line, p + 2)) && IsHexDigit(Peek(line, p + 3)) {
      assert IsHexEscape(rest) && rest[4..] == line[p + 4..];
      cur := cur + [HexByte(line[p + 2], line[p + 3])];
      q := q + 3;
    } else if c == '\\' && Peek(line, p + 1) != '\0' {
      assert rest[2..] == line[p + 2..];
      q := q + 1;
      cur := cur + [Unescape(line[q])];
    } else if c == '"' {
      assert rest[1..] == line[p + 1..];
      if !MayClose(Peek(line, p + 1)) {
        err := true;
        return;
      }
      done := true;
    } else if c == '\0' {
      err := true;
      return;
    } else {
      assert rest[1..] == line[p + 1..];
      cur := cur + [c];
    }
    q := q + 1;
  }

  /** "else if (insq)": inside single quotes. */
  method InSingleQuotes(line: ByteString, p: nat, current: ByteString)
    returns (err: bool, done: bool, cur: ByteString, q: nat)
    requires p <= |line|
    ensures q <= |line| && Turned(SingleQuoted, line, p, current, err, done, cur, q)
  {
    ghost var rest := line[p..];
    var c := Peek(line, p);
    err, done, cur, q := false, false, current, p;
    if c == '\\' && Peek(line, p + 1) == '\'' {
      assert rest[2..] == line[p + 2..];
      q := q + 1;
      cur := cur + ['\''];
    } else if c == '\'' {
      assert rest[1..] == line[p + 1..];
      if !MayClose(Peek(line, p + 1)) {
        err := true;
        return;
      }
      done := true;
    } else if c == '\0' {
      err := true;
      return;
    } else {
      assert rest[1..] == line[p + 1..];
      cur := cur + [c];
    }
    q := q + 1;
  }

  /** The inner loop: one token, with the two quote flags of the source. */
  method ReadToken(line: ByteString, p0: nat) returns (ok: bool, current: ByteString, p: nat)
    requires p0 <= |line|
    ensures p <= |line|
    ensures Token(Plain, line[p0..], []) == if ok then Some((current, line[p..])) else None
  {
    var inq, insq, done := false, false, false;
    current := [];
    p := p0;
    ghost var goal := Token(Plain, line[p0..], []);
    while !done
      invariant p <= |line| && !(inq && insq)
      invariant !done ==>
                  Token(if inq then Quoted else if insq then SingleQuoted else Plain, line[p..], current) == goal
      invariant done ==> goal == Some((current, line[p..]))
      decreases if done then 0 else 1, |line| - p
    {
      if inq || insq {
        var err;
        if inq {
          err, done, current, p := InQuotes(line, p, current);
        } else {
          err, done, current, p := InSingleQuotes(line, p, current);
        }
        if err {
          return false, current, p;
        }
      } else {
        var c := Peek(line, p);
        assert c != '\0' ==> line[p..][1..] == line[p + 1..];
        if EndsPlain(c) {
          done := true;
        } else if c == '"' {
          inq := true;
        } else if c == '\'' {
          insq := true;
        } else {
          current := current + [c];
        }
        if c != '\0' {
          p := p + 1;
        }
      }
    }
    ok := true;
  }

  /** sdssplitargs. */
  method SplitArgs(line: ByteString) returns (ok: bool, argv: seq<ByteString>)
    ensures Split(line) == if ok then Some(argv) else None
  {
    var p := 0;
    argv := [];
    OntoNothing(Split(line));
    assert line[0..] == line;
    while true
      invariant p <= |line|
      invariant Split(line) == Onto(argv, Split(line[p..]))
      decreases |line| - p
    {
      ghost var start := p;
      while Peek(line, p) != '\0' && IsSpace(Peek(line, p))
        invariant start <= p <= |line|
        invariant SkipBlanks(line[p..]) == SkipBlanks(line[start..])
        decreases |line| - p
      {
        assert line[p..][1..] == line[p + 1..];
        p := p + 1;
      }
      if Peek(line, p) == '\0' {
        assert argv + [] == argv;
        return true, argv;
      }
      var got, current, q := ReadToken(line, p);
      if !got {
        return false, [];
      }
      OntoSnoc(argv, current, Split(line[q..]));
      argv := argv + [current];
      p := q;
    }
  }

  function Onto(ts: seq<ByteString>, rest: Option<seq<ByteString>>): Option<seq<ByteString>>
  {
    if rest.Some? then Some(ts + rest.value) else None
  }

  lemma OntoNothing(rest: Option<seq<ByteString>>)
    ensures Onto([], rest) == rest
  {
    if rest.Some? {
      assert [] + rest.value == rest.value;
    }
  }

  lemma OntoSnoc(ts: seq<ByteString>, t: ByteString, rest: Option<seq<ByteString>>)
    ensures Onto(ts, Prepend(t, rest)) == Onto(ts + [t], rest)
  {
    if rest.Some? {
      assert ts + ([t] + rest.value) == (ts + [t]) + rest.value;
    }
  }

  // --------------------------------------------------------------- round trip

  /** A line of printed strings, separated by single spaces. */
  function ReprLine(args: seq<ByteString>): ByteString
  {
    if args == [] then [] else if |args| == 1 then Repr(args[0]) else Repr(args[0]) + " " + ReprLine(args[1..])
  }

  lemma ReadEscapedByte(c: Byte, post: ByteString, acc: ByteString)
    ensures Token(Quoted, EscapeByte(c) + post, acc) == Token(Quoted, post, acc + [c])
  {
    var e := EscapeByte(c);
    var rest := e + post;
    assert rest[|e|..] == post;
    if |e| == 4 {
      assert HexByte(rest[2], rest[3]) == c;
    }
  }

  /** Inside quotes, the escaped form of s reads back as s, up to the closing quote. */
  lemma {:induction false} ReadEscaped(s: ByteString, post: ByteString, acc: ByteString)
    requires MayClose(Peek(post, 0))
    ensures Token(Quoted, Escape(s) + ['"'] + post, acc) == Some((acc + s, post))
  {
    if s == [] {
      assert Escape(s) + ['"'] + post == ['"'] + post;
      assert acc + s == acc;
    } else {
      var rest := Escape(s[1..]) + ['"'] + post;
      assert Escape(s) + ['"'] + post == EscapeByte(s[0]) + rest;
      ReadEscapedByte(s[0], rest, acc);
      ReadEscaped(s[1..], post, acc + [s[0]]);
      assert acc + [s[0]] + s[1..] == acc + s;
    }
  }

  lemma ReadRepr(s: ByteString, post: ByteString)
    requires MayClose(Peek(post, 0))
    ensures Split(Repr(s) + post) == Prepend(s, Split(post))
  {
    var line := Repr(s) + post;
    assert line[0] == '"' && line[1..] == Escape(s) + ['"'] + post;
    assert SkipBlanks(line) == line;
    ReadEscaped(s, post, []);
    assert [] + s == s;
  }

  /** Print/parse round trip: for any byte strings whatsoever, tokenizing the printed line
      returns exactly the strings printed. */
  lemma {:induction false} ReprRoundTrip(args: seq<ByteString>)
    ensures Split(ReprLine(args)) == Some(args)
    decreases |args|
  {
    if |args| == 1 {
      assert Repr(args[0]) + [] == Repr(args[0]);
      ReadRepr(args[0], []);
      assert SkipBlanks([]) == [] && Split([]) == Some([]);
      assert args == [args[0]] + [];
    } else if |args| > 1 {
      var tail := " " + ReprLine(args[1..]);
      assert ReprLine(args) == Repr(args[0]) + tail;
      ReadRepr(args[0], tail);
      assert tail[1..] == ReprLine(args[1..]);
      assert SkipBlanks(tail) == SkipBlanks(tail[1..]);
      assert Split(tail) == Split(tail[1..]);
      ReprRoundTrip(args[1..]);
      assert args == [args[0]] + args[1..];
    }
  }
}
