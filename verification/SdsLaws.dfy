/** What the quoting printer and the tokenizer do to particular bytes, said with the bytes
    themselves: these laws fix both of them on every input. */
module SdsLaws {
  import opened Bytes
  import opened SdsArgs

  // ------------------------------------------------------------------ printing

  lemma {:induction false} EscapeConcat(s: ByteString, t: ByteString)
    ensures Escape(s + t) == Escape(s) + Escape(t)
  {
    if s == [] {
      assert s + t == t;
    } else {
      assert (s + t)[1..] == s[1..] + t;
      EscapeConcat(s[1..], t);
    }
  }

  /** Printable text without quotes and backslashes is printed as it is. */
  lemma {:induction false} PrintsVerbatim(s: ByteString)
    requires forall i | 0 <= i < |s| :: ' ' <= s[i] <= '~' && s[i] != '"' && s[i] != '\\'
    ensures Escape(s) == s && Repr(s) == "\"" + s + "\""
  {
    if s != [] {
      PrintsVerbatim(s[1..]);
      assert EscapeByte(s[0]) == [s[0]];
    }
  }

  lemma EscapeOfOne(c: Byte)
    ensures Escape([c]) == EscapeByte(c)
  {
    assert [c][1..] == [];
  }

  /** The seven bytes with an escape of their own. */
  lemma PrintsNamed()
    ensures Escape("\\") == "\\\\" && Escape("\"") == "\\\"" && Escape("\n") == "\\n"
    ensures Escape("\r") == "\\r" && Escape("\t") == "\\t"
    ensures Escape(['\U{07}']) == "\\a" && Escape(['\U{08}']) == "\\b"
  {
    EscapeOfOne('\\');
    EscapeOfOne('"');
    EscapeOfOne('\n');
    EscapeOfOne('\r');
    EscapeOfOne('\t');
    EscapeOfOne('\U{07}');
    EscapeOfOne('\U{08}');
  }

  const LOWER: ByteString := "0123456789abcdef"
  const UPPER: ByteString := "0123456789ABCDEF"

  /** Any other byte is printed as its two lower-case hexadecimal digits. */
  lemma PrintsHex(c: Byte)
    requires (c < ' ' || c > '~') && c !in "\n\r\t" && c != '\U{07}' && c != '\U{08}'
    ensures Escape([c]) == ['\\', 'x', LOWER[c as int / 16], LOWER[c as int % 16]]
  {
    EscapeOfOne(c);
    assert forall n: nat | n < 16 :: HexDigit(n) == LOWER[n];
  }

  /** What is printed is printable. */
  lemma {:induction false} PrintsPrintable(s: ByteString)
    ensures forall i | 0 <= i < |Escape(s)| :: ' ' <= Escape(s)[i] <= '~'
  {
    if s != [] {
      PrintsPrintable(s[1..]);
      var e := EscapeByte(s[0]);
      assert forall i | 0 <= i < |e| :: ' ' <= e[i] <= '~';
    }
  }

  // --------------------------------------------------------------- plain words

  /** A byte that neither ends an unquoted token nor opens a quote. */
  predicate Bare(c: Byte) { c !in " \t\n\r\"'" && c != '\0' }

  /** A word as typed without quotes: vertical tab and form feed only after its first byte. */
  predicate Word(t: ByteString)
  {
    t != [] && t[0] != '\U{0B}' && t[0] != '\U{0C}' && forall i | 0 <= i < |t| :: Bare(t[i])
  }

  lemma {:induction false} ReadsBare(t: ByteString, post: ByteString, acc: ByteString)
    requires forall i | 0 <= i < |t| :: Bare(t[i])
    ensures Token(Plain, t + post, acc) == Token(Plain, post, acc + t)
    decreases |t|
  {
    if t == [] {
      assert t + post == post && acc + t == acc;
    } else {
      assert (t + post)[1..] == t[1..] + post && (t + post)[0] == t[0];
      ReadsBare(t[1..], post, acc + [t[0]]);
      assert acc + [t[0]] + t[1..] == acc + t;
    }
  }

  lemma SkipsNothing(t: ByteString, post: ByteString)
    requires Word(t)
    ensures SkipBlanks(t + post) == t + post
  {
    assert (t + post)[0] == t[0];
  }

  /** A word ends at a space, tab, line feed or carriage return, which is consumed. */
  lemma ReadsWord(t: ByteString, sp: Byte, post: ByteString)
    requires Word(t) && (sp == ' ' || sp == '\t' || sp == '\n' || sp == '\r')
    ensures Split(t + [sp] + post) == Prepend(t, Split(post))
  {
    var rest := [sp] + post;
    assert t + [sp] + post == t + rest && (t + rest)[0] == t[0];
    SkipsNothing(t, rest);
    ReadsBare(t, rest, []);
    assert [] + t == t && rest[1..] == post;
  }

  /** Or at the end of the line. */
  lemma ReadsLastWord(t: ByteString)
    requires Word(t)
    ensures Split(t) == Some([t])
  {
    assert t + [] == t && [] + t == t;
    SkipsNothing(t, []);
    ReadsBare(t, [], []);
    assert SkipBlanks([]) == [] && Split([]) == Some([]);
    assert [t] + [] == [t];
  }

  /** The six blanks of the C locale are skipped in front of tokens. */
  lemma SkipsBlank(sp: Byte, post: ByteString)
    requires sp in " \t\n\r" || sp == '\U{0B}' || sp == '\U{0C}'
    ensures Split([sp] + post) == Split(post)
  {
    assert ([sp] + post)[1..] == post;
    assert SkipBlanks([sp] + post) == SkipBlanks(post);
  }

  /** Words as typed, each followed by one of the four bytes that end a word. */
  function Typed(words: seq<ByteString>, sp: Byte): ByteString
  {
    if words == [] then [] else words[0] + [sp] + Typed(words[1..], sp)
  }

  lemma {:induction false} ReadsTyped(words: seq<ByteString>, sp: Byte, post: ByteString)
    requires forall i | 0 <= i < |words| :: Word(words[i])
    requires sp == ' ' || sp == '\t' || sp == '\n' || sp == '\r'
    ensures Split(Typed(words, sp) + post) == Onto(words, Split(post))
    decreases |words|
  {
    if words == [] {
      assert Typed(words, sp) + post == post;
      OntoNothing(Split(post));
    } else {
      var rest := Typed(words[1..], sp) + post;
      assert Typed(words, sp) + post == words[0] + [sp] + rest;
      ReadsTyped(words[1..], sp, post);
      ReadsWord(words[0], sp, rest);
      OntoCons(words, Split(post));
    }
  }

  lemma OntoCons(words: seq<ByteString>, rest: Option<seq<ByteString>>)
    requires words != []
    ensures Prepend(words[0], Onto(words[1..], rest)) == Onto(words, rest)
  {
    if rest.Some? {
      assert [words[0]] + (words[1..] + rest.value) == words + rest.value;
    }
  }

  /** A line of words between single spaces, with the line feed at its end. */
  lemma ReadsLine(words: seq<ByteString>, last: ByteString)
    requires Word(last) && forall i | 0 <= i < |words| :: Word(words[i])
    ensures Split(Typed(words, ' ') + last + "\n") == Some(words + [last])
  {
    ReadsTyped(words, ' ', last + "\n");
    ReadsWord(last, '\n', []);
    assert last + "\n" == last + ['\n'] + [];
    assert Typed(words, ' ') + last + "\n" == Typed(words, ' ') + (last + "\n");
    assert SkipBlanks([]) == [] && Split([]) == Some([]);
    assert [last] + [] == [last];
  }

  // -------------------------------------------------------------------- quotes

  /** A quote inside a word opens a quoted part of the same token. */
  lemma OpensQuote(post: ByteString, acc: ByteString)
    ensures Token(Plain, "\"" + post, acc) == Token(Quoted, post, acc)
    ensures Token(Plain, "'" + post, acc) == Token(SingleQuoted, post, acc)
  {
    assert ("\"" + post)[1..] == post && ("'" + post)[1..] == post;
  }

  /** The end of the line, its terminator, or one of the six blanks. */
  predicate AtBreak(post: ByteString)
  {
    post == [] || post[0] == '\0' || post[0] in " \t\n\r" || post[0] == '\U{0B}' || post[0] == '\U{0C}'
  }

  /** A closing quote ends the token at a break and is an error anywhere else. */
  lemma Closes(post: ByteString, acc: ByteString)
    ensures Token(Quoted, "\"" + post, acc) == if AtBreak(post) then Some((acc, post)) else None
    ensures Token(SingleQuoted, "'" + post, acc) == if AtBreak(post) then Some((acc, post)) else None
  {
    assert ("\"" + post)[1..] == post && ("'" + post)[1..] == post;
  }

  /** A line that ends inside quotes is an error, behind a backslash too. */
  lemma Unclosed(mode: Mode, acc: ByteString, post: ByteString)
    requires mode != Plain
    ensures Token(mode, [], acc) == None && Token(mode, ['\0'] + post, acc) == None
    ensures Token(mode, "\\", acc) == None && Token(mode, ['\\', '\0'] + post, acc) == None
  {
    assert ['\\', '\0'] + post == ['\\'] + (['\0'] + post);
    assert (['\\'] + (['\0'] + post))[1..] == ['\0'] + post;
    assert Token(mode, ['\0'] + post, acc + ['\\']) == None;
    assert "\\"[1..] == [];
  }

  /** Inside quotes every byte but NUL, backslash and the quote itself stands for itself. */
  lemma {:induction false} ReadsQuoted(mode: Mode, s: ByteString, post: ByteString, acc: ByteString)
    requires mode != Plain
    requires forall i | 0 <= i < |s| :: s[i] != '\0' && s[i] != '\\' && s[i] != (if mode == Quoted then '"' else '\'')
    ensures Token(mode, s + post, acc) == Token(mode, post, acc + s)
    decreases |s|
  {
    if s == [] {
      assert s + post == post && acc + s == acc;
    } else {
      assert (s + post)[1..] == s[1..] + post && (s + post)[0] == s[0];
      ReadsQuoted(mode, s[1..], post, acc + [s[0]]);
      assert acc + [s[0]] + s[1..] == acc + s;
    }
  }

  /** In single quotes a backslash is special before a single quote only. */
  lemma ReadsBackslash(post: ByteString, acc: ByteString)
    ensures Token(SingleQuoted, "\\'" + post, acc) == Token(SingleQuoted, post, acc + ['\''])
    ensures post == [] || post[0] != '\'' ==>
              Token(SingleQuoted, "\\" + post, acc) == Token(SingleQuoted, post, acc + ['\\'])
  {
    assert ("\\'" + post)[2..] == post && ("\\" + post)[1..] == post;
  }

  /** Bytes in single quotes, with \' for the quote itself. */
  function Single(s: ByteString): ByteString
  {
    if s == [] then [] else SingleOne(s[0]) + Single(s[1..])
  }

  function SingleOne(c: Byte): ByteString { if c == '\'' then "\\'" else [c] }

  lemma ReadsSingleOne(c: Byte, rest: ByteString, acc: ByteString)
    requires c != '\0' && c != '\\'
    ensures Token(SingleQuoted, SingleOne(c) + rest, acc) == Token(SingleQuoted, rest, acc + [c])
  {
    if c == '\'' {
      ReadsBackslash(rest, acc);
    } else {
      ReadsQuoted(SingleQuoted, [c], rest, acc);
    }
  }

  lemma {:induction false} ReadsSingle(s: ByteString, post: ByteString, acc: ByteString)
    requires (forall i | 0 <= i < |s| :: s[i] != '\0' && s[i] != '\\') && AtBreak(post)
    ensures Token(SingleQuoted, Single(s) + ['\''] + post, acc) == Some((acc + s, post))
    decreases |s|
  {
    if s == [] {
      assert Single(s) + ['\''] + post == "'" + post && acc + s == acc;
      Closes(post, acc);
    } else {
      var rest := Single(s[1..]) + ['\''] + post;
      assert Single(s) + ['\''] + post == SingleOne(s[0]) + rest;
      ReadsSingleOne(s[0], rest, acc);
      ReadsSingle(s[1..], post, acc + [s[0]]);
      assert acc + [s[0]] + s[1..] == acc + s;
    }
  }

  /** In double quotes the five named escapes, and any other escaped byte but an x. */
  lemma ReadsEscape(c: Byte, post: ByteString, acc: ByteString)
    requires c != '\0' && c != 'x'
    ensures Token(Quoted, ['\\', c] + post, acc) ==
            Token(Quoted, post, acc + [if c == 'n' then '\n' else if c == 'r' then '\r' else if c == 't' then '\t'
                                       else if c == 'b' then '\U{08}' else if c == 'a' then '\U{07}' else c])
  {
    var rest := ['\\', c] + post;
    assert rest[2..] == post && rest[1] == c;
  }

  /** A hexadecimal escape, with digits of either case. */
  lemma ReadsHex(hi: nat, lo: nat, a: Byte, b: Byte, post: ByteString, acc: ByteString)
    requires hi < 16 && lo < 16 && (a == LOWER[hi] || a == UPPER[hi]) && (b == LOWER[lo] || b == UPPER[lo])
    ensures Token(Quoted, ['\\', 'x', a, b] + post, acc) == Token(Quoted, post, acc + [(16 * hi + lo) as char])
  {
    var rest := ['\\', 'x', a, b] + post;
    HexValues(hi, a);
    HexValues(lo, b);
    assert rest[4..] == post && rest[1] == 'x' && rest[2] == a && rest[3] == b;
  }

  lemma HexValues(n: nat, c: Byte)
    requires n < 16 && (c == LOWER[n] || c == UPPER[n])
    ensures IsHexDigit(c) && HexValue(c) == n
  {
  }

  /** An escaped x without two hexadecimal digits behind it stands for itself. */
  lemma ReadsPlainX(post: ByteString, acc: ByteString)
    requires |post| < 2 || (post[0] !in LOWER && post[0] !in UPPER) || (post[1] !in LOWER && post[1] !in UPPER)
    ensures Token(Quoted, "\\x" + post, acc) == Token(Quoted, post, acc + ['x'])
  {
    var rest := "\\x" + post;
    assert rest[2..] == post;
    assert forall i | 0 <= i < |post| :: rest[i + 2] == post[i];
    HexDigitsAre(Peek(rest, 2));
    if |rest| >= 3 { HexDigitsAre(Peek(rest, 3)); }
  }

  lemma HexDigitsAre(c: Byte)
    ensures IsHexDigit(c) <==> c in LOWER || c in UPPER
  {
    if IsHexDigit(c) {
      assert c == LOWER[HexValue(c)] || c == UPPER[HexValue(c)];
    }
  }
}
