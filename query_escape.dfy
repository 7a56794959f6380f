/** The search query of public/chat-widget.js:235-253 puts the user's message
    inside a GraphQL string literal, `concepts: ["..."]`, after replacing each
    `"` by `\"` (line 242). This module models that escape as written, the
    way a GraphQL server reads a string literal back (the StringValue rule of
    section 2.9.4 of the GraphQL specification, October 2021 edition), the
    inputs for which the escape does not survive that reading, and the escape
    that does. */
module QueryEscape {
  import opened Results

  // ----- The escape as written (line 242) -----

  /** `query.replace(/"/g, '\\"')`: every `"` preceded by a backslash, every
      other character, backslashes included, unchanged. */
  function EscapeQuotes(q: string): (r: string)
    ensures |r| >= |q|
    ensures r == [] || r[0] != '"'
    ensures forall k :: 0 <= k < |r| && r[k] == '"' ==> 0 < k && r[k - 1] == '\\'
    decreases |q|
  {
    if q == [] then []
    else
      var first := if q[0] == '"' then "\\\"" else [q[0]];
      var rest := EscapeQuotes(q[1..]);
      assert forall k :: |first| <= k < |first| + |rest| ==> (first + rest)[k] == rest[k - |first|];
      first + rest
  }

  /** Reads `\"` as `"` and every other character as itself. */
  function Unquote(s: string): string
    decreases |s|
  {
    if s == [] then []
    else if |s| >= 2 && s[0] == '\\' && s[1] == '"' then "\"" + Unquote(s[2..])
    else [s[0]] + Unquote(s[1..])
  }

  /** The escape as written loses nothing by itself: undoing exactly the
      replacement it makes gives the query back. */
  lemma {:induction false} UnquoteEscapeQuotes(q: string)
    ensures Unquote(EscapeQuotes(q)) == q
    decreases |q|
  {
    if q != [] {
      var rest := EscapeQuotes(q[1..]);
      UnquoteEscapeQuotes(q[1..]);
      if q[0] == '"' {
        assert EscapeQuotes(q) == "\\\"" + rest;
        assert (("\\\"" + rest)[2..]) == rest;
      } else {
        assert EscapeQuotes(q) == [q[0]] + rest;
        assert ([q[0]] + rest)[1..] == rest;
      }
    }
  }

  // ----- Reading a GraphQL string literal -----

  /** The EscapedCharacter of the StringValue rule: the character a `\`
      followed by `c` stands for. */
  function Unescaped(c: char): Option<char> {
    match c
    case '"' => Some('"')
    case '\\' => Some('\\')
    case '/' => Some('/')
    case 'b' => Some('\U{8}')
    case 'f' => Some('\U{C}')
    case 'n' => Some('\n')
    case 'r' => Some('\r')
    case 't' => Some('\t')
    case _ => None
  }

  /** The value of a hexadecimal digit of either case. */
  function HexDigit(c: char): (d: Option<nat>)
    ensures d.Some? ==> d.value < 16
  {
    if '0' <= c <= '9' then Some(c as int - '0' as int)
    else if 'a' <= c <= 'f' then Some(c as int - 'a' as int + 10)
    else if 'A' <= c <= 'F' then Some(c as int - 'A' as int + 10)
    else None
  }

  /** The EscapedUnicode of the StringValue rule: the character whose code
      the four hexadecimal digits `h` give; `None` when one of them is not a
      digit, or when the code is a surrogate half, which is not a character
      by itself. */
  function UnicodeEscape(h: string): (c: Option<char>)
    requires |h| == 4
  {
    var d0, d1, d2, d3 := HexDigit(h[0]), HexDigit(h[1]), HexDigit(h[2]), HexDigit(h[3]);
    if d0.None? || d1.None? || d2.None? || d3.None? then None
    else
      var code := ((d0.value * 16 + d1.value) * 16 + d2.value) * 16 + d3.value;
      if 0xD800 <= code < 0xE000 then None else Some(code as char)
  }

  /** A SourceCharacter may stand raw inside a string literal unless it is a
      line terminator or another character below U+0020; tab is allowed. */
  predicate IsRaw(c: char) {
    c >= ' ' || c == '\t'
  }

  function Prepend(c: char, r: Option<(string, string)>): Option<(string, string)> {
    match r
    case None => None
    case Some((value, rest)) => Some(([c] + value, rest))
  }

  /** Reads the characters of a string literal after its opening `"`: the
      value up to the closing `"`, and the text after that quote; `None` when
      the literal is not well formed: a line terminator or another control
      character other than tab inside it, an unknown escape, or no closing
      quote. */
  function ReadString(s: string): (r: Option<(string, string)>)
    ensures r.Some? ==> |r.value.1| < |s|
    decreases |s|
  {
    if s == [] then None
    else if s[0] == '"' then Some(([], s[1..]))
    else if !IsRaw(s[0]) then None
    else if s[0] != '\\' then Prepend(s[0], ReadString(s[1..]))
    else if |s| >= 2 && Unescaped(s[1]).Some? then Prepend(Unescaped(s[1]).value, ReadString(s[2..]))
    else if |s| >= 6 && s[1] == 'u' && UnicodeEscape(s[2..6]).Some? then
      Prepend(UnicodeEscape(s[2..6]).value, ReadString(s[6..]))
    else None
  }

  // ----- Where the escape as written fails -----

  /** A query ending in a backslash: the backslash escapes the closing quote
      and the literal runs on into the rest of the query, up to the line end. */
  lemma TrailingBackslashBreaksLiteral()
    ensures ReadString(EscapeQuotes("a\\") + "\"]\n") == None
  {
    assert EscapeQuotes("a\\") == "a\\";
    assert "a\\" + "\"]\n" == "a\\\"]\n";
    assert ReadString("\n") == None;
    assert ReadString("]\n") == None;
    assert ReadString("\\\"]\n") == None;
  }

  /** A query of two lines (Shift+Enter inserts a newline): a line terminator
      may not stand inside a string literal. */
  lemma NewlineBreaksLiteral()
    ensures ReadString(EscapeQuotes("a\nb") + "\"]") == None
  {
    assert EscapeQuotes("a\nb") == "a\nb";
    assert "a\nb" + "\"]" == "a\nb\"]";
    assert ReadString("\nb\"]") == None;
  }

  /** A query holding another control character, here U+0001 (pasted text
      can carry one): it may not stand raw inside a string literal either. */
  lemma ControlCharacterBreaksLiteral()
    ensures ReadString(EscapeQuotes("a\U{1}") + "\"]") == None
  {
    assert EscapeQuotes("a\U{1}") == "a\U{1}";
    assert "a\U{1}" + "\"]" == "a\U{1}\"]";
    assert ReadString("\U{1}\"]") == None;
  }

  /** A backslash before a quote: the server reads a different concept, a
      lone backslash, and the literal ends early; what is left, `"]` and the
      line end, opens a second literal that is never closed, so the whole
      query is rejected. */
  lemma BackslashQuoteMisread()
    ensures var r := ReadString(EscapeQuotes("\\\"") + "\"]\n");
      r == Some(("\\", "\"]\n")) &&
      r.value.1[0] == '"' && ReadString(r.value.1[1..]) == None
  {
    var q := "\\\"";
    assert q[1..] == "\"";
    assert EscapeQuotes(q[1..]) == "\\\"";
    assert EscapeQuotes(q) == "\\" + "\\\"";
    var s := "\\\\\"\"]\n";
    assert "\\\\\"" + "\"]\n" == s;
    assert s[2..] == "\"\"]\n";
    assert ReadString(s[2..]) == Some(([], "\"]\n"));
    assert Unescaped(s[1]) == Some('\\');
    assert ReadString(s) == Prepend('\\', Some(([], "\"]\n")));
    assert ['\\'] + [] == "\\";
    var rest := "\"]\n";
    assert rest[1..] == "]\n";
    assert ReadString("\n") == None;
    assert ReadString("]\n") == None;
  }

  /** The messages the escape as written carries intact: no backslash, and no
      character below U+0020 but tab. */
  predicate Plain(q: string) {
    forall k :: 0 <= k < |q| ==> q[k] != '\\' && IsRaw(q[k])
  }

  /** A plain query, escaped as written and closed by `"`, reads back as
      exactly the query, whatever follows the closing quote. */
  lemma {:induction false} ReadEscapeQuotes(q: string, tail: string)
    requires Plain(q)
    ensures ReadString(EscapeQuotes(q) + "\"" + tail) == Some((q, tail))
    decreases |q|
  {
    if q == [] {
      assert ("\"" + tail)[1..] == tail;
    } else {
      var rest := EscapeQuotes(q[1..]) + "\"" + tail;
      assert Plain(q[1..]) by {
        forall k | 0 <= k < |q[1..]| ensures q[1..][k] != '\\' && IsRaw(q[1..][k]) {
          assert q[1..][k] == q[k + 1];
        }
      }
      ReadEscapeQuotes(q[1..], tail);
      if q[0] == '"' {
        assert EscapeQuotes(q) + "\"" + tail == "\\\"" + rest;
        assert ("\\\"" + rest)[2..] == rest;
      } else {
        assert q[0] != '\\' && IsRaw(q[0]);
        assert EscapeQuotes(q) + "\"" + tail == [q[0]] + rest;
        assert ([q[0]] + rest)[1..] == rest;
      }
      assert [q[0]] + q[1..] == q;
    }
  }

  // ----- The escape a GraphQL string literal needs -----

  /** A hexadecimal digit, in lower case. */
  function HexChar(d: nat): (c: char)
    requires d < 16
    ensures HexDigit(c) == Some(d)
  {
    if d < 10 then ('0' as int + d) as char else ('a' as int + d - 10) as char
  }

  /** The escape of one character as `JSON.stringify` writes it: `"` and `\`
      take a backslash; backspace, tab, line feed, form feed and carriage
      return have their short escapes; every other character below U+0020 is
      `\u00` and two hexadecimal digits; all other characters stand raw. */
  function EscapeChar(c: char): (e: string)
    ensures |e| >= 1
    ensures forall k :: 0 <= k < |e| ==> e[k] >= ' '
  {
    if c == '"' then "\\\""
    else if c == '\\' then "\\\\"
    else if c == '\U{8}' then "\\b"
    else if c == '\t' then "\\t"
    else if c == '\n' then "\\n"
    else if c == '\U{C}' then "\\f"
    else if c == '\r' then "\\r"
    else if c < ' ' then "\\u00" + [HexChar(c as int / 16), HexChar(c as int % 16)]
    else [c]
  }

  /** The corrected escape: `JSON.stringify(query)` without its quotes. No
      character below U+0020, tab included, is left raw. */
  function EscapeGraphQL(q: string): (r: string)
    ensures |r| >= |q|
    ensures forall k :: 0 <= k < |r| ==> r[k] >= ' '
    decreases |q|
  {
    if q == [] then []
    else
      var first := EscapeChar(q[0]);
      var rest := EscapeGraphQL(q[1..]);
      assert forall k :: |first| <= k < |first| + |rest| ==> (first + rest)[k] == rest[k - |first|];
      first + rest
  }

  /** A control character written as a `\u00` escape reads back as itself. */
  lemma ReadUnicodeEscape(c: char, s: string)
    requires c < ' '
    ensures var e := "\\u00" + [HexChar(c as int / 16), HexChar(c as int % 16)];
      ReadString(e + s) == Prepend(c, ReadString(s))
  {
    var e := "\\u00" + [HexChar(c as int / 16), HexChar(c as int % 16)];
    var es := e + s;
    assert es[0] == '\\' && es[1] == 'u' && Unescaped(es[1]).None?;
    assert es[2..6] == e[2..6] == ['0', '0', HexChar(c as int / 16), HexChar(c as int % 16)];
    assert UnicodeEscape(es[2..6]) == Some(c);
    assert es[6..] == s;
  }

  /** One escaped character, read back, is that character. */
  lemma ReadEscapedChar(c: char, s: string)
    ensures ReadString(EscapeChar(c) + s) == Prepend(c, ReadString(s))
  {
    var e := EscapeChar(c);
    if c < ' ' && c != '\U{8}' && c != '\t' && c != '\n' && c != '\U{C}' && c != '\r' {
      ReadUnicodeEscape(c, s);
    } else if |e| == 2 {
      assert (e + s)[0] == '\\' && (e + s)[1] == e[1] && (e + s)[2..] == s;
    } else {
      assert (e + s)[0] == c && (e + s)[1..] == s;
    }
  }

  /** The escaped query, closed by `"`, reads back as exactly the query, and
      the reading stops right after that quote, whatever follows it. */
  lemma {:induction false} ReadEscapeGraphQL(q: string, tail: string)
    ensures ReadString(EscapeGraphQL(q) + "\"" + tail) == Some((q, tail))
    decreases |q|
  {
    if q == [] {
      assert ("\"" + tail)[1..] == tail;
    } else {
      var rest := EscapeGraphQL(q[1..]) + "\"" + tail;
      assert EscapeGraphQL(q) + "\"" + tail == EscapeChar(q[0]) + rest;
      ReadEscapedChar(q[0], rest);
      ReadEscapeGraphQL(q[1..], tail);
      assert [q[0]] + q[1..] == q;
    }
  }

  /** For a query without backslashes or characters below U+0020 the two
      escapes agree: the difference only shows on the inputs above. */
  lemma {:induction false} EscapesAgreeOnPlainText(q: string)
    requires forall k :: 0 <= k < |q| ==> q[k] != '\\' && q[k] >= ' '
    ensures EscapeGraphQL(q) == EscapeQuotes(q)
    decreases |q|
  {
    if q != [] {
      EscapesAgreeOnPlainText(q[1..]);
    }
  }

  /** The concept literal line 242 sends: `"`, the message with its quotes
      escaped, `"`. */
  function SentLiteral(message: string): (literal: string)
    ensures |literal| >= |message| + 2
    ensures literal[0] == '"' && literal[|literal| - 1] == '"'
    ensures literal[1..|literal| - 1] == EscapeQuotes(message)
  {
    "\"" + EscapeQuotes(message) + "\""
  }

  /** What the widget sends reads back as the message when the message is
      plain; the counterexamples above show the other kinds of message. */
  lemma SentLiteralReadsBackPlain(message: string, tail: string)
    requires Plain(message)
    ensures ReadString(SentLiteral(message)[1..] + tail) == Some((message, tail))
  {
    var body := EscapeQuotes(message) + "\"";
    assert SentLiteral(message) == "\"" + body;
    assert ("\"" + body)[1..] == body;
    ReadEscapeQuotes(message, tail);
  }

  /** The concept literal built with the corrected escape:
      `JSON.stringify(message)`. */
  function ConceptLiteral(message: string): (literal: string)
    ensures |literal| >= |message| + 2 && literal[0] == '"'
    ensures ReadString(literal[1..]) == Some((message, []))
  {
    var body := EscapeGraphQL(message) + "\"";
    ReadEscapeGraphQL(message, []);
    assert body + [] == body;
    assert ("\"" + body)[1..] == body;
    "\"" + body
  }

  /** A form feed in the message is written `\f`, where line 242 leaves it
      raw. */
  lemma FormFeedEscaped()
    ensures ConceptLiteral("\U{C}") == "\"\\f\""
    ensures SentLiteral("\U{C}") == "\"\U{C}\""
  {
    assert EscapeGraphQL("\U{C}") == "\\f";
    assert EscapeQuotes("\U{C}") == "\U{C}";
  }

  /** The corrected literal reads back as the message, for every message, and
      the reading stops right after its closing quote whatever follows. */
  lemma ConceptLiteralReadsBack(message: string, tail: string)
    ensures ReadString(ConceptLiteral(message)[1..] + tail) == Some((message, tail))
  {
    var body := EscapeGraphQL(message) + "\"";
    assert ConceptLiteral(message) == "\"" + body;
    assert ("\"" + body)[1..] == body;
    ReadEscapeGraphQL(message, tail);
  }
}
