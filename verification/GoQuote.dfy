/** Go's string quoting (the "String literals" section of the Go Language Specification):
    `Quote` as strconv.Quote prints it, `Unquote` as strconv.Unquote reads it. */
module GoQuote {
  import opened Text

  // ----- reading -----

  /** The number written by the first `n` characters of `s` in base 16. */
  function HexNumber(s: string, n: nat): Option<int> {
    if n == 0 then Some(0)
    else if |s| < n then None
    else
      var front := HexNumber(s, n - 1);
      var digit := Unhex(s[n - 1]);
      if front.Some? && digit.Some? then Some(front.value * 16 + digit.value) else None
  }

  /** A Unicode scalar value: surrogate halves and numbers above U+10FFFF are no character. */
  predicate IsScalar(v: int) {
    0 <= v < 0xD800 || 0xE000 <= v < 0x11_0000
  }

  const SimpleEscapes: map<char, char> := map[
    'a' := '\U{7}', 'b' := '\U{8}', 'f' := '\U{c}', 'n' := '\n', 'r' := '\r', 't' := '\t', 'v' := '\U{b}',
    '\\' := '\\', '"' := '"']

  function HexEscape(s: string, n: nat, limit: int): (r: Option<(char, string)>)
    ensures r.Some? ==> |r.value.1| <= |s|
  {
    var v := HexNumber(s, n);
    if v.Some? && v.value < limit && IsScalar(v.value) && n <= |s| then Some((v.value as char, s[n..])) else None
  }

  predicate IsOctal(c: char) {
    '0' <= c <= '7'
  }

  /** An octal escape with its three digits `s[0..3]`. Like `\x`, it names one byte; only ASCII bytes are characters. */
  function OctalEscape(s: string): (r: Option<(char, string)>)
    ensures r.Some? ==> |r.value.1| < |s|
  {
    if |s| < 3 || !IsOctal(s[0]) || !IsOctal(s[1]) || !IsOctal(s[2]) then None
    else
      var v := (s[0] as int - 48) * 64 + (s[1] as int - 48) * 8 + (s[2] as int - 48);
      if v < 0x80 then Some((v as char, s[3..])) else None
  }

  /** One character of a double-quoted string and what follows it. */
  function UnquoteChar(s: string): (r: Option<(char, string)>)
    requires s != ""
    ensures r.Some? ==> |r.value.1| < |s|
  {
    if s[0] != '\\' then (if s[0] == '\n' then None else Some((s[0], s[1..])))
    else if |s| == 1 then None
    else if s[1] in SimpleEscapes then Some((SimpleEscapes[s[1]], s[2..]))
    else if s[1] == 'x' then HexEscape(s[2..], 2, 0x80)
    else if s[1] == 'u' then HexEscape(s[2..], 4, 0x11_0000)
    else if s[1] == 'U' then HexEscape(s[2..], 8, 0x11_0000)
    else OctalEscape(s[1..])
  }

  /** The rest of a double-quoted string after its opening quote. */
  function UnquoteRest(s: string): Option<string>
    decreases |s|
  {
    if s == "" then None
    else if s[0] == '"' then (if |s| == 1 then Some("") else None)
    else
      var c := UnquoteChar(s);
      if c.None? then None
      else
        var rest := UnquoteRest(c.value.1);
        if rest.Some? then Some([c.value.0] + rest.value) else None
  }

  function WithoutReturns(s: string): string {
    if s == "" then "" else (if s[0] == '\r' then "" else [s[0]]) + WithoutReturns(s[1..])
  }

  /** The value of a double-quoted or raw (back-quoted) string literal. */
  function Unquote(t: string): Option<string> {
    if |t| < 2 then None
    else if t[0] == '"' then UnquoteRest(t[1..])
    else if t[0] == '`' && t[|t| - 1] == '`' && '`' !in t[1..|t| - 1] then Some(WithoutReturns(t[1..|t| - 1]))
    else None
  }

  // ----- printing -----

  predicate IsPrint(lib: Library, c: char) {
    if c < '\U{80}' then ' ' <= c <= '~' else lib.isPrintBeyondAscii(c)
  }

  /** The `n` lower-case base-16 digits of `v`. */
  function HexDigits(v: int, n: nat): string
    requires 0 <= v
  {
    if n == 0 then "" else HexDigits(v / 16, n - 1) + [HexDigit(v % 16)]
  }

  function QuoteChar(lib: Library, c: char): string {
    if c == '"' || c == '\\' then ['\\', c]
    else if IsPrint(lib, c) then [c]
    else if c == '\U{7}' then "\\a"
    else if c == '\U{8}' then "\\b"
    else if c == '\U{c}' then "\\f"
    else if c == '\n' then "\\n"
    else if c == '\r' then "\\r"
    else if c == '\t' then "\\t"
    else if c == '\U{b}' then "\\v"
    else if c < ' ' || c == '\U{7f}' then "\\x" + HexDigits(c as int, 2)
    else if c as int < 0x1_0000 then "\\u" + HexDigits(c as int, 4)
    else "\\U" + HexDigits(c as int, 8)
  }

  function QuoteChars(lib: Library, s: string): string {
    if s == "" then "" else QuoteChar(lib, s[0]) + QuoteChars(lib, s[1..])
  }

  function Quote(lib: Library, s: string): string {
    "\"" + QuoteChars(lib, s) + "\""
  }

  // ----- reading back what was printed -----

  function Pow16(n: nat): int {
    if n == 0 then 1 else 16 * Pow16(n - 1)
  }

  lemma {:induction false} HexDigitsRead(v: int, n: nat, tail: string)
    requires 0 <= v < Pow16(n)
    ensures |HexDigits(v, n)| == n
    ensures HexNumber(HexDigits(v, n) + tail, n) == Some(v)
  {
    if n > 0 {
      var front := HexDigits(v / 16, n - 1);
      HexDigitsRead(v / 16, n - 1, [HexDigit(v % 16)] + tail);
      UnhexHexDigit(v % 16);
      assert front + ([HexDigit(v % 16)] + tail) == HexDigits(v, n) + tail;
    }
  }

  lemma {:induction false} ScalarChar(c: char)
    ensures IsScalar(c as int)
  {
  }

  lemma {:induction false} HexEscapeReads(c: char, n: nat, limit: int, tail: string)
    requires c as int < Pow16(n) && c as int < limit
    ensures HexEscape(HexDigits(c as int, n) + tail, n, limit) == Some((c, tail))
  {
    HexDigitsRead(c as int, n, tail);
    ScalarChar(c);
    assert (HexDigits(c as int, n) + tail)[n..] == tail;
  }

  lemma {:induction false} Powers()
    ensures Pow16(2) == 0x100 && Pow16(4) == 0x1_0000 && Pow16(8) == 0x1_0000_0000
  {
    assert Pow16(4) == 256 * Pow16(2) && Pow16(6) == 256 * Pow16(4) && Pow16(8) == 256 * Pow16(6);
  }

  /** A backslash and a letter hand over to the numeric escape of that letter. */
  lemma {:induction false} NumericEscapeReads(n: nat, letter: char, rest: string)
    requires (n, letter) in {(2, 'x'), (4, 'u'), (8, 'U')}
    ensures UnquoteChar(['\\', letter] + rest) == HexEscape(rest, n, if n == 2 then 0x80 else 0x11_0000)
  {
    assert (['\\', letter] + rest)[2..] == rest;
  }

  lemma {:induction false} QuotedHexReads(c: char, n: nat, letter: char, tail: string)
    requires (n, letter) in {(2, 'x'), (4, 'u'), (8, 'U')}
    requires n == 2 ==> c as int < 0x80
    requires n == 4 ==> c as int < 0x1_0000
    ensures UnquoteChar(['\\', letter] + HexDigits(c as int, n) + tail) == Some((c, tail))
  {
    Powers();
    var digits := HexDigits(c as int, n);
    HexEscapeReads(c, n, if n == 2 then 0x80 else 0x11_0000, tail);
    NumericEscapeReads(n, letter, digits + tail);
    assert ['\\', letter] + digits + tail == ['\\', letter] + (digits + tail);
  }

  lemma {:induction false} QuotedSimpleReads(letter: char, tail: string)
    requires letter in SimpleEscapes
    ensures UnquoteChar(['\\', letter] + tail) == Some((SimpleEscapes[letter], tail))
  {
    assert (['\\', letter] + tail)[2..] == tail;
  }

  /** However a character is printed, reading it back gives the character and leaves what follows. */
  lemma {:induction false} QuotedCharReads(lib: Library, c: char, tail: string)
    ensures var q := QuoteChar(lib, c) + tail; q[0] != '"' && UnquoteChar(q) == Some((c, tail))
  {
    var q := QuoteChar(lib, c);
    if IsPrint(lib, c) && c != '"' && c != '\\' {
      assert (q + tail)[1..] == tail;
    } else if |q| == 2 {
      assert q == ['\\', q[1]];
      QuotedSimpleReads(q[1], tail);
    } else if c < ' ' || c == '\U{7f}' {
      QuotedHexReads(c, 2, 'x', tail);
    } else if c as int < 0x1_0000 {
      QuotedHexReads(c, 4, 'u', tail);
    } else {
      QuotedHexReads(c, 8, 'U', tail);
    }
  }

  /** Unquoting undoes quoting, for every string and whatever counts as printable beyond ASCII. */
  lemma {:induction false} QuoteRoundTrip(lib: Library, s: string)
    ensures Unquote(Quote(lib, s)) == Some(s)
  {
    QuoteRestReads(lib, s);
    assert Quote(lib, s)[1..] == QuoteChars(lib, s) + "\"";
  }

  lemma {:induction false} QuotedStep(lib: Library, c: char, tail: string, value: string)
    requires UnquoteRest(tail) == Some(value)
    ensures UnquoteRest(QuoteChar(lib, c) + tail) == Some([c] + value)
  {
    QuotedCharReads(lib, c, tail);
  }

  lemma {:induction false} QuoteRestReads(lib: Library, s: string)
    ensures UnquoteRest(QuoteChars(lib, s) + "\"") == Some(s)
  {
    if s == "" {
      assert QuoteChars(lib, s) + "\"" == "\"";
    } else {
      var first, rest := QuoteChar(lib, s[0]), QuoteChars(lib, s[1..]);
      QuoteRestReads(lib, s[1..]);
      QuotedStep(lib, s[0], rest + "\"", s[1..]);
      assert first + rest + "\"" == first + (rest + "\"");
      assert s == [s[0]] + s[1..];
    }
  }

  /** A literal without escapes means the characters between its quotes. */
  lemma {:induction false} PlainLiteralReads(s: string)
    requires '"' !in s && '\\' !in s && '\n' !in s
    ensures UnquoteRest(s + "\"") == Some(s)
  {
    if s != "" {
      PlainLiteralReads(s[1..]);
      assert (s + "\"")[1..] == s[1..] + "\"";
      assert s == [s[0]] + s[1..];
    }
  }

  // ----- what the escapes denote -----

  lemma {:induction false} EscapeThenClose(escape: string, c: char)
    requires escape != "" && escape[0] != '"' && UnquoteChar(escape + "\"") == Some((c, "\""))
    ensures Unquote("\"" + (escape + "\"")) == Some([c])
  {
    var t := "\"" + (escape + "\"");
    assert t[1..] == escape + "\"";
    assert UnquoteRest("\"") == Some("");
    assert [c] + "" == [c];
  }

  /** The escapes of the Go Language Specification, by the code points they stand for. */
  lemma {:induction false} EscapeDenotes(e: char, code: int)
    requires (e, code) in [('a', 7), ('b', 8), ('t', 9), ('n', 10), ('v', 11), ('f', 12), ('r', 13), ('"', 34), ('\\', 92)]
    ensures Unquote(['"', '\\', e, '"']) == Some([code as char])
  {
    var escape := ['\\', e];
    assert (escape + "\"")[2..] == "\"";
    assert SimpleEscapes[e] == code as char;
    EscapeThenClose(escape, code as char);
    assert "\"" + (escape + "\"") == ['"', '\\', e, '"'];
  }

  /** A numeric escape stands for the number its digits write. */
  lemma {:induction false} HexEscapeDenotes(kind: char, digits: string, v: int)
    requires (kind == 'x' && |digits| == 2) || (kind == 'u' && |digits| == 4) || (kind == 'U' && |digits| == 8)
    requires HexNumber(digits, |digits|) == Some(v) && IsScalar(v) && (kind == 'x' ==> v < 0x80)
    ensures Unquote("\"" + (['\\', kind] + digits + "\"")) == Some([v as char])
  {
    var escape := ['\\', kind] + digits;
    NumericEscapeReads(|digits|, kind, digits + "\"");
    assert escape + "\"" == ['\\', kind] + (digits + "\"");
    HexNumberPrefix(digits, "\"", |digits|);
    assert (digits + "\"")[|digits|..] == "\"";
    EscapeThenClose(escape, v as char);
  }

  lemma {:induction false} HexNumberPrefix(s: string, t: string, n: nat)
    requires n <= |s|
    ensures HexNumber(s + t, n) == HexNumber(s, n)
  {
    if n > 0 {
      HexNumberPrefix(s, t, n - 1);
    }
  }
}
