/** The selector scanner as it runs: one position that moves over the input. */
module SelectorScanner {
  import opened Text
  import opened GoQuote
  import opened Selector

  /** Counting on from `k` characters. */
  function Plus(k: nat, n: Option<nat>): Option<nat> {
    if n.Some? then Some(k + n.value) else None
  }

  /** The length of the literal's tail, counted from `start`, when the scanner stands at `pos` (beyond the input after an
      escape at its end). */
  ghost function LiteralEnd(input: string, start: nat, pos: nat): Option<nat>
    requires start <= pos
  {
    if pos <= |input| then Plus(pos - start, QuotedTail(input[pos..])) else None
  }

  lemma {:induction false} LiteralStep(input: string, start: nat, pos: nat)
    requires start <= pos < |input|
    ensures LiteralEnd(input, start, pos) ==
              if input[pos] == '"' then Some(pos + 1 - start)
              else LiteralEnd(input, start, pos + if input[pos] == '\\' then 2 else 1)
  {
    assert pos + 2 <= |input| ==> input[pos..][2..] == input[pos + 2..];
    assert input[pos..][1..] == input[pos + 1..];
  }

  class Scanner {
    const input: string
    const dots: bool
    var pos: nat

    constructor (input: string, dots: bool)
      ensures this.input == input && this.dots == dots && pos == 0
    {
      this.input, this.dots, pos := input, dots, 0;
    }

    /** The unread input. Stepping over an escape pair may leave `pos` one beyond the end. */
    ghost function Rest(): string
      reads this
    {
      if pos <= |input| then input[pos..] else ""
    }

    predicate AtEnd()
      reads this
    {
      pos >= |input|
    }

    function Peek(): char
      reads this
    {
      if AtEnd() then '\0' else input[pos]
    }

    method Consume(c: char) returns (ok: bool)
      modifies this
      ensures ok == StartsWith(old(Rest()), c)
      ensures Rest() == if ok then old(Rest())[1..] else old(Rest())
      ensures old(pos) <= |input| ==> pos <= |input|
    {
      ok := !AtEnd() && input[pos] == c;
      if ok {
        pos := pos + 1;
      }
    }

    method SkipSpaces()
      requires pos <= |input|
      modifies this
      ensures pos <= |input| && Rest() == SkipSpace(old(Rest()))
    {
      while !AtEnd() && IsSpace(input[pos])
        invariant pos <= |input|
        invariant SkipSpace(Rest()) == SkipSpace(old(Rest()))
        decreases |input| - pos
      {
        assert input[pos..][1..] == input[pos + 1..];
        pos := pos + 1;
      }
    }

    method ParseLabelName() returns (r: Result<string>)
      requires pos <= |input|
      modifies this
      ensures var n := NameLength(old(Rest()), dots);
              if n == 0 then r == Err(ExpectedName)
              else r == Ok(old(Rest())[..n]) && pos <= |input| && Rest() == old(Rest())[n..]
    {
      var start := pos;
      ghost var n := NameLength(Rest(), dots);
      while !AtEnd() && if pos == start then IsNameStart(input[pos]) else IsNamePart(input[pos], dots)
        invariant start <= pos <= |input|
        invariant n == if pos == start then NameLength(Rest(), dots) else pos - start + NameTail(Rest(), dots)
        decreases |input| - pos
      {
        assert input[pos..][1..] == input[pos + 1..];
        pos := pos + 1;
      }
      if pos == start {
        return Err(ExpectedName);
      }
      assert input[start..][..n] == input[start..pos] && input[start..][n..] == input[pos..];
      return Ok(input[start..pos]);
    }

    method ParseOp() returns (r: Result<Op>)
      requires pos <= |input|
      modifies this
      ensures match ReadOp(old(Rest()))
              case None => r == Err(ExpectedOp)
              case Some(op) => r == Ok(op) && pos <= |input| && Rest() == old(Rest())[|OpText(op)|..]
    {
      var rest := input[pos..];
      if "=~" <= rest {
        pos := pos + 2;
        r := Ok(Re);
      } else if "!~" <= rest {
        pos := pos + 2;
        r := Ok(Nre);
      } else if "!=" <= rest {
        pos := pos + 2;
        r := Ok(Neq);
      } else if "=" <= rest {
        pos := pos + 1;
        r := Ok(Eq);
      } else {
        r := Err(ExpectedOp);
      }
    }

    /** Moves beyond the closing quote of a literal, stepping over escape pairs. */
    method ScanLiteral() returns (closed: bool)
      requires pos <= |input|
      modifies this
      ensures match QuotedTail(old(Rest()))
              case None => !closed
              case Some(n) => closed && pos == old(pos) + n
    {
      var start := pos;
      while !AtEnd()
        invariant start <= pos <= |input| + 1
        invariant LiteralEnd(input, start, pos) == LiteralEnd(input, start, start)
        decreases |input| + 1 - pos
      {
        LiteralStep(input, start, pos);
        if input[pos] == '\\' {
          pos := pos + 2;
        } else if input[pos] == '"' {
          pos := pos + 1;
          return true;
        } else {
          pos := pos + 1;
        }
      }
      return false;
    }

    method ScanRaw() returns (closed: bool)
      requires pos <= |input|
      modifies this
      ensures match RawTail(old(Rest()))
              case None => !closed
              case Some(n) => closed && pos == old(pos) + n
    {
      var start := pos;
      ghost var whole := RawTail(Rest());
      while !AtEnd()
        invariant start <= pos <= |input|
        invariant whole == Plus(pos - start, RawTail(input[pos..]))
        decreases |input| - pos
      {
        assert input[pos..][1..] == input[pos + 1..];
        pos := pos + 1;
        if input[pos - 1] == '`' {
          return true;
        }
      }
      return false;
    }

    /** Moves beyond a literal and returns its text, quotes included. */
    method ScanToken() returns (r: Result<string>)
      requires pos <= |input|
      modifies this
      ensures var t := old(Rest());
              if !StartsWith(t, '"') && !StartsWith(t, '`') then r == Err(ExpectedValue)
              else
                var n := if t[0] == '"' then QuotedTail(t[1..]) else RawTail(t[1..]);
                if n.None? then r == Err(UnterminatedValue)
                else r == Ok(t[..1 + n.value]) && pos <= |input| && Rest() == t[1 + n.value..]
    {
      var start := pos;
      var quote := Peek();
      if quote != '"' && quote != '`' {
        return Err(ExpectedValue);
      }
      pos := pos + 1;
      assert input[start..][1..] == Rest();
      var closed;
      if quote == '"' {
        closed := ScanLiteral();
      } else {
        closed := ScanRaw();
      }
      if !closed {
        return Err(UnterminatedValue);
      }
      assert input[start..][..pos - start] == input[start..pos] && input[start..][pos - start..] == Rest();
      return Ok(input[start..pos]);
    }

    method ParseQuotedValue() returns (r: Result<string>)
      requires pos <= |input|
      modifies this
      ensures match ReadValue(old(Rest()))
              case Err(e) => r == Err(e)
              case Ok(v) => r == Ok(v.0) && pos <= |input| && Rest() == v.1
    {
      var token := ScanToken();
      if token.Err? {
        return Err(token.error);
      }
      var v := Unquote(token.value);
      return if v.Some? then Ok(v.value) else Err(BadLiteral);
    }

    method ParseMatcher(lib: Library) returns (r: Result<Matcher>)
      requires pos <= |input|
      modifies this
      ensures match ReadMatcher(lib, old(Rest()), dots)
              case Err(e) => r == Err(e)
              case Ok(m) => r == Ok(m.0) && pos <= |input| && Rest() == m.1
    {
      var name := ParseLabelName();
      if name.Err? {
        return Err(name.error);
      }
      SkipSpaces();
      var op := ParseOp();
      if op.Err? {
        return Err(op.error);
      }
      SkipSpaces();
      var value := ParseQuotedValue();
      if value.Err? {
        return Err(value.error);
      }
      if (op.value.Re? || op.value.Nre?) && !lib.regexCompiles(Anchored(value.value)) {
        return Err(BadRegex);
      }
      return Ok(Matcher(name.value, op.value, value.value));
    }
  }

  lemma {:induction false} FollowingAppends(ms: seq<Matcher>, m: Matcher, more: Result<(seq<Matcher>, string)>)
    ensures Following(ms, Following([m], more)) == Following(ms + [m], more)
    ensures Following([], more) == more
  {
    if more.Ok? {
      assert ms + ([m] + more.value.0) == ms + [m] + more.value.0;
      assert [] + more.value.0 == more.value.0;
    }
  }

  /** The matchers between the braces, collected one clause at a time. */
  method ParseClauses(lib: Library, p: Scanner) returns (r: Result<seq<Matcher>>)
    requires p.pos <= |p.input|
    modifies p
    ensures match ReadList(lib, old(p.Rest()), p.dots)
            case Err(e) => r == Err(e)
            case Ok(list) => r == Ok(list.0) && p.pos <= |p.input| && p.Rest() == list.1
  {
    var ms: seq<Matcher> := [];
    ghost var all := ReadList(lib, p.Rest(), p.dots);
    FollowingAppends([], Matcher("", Eq, ""), all);
    while true
      invariant p.pos <= |p.input|
      invariant all == Following(ms, ReadList(lib, p.Rest(), p.dots))
      decreases |p.input| - p.pos
    {
      ghost var before := |p.Rest()|;
      p.SkipSpaces();
      if p.Peek() == '}' {
        assert ms + [] == ms;
        return Ok(ms);
      }
      var m := p.ParseMatcher(lib);
      if m.Err? {
        return Err(m.error);
      }
      p.SkipSpaces();
      var comma := p.Consume(',');
      FollowingAppends(ms, m.value, ReadList(lib, p.Rest(), p.dots));
      ms := ms + [m.value];
      if !comma {
        return Ok(ms);
      }
      assert |p.Rest()| < before;
    }
  }

  method ParseSelector(lib: Library, input: string, dots: bool) returns (r: Result<seq<Matcher>>)
    ensures r == Parse(lib, input, dots)
  {
    var p := new Scanner(input, dots);
    assert p.Rest() == input;
    p.SkipSpaces();
    var open := p.Consume('{');
    if !open {
      return Err(NoOpeningBrace);
    }
    var ms := ParseClauses(lib, p);
    if ms.Err? {
      return Err(ms.error);
    }
    p.SkipSpaces();
    var close := p.Consume('}');
    if !close {
      return Err(ExpectedCommaOrBrace);
    }
    p.SkipSpaces();
    if !p.AtEnd() {
      return Err(TrailingInput);
    }
    if ms.value == [] {
      return Err(EmptySelector);
    }
    return Ok(ms.value);
  }
}
