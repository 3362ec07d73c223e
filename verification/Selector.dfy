/** Label selectors: `{name op "value", ...}`. What a selector means, the reading functions,
    and the grammar they are proved to accept exactly. */
module Selector {
  import opened Text
  import opened GoQuote
  import opened Picks

  // ----- meaning -----

  datatype Op = Eq | Neq | Re | Nre

  datatype Matcher = Matcher(name: string, op: Op, value: string)

  type Labels = map<string, string>

  /** An absent label reads as the empty string. */
  function Lookup(labels: Labels, name: string): string {
    if name in labels then labels[name] else ""
  }

  function Anchored(pattern: string): string {
    "^(?:" + pattern + ")$"
  }

  predicate MatchValue(lib: Library, m: Matcher, v: string) {
    match m.op
    case Eq => v == m.value
    case Neq => v != m.value
    case Re => lib.regexMatches(Anchored(m.value), v)
    case Nre => !lib.regexMatches(Anchored(m.value), v)
  }

  /** Every matcher of the selector accepts its label. */
  predicate Matches(lib: Library, matchers: seq<Matcher>, labels: Labels) {
    forall m | m in matchers :: MatchValue(lib, m, Lookup(labels, m.name))
  }

  /** What each operator says of a label, present or absent: an absent one counts as empty, `!=` and `!~` are the exact
      opposites of `=` and `=~`, and a pattern has to match the whole value. */
  lemma {:induction false} OperatorsExact(lib: Library, name: string, value: string, labels: Labels)
    ensures Matches(lib, [Matcher(name, Eq, value)], labels) <==>
              (name in labels && labels[name] == value) || (name !in labels && value == "")
    ensures Matches(lib, [Matcher(name, Neq, value)], labels) <==> !Matches(lib, [Matcher(name, Eq, value)], labels)
    ensures Matches(lib, [Matcher(name, Re, value)], labels) <==>
              lib.regexMatches("^(?:" + value + ")$", if name in labels then labels[name] else "")
    ensures Matches(lib, [Matcher(name, Nre, value)], labels) <==> !Matches(lib, [Matcher(name, Re, value)], labels)
  {
    MatchesOne(lib, Matcher(name, Eq, value), labels);
    MatchesOne(lib, Matcher(name, Neq, value), labels);
    MatchesOne(lib, Matcher(name, Re, value), labels);
    MatchesOne(lib, Matcher(name, Nre, value), labels);
  }

  lemma {:induction false} MatchesOne(lib: Library, m: Matcher, labels: Labels)
    ensures Matches(lib, [m], labels) <==> MatchValue(lib, m, Lookup(labels, m.name))
  {
    assert m in [m];
  }

  /** A selector matches exactly when each of its matchers does. */
  lemma {:induction false} MatchesEach(lib: Library, a: seq<Matcher>, b: seq<Matcher>, labels: Labels)
    ensures Matches(lib, [], labels)
    ensures Matches(lib, a + b, labels) <==> Matches(lib, a, labels) && Matches(lib, b, labels)
  {
    assert forall m :: m in a + b <==> m in a || m in b;
  }

  // ----- reading: each function takes the unread text and gives back what is left -----

  datatype ParseError =
    | NoOpeningBrace | ExpectedName | ExpectedOp | ExpectedValue | UnterminatedValue
    | BadLiteral | BadRegex | ExpectedCommaOrBrace | TrailingInput | EmptySelector

  datatype Result<+T> = Ok(value: T) | Err(error: ParseError)

  predicate IsSpace(c: char) {
    c == ' ' || c == '\t' || c == '\n' || c == '\r'
  }

  predicate IsNameStart(c: char) {
    c == '_' || 'a' <= c <= 'z' || 'A' <= c <= 'Z'
  }

  predicate IsNamePart(c: char, dots: bool) {
    IsNameStart(c) || '0' <= c <= '9' || (dots && c == '.')
  }

  predicate StartsWith(t: string, c: char) {
    t != "" && t[0] == c
  }

  function SkipSpace(t: string): (r: string)
    ensures |r| <= |t|
  {
    if t != "" && IsSpace(t[0]) then SkipSpace(t[1..]) else t
  }

  function NameTail(t: string, dots: bool): (n: nat)
    ensures n <= |t|
  {
    if t != "" && IsNamePart(t[0], dots) then 1 + NameTail(t[1..], dots) else 0
  }

  /** Length of the label name at the start of `t`, 0 if there is none. */
  function NameLength(t: string, dots: bool): (n: nat)
    ensures n <= |t|
  {
    if t != "" && IsNameStart(t[0]) then 1 + NameTail(t[1..], dots) else 0
  }

  function OpText(op: Op): string {
    match op
    case Eq => "="
    case Neq => "!="
    case Re => "=~"
    case Nre => "!~"
  }

  function ReadOp(t: string): (r: Option<Op>)
    ensures r.Some? ==> OpText(r.value) <= t
  {
    if "=~" <= t then Some(Re)
    else if "!~" <= t then Some(Nre)
    else if "!=" <= t then Some(Neq)
    else if "=" <= t then Some(Eq)
    else None
  }

  /** Length up to and including the closing quote, stepping over escape pairs. */
  function QuotedTail(t: string): (n: Option<nat>)
    ensures n.Some? ==> n.value <= |t|
  {
    if t == "" then None
    else if t[0] == '"' then Some(1)
    else
      var step := if t[0] == '\\' then 2 else 1;
      if |t| < step then None
      else
        var rest := QuotedTail(t[step..]);
        if rest.Some? then Some(step + rest.value) else None
  }

  function RawTail(t: string): (n: Option<nat>)
    ensures n.Some? ==> n.value <= |t|
  {
    if t == "" then None
    else if t[0] == '`' then Some(1)
    else
      var rest := RawTail(t[1..]);
      if rest.Some? then Some(1 + rest.value) else None
  }

  function ReadValue(t: string): (r: Result<(string, string)>)
    ensures r.Ok? ==> |r.value.1| < |t|
  {
    if !StartsWith(t, '"') && !StartsWith(t, '`') then Err(ExpectedValue)
    else
      var n := if t[0] == '"' then QuotedTail(t[1..]) else RawTail(t[1..]);
      if n.None? then Err(UnterminatedValue)
      else
        var v := Unquote(t[..1 + n.value]);
        if v.Some? then Ok((v.value, t[1 + n.value..])) else Err(BadLiteral)
  }

  predicate Compiles(lib: Library, op: Op, value: string) {
    (op.Re? || op.Nre?) ==> lib.regexCompiles(Anchored(value))
  }

  function ReadMatcher(lib: Library, t: string, dots: bool): (r: Result<(Matcher, string)>)
    ensures r.Ok? ==> |r.value.1| < |t|
  {
    var n := NameLength(t, dots);
    if n == 0 then Err(ExpectedName)
    else
      var t1 := SkipSpace(t[n..]);
      var op := ReadOp(t1);
      if op.None? then Err(ExpectedOp)
      else
        var v := ReadValue(SkipSpace(t1[|OpText(op.value)|..]));
        if v.Err? then Err(v.error)
        else if !Compiles(lib, op.value, v.value.0) then Err(BadRegex)
        else Ok((Matcher(t[..n], op.value, v.value.0), v.value.1))
  }

  /** The matchers up to the closing brace, which is left unread. */
  function ReadList(lib: Library, t: string, dots: bool): Result<(seq<Matcher>, string)>
    decreases |t|
  {
    var u := SkipSpace(t);
    if StartsWith(u, '}') then Ok(([], u))
    else
      var m := ReadMatcher(lib, u, dots);
      if m.Err? then Err(m.error)
      else
        var rest := SkipSpace(m.value.1);
        if !StartsWith(rest, ',') then Ok(([m.value.0], rest))
        else Following([m.value.0], ReadList(lib, rest[1..], dots))
  }

  /** Matchers already read, then the rest of the list. */
  function Following(ms: seq<Matcher>, more: Result<(seq<Matcher>, string)>): Result<(seq<Matcher>, string)> {
    match more
    case Ok(list) => Ok((ms + list.0, list.1))
    case Err(e) => Err(e)
  }

  /** Parse (`dots == false`) and ParseDotted (`dots == true`). */
  function Parse(lib: Library, input: string, dots: bool): Result<seq<Matcher>> {
    var t := SkipSpace(input);
    if !StartsWith(t, '{') then Err(NoOpeningBrace)
    else
      var list := ReadList(lib, t[1..], dots);
      if list.Err? then Err(list.error)
      else
        var close := SkipSpace(list.value.1);
        if !StartsWith(close, '}') then Err(ExpectedCommaOrBrace)
        else if SkipSpace(close[1..]) != "" then Err(TrailingInput)
        else if list.value.0 == [] then Err(EmptySelector)
        else Ok(list.value.0)
  }

  // ----- the grammar, as concrete syntax with its layout -----

  /** `pre name gap1 op gap2 token post`, where the four layout parts are white space. */
  datatype Clause = Clause(pre: string, name: string, gap1: string, op: Op, gap2: string, token: string, post: string)

  /** `lead { clauses tail }`; `trailing` is the layout after a comma that ends the list. */
  datatype Syntax = Syntax(lead: string, clauses: seq<Clause>, trailing: Option<string>, tail: string)

  predicate AllSpace(s: string) {
    forall i | 0 <= i < |s| :: IsSpace(s[i])
  }

  predicate IsName(s: string, dots: bool) {
    s != "" && IsNameStart(s[0]) && forall i | 0 <= i < |s| :: IsNamePart(s[i], dots)
  }

  predicate GoodClause(lib: Library, c: Clause, dots: bool) {
    && AllSpace(c.pre) && AllSpace(c.gap1) && AllSpace(c.gap2) && AllSpace(c.post)
    && IsName(c.name, dots)
    && Unquote(c.token).Some?
    && Compiles(lib, c.op, TokenValue(c.token))
  }

  predicate Good(lib: Library, x: Syntax, dots: bool) {
    && AllSpace(x.lead) && AllSpace(x.tail) && (x.trailing.Some? ==> AllSpace(x.trailing.value))
    && x.clauses != []
    && forall c | c in x.clauses :: GoodClause(lib, c, dots)
  }

  // Texts are written with what follows them, so that the unread text is always a suffix.

  function CoreText(c: Clause, t: string): string {
    c.name + (c.gap1 + (OpText(c.op) + (c.gap2 + (c.token + t))))
  }

  function ListText(clauses: seq<Clause>, trailing: Option<string>, t: string): string
    requires clauses != []
  {
    var c := clauses[0];
    c.pre + CoreText(c, c.post +
                        if |clauses| > 1 then "," + ListText(clauses[1..], trailing, t)
                        else if trailing.Some? then "," + (trailing.value + t)
                        else t)
  }

  function Written(x: Syntax): string
    requires x.clauses != []
  {
    x.lead + ("{" + ListText(x.clauses, x.trailing, "}" + x.tail))
  }

  function TokenValue(token: string): string {
    match Unquote(token)
    case Some(v) => v
    case None => ""
  }

  function ClauseMatcher(c: Clause): Matcher {
    Matcher(c.name, c.op, TokenValue(c.token))
  }

  function Denoted(clauses: seq<Clause>): seq<Matcher> {
    if clauses == [] then [] else [ClauseMatcher(clauses[0])] + Denoted(clauses[1..])
  }

  // ----- everything the grammar derives is accepted -----

  lemma {:induction false} SpaceSkipped(w: string, t: string)
    requires AllSpace(w)
    requires t == "" || !IsSpace(t[0])
    ensures SkipSpace(w + t) == t
  {
    if w == "" {
      assert w + t == t;
    } else {
      assert (w + t)[1..] == w[1..] + t;
      SpaceSkipped(w[1..], t);
    }
  }

  lemma {:induction false} NameTailRead(s: string, dots: bool, t: string)
    requires forall i | 0 <= i < |s| :: IsNamePart(s[i], dots)
    requires t == "" || !IsNamePart(t[0], dots)
    ensures NameTail(s + t, dots) == |s|
  {
    if s == "" {
      assert s + t == t;
    } else {
      assert (s + t)[1..] == s[1..] + t;
      NameTailRead(s[1..], dots, t);
    }
  }

  /** Characters that are neither quote nor backslash only make the literal longer. */
  lemma {:induction false} PlainSkipped(p: string, t: string)
    requires '"' !in p && '\\' !in p
    ensures var n := QuotedTail(t); QuotedTail(p + t) == if n.Some? then Some(|p| + n.value) else None
  {
    if p == "" {
      assert p + t == t;
    } else {
      assert (p + t)[1..] == p[1..] + t;
      PlainSkipped(p[1..], t);
    }
  }

  lemma {:induction false} HexIsPlain(s: string, n: nat)
    requires HexNumber(s, n).Some?
    ensures n <= |s| && '"' !in s[..n] && '\\' !in s[..n]
  {
    if n > 0 {
      HexIsPlain(s, n - 1);
      assert s[..n] == s[..n - 1] + [s[n - 1]];
    }
  }

  lemma {:induction false} EscapeIsPlain(s: string)
    requires |s| >= 2 && s[0] == '\\' && UnquoteChar(s).Some?
    ensures var rest := UnquoteChar(s).value.1;
            2 <= |s| - |rest| && rest == s[|s| - |rest|..] &&
            '"' !in s[2..|s| - |rest|] && '\\' !in s[2..|s| - |rest|]
  {
    if s[1] !in SimpleEscapes && s[1] in "xuU" {
      var n := if s[1] == 'x' then 2 else if s[1] == 'u' then 4 else 8;
      HexIsPlain(s[2..], n);
      assert s[2..2 + n] == s[2..][..n];
    }
  }

  lemma {:induction false} PairAndPlainSkipped(s: string, k: nat, t: string)
    requires 2 <= k <= |s| && s[0] == '\\'
    requires '"' !in s[2..k] && '\\' !in s[2..k]
    ensures var n := QuotedTail(s[k..] + t); QuotedTail(s + t) == if n.Some? then Some(k + n.value) else None
  {
    PlainSkipped(s[2..k], s[k..] + t);
    assert (s + t)[2..] == s[2..k] + (s[k..] + t);
  }

  /** The scanner, which steps over two characters after a backslash, and the literal reader agree on where an
      escape ends. */
  lemma {:induction false} ScannerFollowsEscape(s: string, t: string)
    requires s != "" && s[0] != '"' && UnquoteChar(s).Some?
    ensures var rest := UnquoteChar(s).value.1;
            var n := QuotedTail(rest + t);
            QuotedTail(s + t) == if n.Some? then Some(|s| - |rest| + n.value) else None
  {
    var rest := UnquoteChar(s).value.1;
    if s[0] != '\\' {
      assert (s + t)[1..] == rest + t;
    } else {
      EscapeIsPlain(s);
      PairAndPlainSkipped(s, |s| - |rest|, t);
    }
  }

  lemma {:induction false} LiteralScanned(s: string, t: string)
    requires UnquoteRest(s).Some?
    ensures QuotedTail(s + t) == Some(|s|)
    decreases |s|
  {
    if s[0] != '"' {
      ScannerFollowsEscape(s, t);
      LiteralScanned(UnquoteChar(s).value.1, t);
    }
  }

  lemma {:induction false} RawScanned(s: string, t: string)
    requires '`' !in s
    ensures RawTail(s + "`" + t) == Some(|s| + 1)
  {
    if s != "" {
      assert (s + "`" + t)[1..] == s[1..] + "`" + t;
      RawScanned(s[1..], t);
    }
  }

  lemma {:induction false} TokenRead(token: string, t: string)
    requires Unquote(token).Some?
    ensures ReadValue(token + t) == Ok((TokenValue(token), t))
  {
    assert (token + t)[1..] == token[1..] + t;
    if token[0] == '"' {
      LiteralScanned(token[1..], t);
    } else {
      RawScanned(token[1..|token| - 1], t);
      assert token[1..] + t == token[1..|token| - 1] + "`" + t;
    }
    assert (token + t)[..|token|] == token && (token + t)[|token|..] == t;
  }

  lemma {:induction false} NameRead(name: string, dots: bool, t: string)
    requires IsName(name, dots)
    requires t != "" && !IsNamePart(t[0], dots)
    ensures NameLength(name + t, dots) == |name|
    ensures (name + t)[..|name|] == name && (name + t)[|name|..] == t
  {
    assert (name + t)[1..] == name[1..] + t;
    NameTailRead(name[1..], dots, t);
  }

  lemma {:induction false} OpRead(op: Op, t: string)
    requires t != "" && t[0] != '~'
    ensures ReadOp(OpText(op) + t) == Some(op)
    ensures (OpText(op) + t)[|OpText(op)|..] == t
  {
    var u := OpText(op) + t;
    assert u[0] == OpText(op)[0] && u[1] == if op.Eq? then t[0] else OpText(op)[1];
    assert op.Re? ==> u[..2] == "=~";
    assert op.Nre? ==> u[..2] == "!~";
    assert op.Neq? ==> u[..2] == "!=";
  }

  lemma {:induction false} OpAndValueRead(op: Op, gap: string, token: string, t: string)
    requires AllSpace(gap) && Unquote(token).Some?
    ensures var u := gap + (token + t);
            ReadOp(OpText(op) + u) == Some(op) && (OpText(op) + u)[|OpText(op)|..] == u &&
            ReadValue(SkipSpace(u)) == Ok((TokenValue(token), t))
  {
    var u := gap + (token + t);
    assert u[0] == if gap == "" then token[0] else gap[0];
    OpRead(op, u);
    SpaceSkipped(gap, token + t);
    TokenRead(token, t);
  }

  lemma {:induction false} NameAndGapRead(name: string, dots: bool, gap: string, op: Op, t: string)
    requires IsName(name, dots) && AllSpace(gap)
    ensures var u := name + (gap + (OpText(op) + t));
            NameLength(u, dots) == |name| && u[..|name|] == name &&
            SkipSpace(u[|name|..]) == OpText(op) + t
  {
    var v := gap + (OpText(op) + t);
    assert v[0] == if gap == "" then OpText(op)[0] else gap[0];
    NameRead(name, dots, v);
    SpaceSkipped(gap, OpText(op) + t);
  }

  lemma {:induction false} ClauseRead(lib: Library, c: Clause, dots: bool, t: string)
    requires GoodClause(lib, c, dots)
    ensures ReadMatcher(lib, CoreText(c, t), dots) == Ok((ClauseMatcher(c), t))
    ensures CoreText(c, t) != "" && !IsSpace(CoreText(c, t)[0]) && CoreText(c, t)[0] != '}'
  {
    NameAndGapRead(c.name, dots, c.gap1, c.op, c.gap2 + (c.token + t));
    OpAndValueRead(c.op, c.gap2, c.token, t);
  }

  /** One clause of a list is read, then whatever follows its comma. */
  lemma {:induction false} ClauseInList(lib: Library, c: Clause, dots: bool, after: string)
    requires GoodClause(lib, c, dots)
    requires after != "" && !IsSpace(after[0])
    ensures ReadList(lib, c.pre + CoreText(c, c.post + after), dots) ==
            if after[0] != ',' then Ok(([ClauseMatcher(c)], after))
            else Following([ClauseMatcher(c)], ReadList(lib, after[1..], dots))
  {
    ClauseRead(lib, c, dots, c.post + after);
    SpaceSkipped(c.pre, CoreText(c, c.post + after));
    SpaceSkipped(c.post, after);
  }

  lemma {:induction false} ListRead(lib: Library, clauses: seq<Clause>, trailing: Option<string>, dots: bool, t: string)
    requires clauses != [] && forall c | c in clauses :: GoodClause(lib, c, dots)
    requires trailing.Some? ==> AllSpace(trailing.value)
    requires StartsWith(t, '}')
    ensures ReadList(lib, ListText(clauses, trailing, t), dots) == Ok((Denoted(clauses), t))
  {
    var c := clauses[0];
    if |clauses| > 1 {
      var more := ListText(clauses[1..], trailing, t);
      ClauseInList(lib, c, dots, "," + more);
      ListRead(lib, clauses[1..], trailing, dots, t);
      assert ("," + more)[1..] == more;
    } else if trailing.Some? {
      var more := trailing.value + t;
      ClauseInList(lib, c, dots, "," + more);
      SpaceSkipped(trailing.value, t);
      assert ("," + more)[1..] == more;
    } else {
      ClauseInList(lib, c, dots, t);
      assert Denoted(clauses) == [ClauseMatcher(c)];
    }
  }

  /** Whatever the grammar derives is accepted, with its matchers in order. */
  lemma {:induction false} GrammarAccepted(lib: Library, x: Syntax, dots: bool)
    requires Good(lib, x, dots)
    ensures Parse(lib, Written(x), dots) == Ok(Denoted(x.clauses))
  {
    var t := "}" + x.tail;
    var list := ListText(x.clauses, x.trailing, t);
    SpaceSkipped(x.lead, "{" + list);
    ListRead(lib, x.clauses, x.trailing, dots, t);
    assert ("{" + list)[1..] == list && t[1..] == x.tail;
    SpaceSkipped(x.tail, "");
    assert x.tail + "" == x.tail;
  }

  // ----- everything accepted is derived -----

  lemma {:induction false} SpaceSplit(t: string) returns (w: string)
    ensures AllSpace(w) && t == w + SkipSpace(t)
  {
    if t != "" && IsSpace(t[0]) {
      var rest := SpaceSplit(t[1..]);
      w := [t[0]] + rest;
    } else {
      w := "";
    }
  }

  lemma {:induction false} NameTailIsName(t: string, dots: bool)
    ensures forall i | 0 <= i < NameTail(t, dots) :: IsNamePart(t[i], dots)
  {
    if t != "" && IsNamePart(t[0], dots) {
      NameTailIsName(t[1..], dots);
      var n := NameTail(t[1..], dots);
      assert t[..1 + n] == [t[0]] + t[1..][..n];
    }
  }

  lemma {:induction false} ReadValueSplits(t: string) returns (token: string)
    requires ReadValue(t).Ok?
    ensures t == token + ReadValue(t).value.1
    ensures Unquote(token) == Some(ReadValue(t).value.0)
  {
    token := t[..|t| - |ReadValue(t).value.1|];
  }

  lemma {:induction false} NameSplits(t: string, dots: bool)
    requires NameLength(t, dots) > 0
    ensures IsName(t[..NameLength(t, dots)], dots)
  {
    NameTailIsName(t[1..], dots);
    var n := NameLength(t, dots);
    assert t[..n] == [t[0]] + t[1..][..n - 1];
  }

  lemma {:induction false} OpAndValueSplit(t: string) returns (gap: string, token: string)
    requires ReadOp(t).Some? && ReadValue(SkipSpace(t[|OpText(ReadOp(t).value)|..])).Ok?
    ensures var op := ReadOp(t).value;
            var v := ReadValue(SkipSpace(t[|OpText(op)|..])).value;
            t == OpText(op) + (gap + (token + v.1)) && AllSpace(gap) && Unquote(token) == Some(v.0)
  {
    var rest := t[|OpText(ReadOp(t).value)|..];
    gap := SpaceSplit(rest);
    token := ReadValueSplits(SkipSpace(rest));
  }

  lemma {:induction false} ReadMatcherSplits(lib: Library, t: string, dots: bool) returns (c: Clause)
    requires ReadMatcher(lib, t, dots).Ok?
    ensures GoodClause(lib, c, dots) && c.pre == "" && c.post == ""
    ensures t == CoreText(c, ReadMatcher(lib, t, dots).value.1)
    ensures ReadMatcher(lib, t, dots).value.0 == ClauseMatcher(c)
  {
    var n := NameLength(t, dots);
    NameSplits(t, dots);
    var gap1 := SpaceSplit(t[n..]);
    var gap2, token := OpAndValueSplit(SkipSpace(t[n..]));
    c := Clause("", t[..n], gap1, ReadOp(SkipSpace(t[n..])).value, gap2, token, "");
    assert t == t[..n] + t[n..];
  }

  lemma {:induction false} FirstClauseSplits(lib: Library, t: string, dots: bool) returns (c: Clause, rest: string)
    requires ReadMatcher(lib, SkipSpace(t), dots).Ok?
    ensures GoodClause(lib, c, dots)
    ensures ReadMatcher(lib, SkipSpace(t), dots).value.0 == ClauseMatcher(c)
    ensures rest == SkipSpace(ReadMatcher(lib, SkipSpace(t), dots).value.1)
    ensures t == c.pre + CoreText(c, c.post + rest)
  {
    var pre := SpaceSplit(t);
    var bare := ReadMatcherSplits(lib, SkipSpace(t), dots);
    var after := ReadMatcher(lib, SkipSpace(t), dots).value.1;
    var post := SpaceSplit(after);
    rest := SkipSpace(after);
    c := bare.(pre := pre, post := post);
  }

  /** A list that is read starts with a clause, and what follows its comma is read in turn. */
  lemma {:induction false} ListSplits(lib: Library, t: string, dots: bool) returns (c: Clause, rest: string)
    requires ReadList(lib, t, dots).Ok? && ReadList(lib, t, dots).value.0 != []
    ensures GoodClause(lib, c, dots) && t == c.pre + CoreText(c, c.post + rest)
    ensures ReadList(lib, t, dots) ==
            if !StartsWith(rest, ',') then Ok(([ClauseMatcher(c)], rest))
            else Following([ClauseMatcher(c)], ReadList(lib, rest[1..], dots))
    ensures |rest| <= |t|
  {
    c, rest := FirstClauseSplits(lib, t, dots);
  }

  lemma {:induction false} ReadListSplits(lib: Library, t: string, dots: bool)
    returns (clauses: seq<Clause>, trailing: Option<string>)
    requires ReadList(lib, t, dots).Ok? && ReadList(lib, t, dots).value.0 != []
    ensures clauses != [] && forall c | c in clauses :: GoodClause(lib, c, dots)
    ensures trailing.Some? ==> AllSpace(trailing.value)
    ensures ReadList(lib, t, dots).value.0 == Denoted(clauses)
    ensures t == ListText(clauses, trailing, ReadList(lib, t, dots).value.1)
    decreases |t|
  {
    var c, rest := ListSplits(lib, t, dots);
    clauses, trailing := [c], None;
    assert Denoted([c]) == [ClauseMatcher(c)];
    if StartsWith(rest, ',') {
      assert rest == "," + rest[1..];
      var more := ReadList(lib, rest[1..], dots);
      if more.value.0 == [] {
        EmptyListSplits(lib, rest[1..], dots);
        var w := SpaceSplit(rest[1..]);
        trailing := Some(w);
      } else {
        var cs, tr := ReadListSplits(lib, rest[1..], dots);
        clauses, trailing := [c] + cs, tr;
        assert clauses[1..] == cs;
      }
    }
  }

  lemma {:induction false} EmptyListSplits(lib: Library, t: string, dots: bool)
    requires ReadList(lib, t, dots).Ok? && ReadList(lib, t, dots).value.0 == []
    ensures ReadList(lib, t, dots).value.1 == SkipSpace(t)
  {
  }

  /** Whatever is accepted was derived by the grammar, and means the matchers it denotes. */
  lemma {:induction false} AcceptedInGrammar(lib: Library, input: string, dots: bool) returns (x: Syntax)
    requires Parse(lib, input, dots).Ok?
    ensures Good(lib, x, dots) && input == Written(x)
    ensures Parse(lib, input, dots).value == Denoted(x.clauses)
  {
    var lead := SpaceSplit(input);
    var t := SkipSpace(input);
    var clauses, trailing := ReadListSplits(lib, t[1..], dots);
    ListStopsAtToken(lib, t[1..], dots);
    var close := ReadList(lib, t[1..], dots).value.1;
    var tail := SpaceSplit(close[1..]);
    assert t == "{" + t[1..] && close == "}" + close[1..];
    x := Syntax(lead, clauses, trailing, tail);
    assert tail + "" == tail;
  }

  /** The list is left at its end or at a character that is not white space. */
  lemma {:induction false} ListStopsAtToken(lib: Library, t: string, dots: bool)
    requires ReadList(lib, t, dots).Ok?
    ensures SkipSpace(ReadList(lib, t, dots).value.1) == ReadList(lib, t, dots).value.1
    decreases |t|
  {
    var u := SkipSpace(t);
    SkipSpaceTwice(t);
    if !StartsWith(u, '}') {
      var rest := ReadMatcher(lib, u, dots).value.1;
      SkipSpaceTwice(rest);
      if StartsWith(SkipSpace(rest), ',') {
        ListStopsAtToken(lib, SkipSpace(rest)[1..], dots);
      }
    }
  }

  lemma {:induction false} SkipSpaceTwice(t: string)
    ensures SkipSpace(SkipSpace(t)) == SkipSpace(t)
  {
    if t != "" && IsSpace(t[0]) {
      SkipSpaceTwice(t[1..]);
    }
  }

  /** The scanner accepts exactly the selector grammar. */
  lemma {:induction false} AcceptsExactlyTheGrammar(lib: Library, input: string, dots: bool, ms: seq<Matcher>)
    ensures Parse(lib, input, dots) == Ok(ms) <==>
            exists x: Syntax :: Good(lib, x, dots) && Written(x) == input && Denoted(x.clauses) == ms
  {
    if Parse(lib, input, dots) == Ok(ms) {
      var x := AcceptedInGrammar(lib, input, dots);
    }
    forall x: Syntax | Good(lib, x, dots) && Written(x) == input && Denoted(x.clauses) == ms
      ensures Parse(lib, input, dots) == Ok(ms)
    {
      GrammarAccepted(lib, x, dots);
    }
  }

  /** The dotted dialect gives the same answer on everything the plain dialect accepts. */
  lemma {:induction false} DottedExtendsPlain(lib: Library, input: string)
    requires Parse(lib, input, false).Ok?
    ensures Parse(lib, input, true) == Parse(lib, input, false)
  {
    var x := AcceptedInGrammar(lib, input, false);
    GrammarAccepted(lib, x, true);
  }

  /** Lists of selectors are read one by one; those that do not parse are skipped. */
  ghost function ParseRule(lib: Library, dots: bool): string -> Option<seq<Matcher>> {
    (s: string) => match Parse(lib, s, dots) case Ok(ms) => Some(ms) case Err(_) => None
  }
}
