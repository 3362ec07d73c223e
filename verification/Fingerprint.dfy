/** The text a series is identified by: `metric{name1="value1",...}` with the names in order. */
module Fingerprint {
  import opened Text
  import opened GoQuote
  import opened Selector

  // ----- the order of label names -----

  /** Strict order by code point, which for text is also the order of its bytes. */
  predicate Before(a: string, b: string) {
    b != "" && (a == "" || a[0] < b[0] || (a[0] == b[0] && Before(a[1..], b[1..])))
  }

  /** `b` is larger at the first difference. */
  ghost predicate DiffersAt(a: string, b: string, i: nat) {
    i < |a| && i < |b| && a[..i] == b[..i] && a[i] < b[i]
  }

  lemma {:induction false} DiffersNext(c: char, a: string, b: string, i: nat)
    ensures DiffersAt([c] + a, [c] + b, i + 1) <==> DiffersAt(a, b, i)
    ensures !DiffersAt([c] + a, [c] + b, 0)
  {
    if i < |a| && i < |b| {
      assert ([c] + a)[..i + 1] == [c] + a[..i] && ([c] + b)[..i + 1] == [c] + b[..i];
      assert ([c] + a)[..i + 1][1..] == a[..i] && ([c] + b)[..i + 1][1..] == b[..i];
    }
  }

  lemma {:induction false} DiffersFirst(a: string, b: string, i: nat)
    requires a != "" && b != "" && a[0] != b[0]
    ensures DiffersAt(a, b, i) <==> i == 0 && a[0] < b[0]
  {
    assert 0 < i < |a| && i < |b| ==> a[..i][0] == a[0] && b[..i][0] == b[0];
  }

  /** The first difference decides; without one, the shorter text comes first. */
  lemma {:induction false} BeforeIff(a: string, b: string)
    ensures Before(a, b) <==> a < b || exists i: nat :: DiffersAt(a, b, i)
  {
    if a != "" && b != "" && a[0] == b[0] {
      var x, y := a[1..], b[1..];
      assert a == [a[0]] + x && b == [a[0]] + y;
      BeforeIff(x, y);
      if i: nat :| DiffersAt(x, y, i) {
        DiffersNext(a[0], x, y, i);
      }
      if i: nat :| DiffersAt(a, b, i) {
        DiffersNext(a[0], x, y, if i == 0 then 0 else i - 1);
      }
      assert a < b <==> x < y;
    } else if a != "" && b != "" {
      DiffersFirst(a, b, 0);
      if i: nat :| DiffersAt(a, b, i) {
        DiffersFirst(a, b, i);
      }
    }
  }

  lemma {:induction false} BeforeTotal(a: string, b: string)
    ensures !Before(a, a)
    ensures a != b ==> Before(a, b) || Before(b, a)
  {
    if a != "" {
      BeforeTotal(a[1..], if b == "" then "" else b[1..]);
      assert a == [a[0]] + a[1..];
      assert b != "" ==> b == [b[0]] + b[1..];
    }
  }

  lemma {:induction false} BeforeTransitive(a: string, b: string, c: string)
    requires Before(a, b) && Before(b, c)
    ensures Before(a, c)
  {
    if a != "" && a[0] == b[0] == c[0] {
      BeforeTransitive(a[1..], b[1..], c[1..]);
    }
  }

  predicate Ascending(names: seq<string>) {
    forall i, j | 0 <= i < j < |names| :: Before(names[i], names[j])
  }

  ghost predicate Lists(names: seq<string>, s: set<string>) {
    Ascending(names) && forall n :: n in names <==> n in s
  }

  /** An ascending list is determined by its elements. */
  lemma {:induction false} ListingUnique(a: seq<string>, b: seq<string>, s: set<string>)
    requires Lists(a, s) && Lists(b, s)
    ensures a == b
  {
    assert a == [] <==> s == {} by {
      assert a != [] ==> a[0] in a;
      assert s == set n | n in a;
    }
    assert b == [] <==> s == {} by {
      assert b != [] ==> b[0] in b;
      assert s == set n | n in b;
    }
    if a != [] {
      assert a[0] in s && b[0] in s;
      FirstIsLeast(a, s, b[0]);
      FirstIsLeast(b, s, a[0]);
      if a[0] != b[0] {
        BeforeTransitive(a[0], b[0], a[0]);
        BeforeTotal(a[0], a[0]);
      }
      DropFirst(a, s);
      DropFirst(b, s);
      ListingUnique(a[1..], b[1..], s - {a[0]});
      assert a == [a[0]] + a[1..] && b == [b[0]] + b[1..];
    }
  }

  lemma {:induction false} FirstIsLeast(a: seq<string>, s: set<string>, n: string)
    requires Lists(a, s) && a != [] && n in s
    ensures n == a[0] || Before(a[0], n)
  {
    var i :| 0 <= i < |a| && a[i] == n;
  }

  lemma {:induction false} DropFirst(a: seq<string>, s: set<string>)
    requires Lists(a, s) && a != []
    ensures Lists(a[1..], s - {a[0]})
  {
    BeforeTotal(a[0], a[0]);
    assert a == [a[0]] + a[1..];
    assert forall n | n in a[1..] :: Before(a[0], n);
  }

  /** `n` put in its place among ascending names. */
  function Inserted(names: seq<string>, n: string): (out: seq<string>)
    requires Ascending(names) && n !in names
    ensures Ascending(out) && forall x :: x in out <==> x in names || x == n
  {
    if names == [] then [n]
    else
      BeforeTotal(names[0], n);
      assert names == [names[0]] + names[1..];
      if Before(n, names[0]) then
        assert forall j | 0 < j < |names| :: Before(n, names[j]) by {
          forall j | 0 < j < |names| ensures Before(n, names[j]) {
            BeforeTransitive(n, names[0], names[j]);
          }
        }
        [n] + names
      else
        var rest := Inserted(names[1..], n);
        assert forall x | x in rest :: Before(names[0], x);
        [names[0]] + rest
  }

  /** The elements of a set in ascending order. */
  ghost function Listing(s: set<string>): (names: seq<string>)
    ensures Lists(names, s)
  {
    if s == {} then []
    else
      var n :| n in s;
      Inserted(Listing(s - {n}), n)
  }

  /** The keys of a map, met in any order and sorted. */
  method SortedKeys(labels: Labels) returns (names: seq<string>)
    ensures names == Listing(labels.Keys)
  {
    names := [];
    var rest := labels.Keys;
    while rest != {}
      invariant rest <= labels.Keys && Lists(names, labels.Keys - rest)
    {
      var n :| n in rest;
      names := Inserted(names, n);
      rest := rest - {n};
    }
    ListingUnique(names, Listing(labels.Keys), labels.Keys);
  }

  // ----- printing -----

  type Pairs = seq<(string, string)>

  ghost function SortedPairs(labels: Labels): Pairs {
    var names := Listing(labels.Keys);
    seq(|names|, i requires 0 <= i < |names| => (names[i], labels[names[i]]))
  }

  /** The pairs as printed, and what follows them. */
  function PairsText(lib: Library, pairs: Pairs, t: string): string {
    if pairs == [] then t
    else
      pairs[0].0 + ("=" + (Quote(lib, pairs[0].1) +
                           if |pairs| == 1 then t else "," + PairsText(lib, pairs[1..], t)))
  }

  function BlockText(lib: Library, pairs: Pairs): string {
    "{" + PairsText(lib, pairs, "}")
  }

  function EntryText(lib: Library, metric: string, pairs: Pairs): string {
    if pairs == [] then metric else metric + BlockText(lib, pairs)
  }

  ghost function FingerprintText(lib: Library, metric: string, labels: Labels): string {
    EntryText(lib, metric, SortedPairs(labels))
  }

  function PairText(lib: Library, p: (string, string), t: string): string {
    p.0 + ("=" + (Quote(lib, p.1) + t))
  }

  /** The text as the printing loop builds it: a pair is printed after those before it. */
  lemma {:induction false} PairsTextGrows(lib: Library, front: Pairs, p: (string, string), t: string)
    ensures PairsText(lib, front + [p], t) ==
            PairsText(lib, front, (if front != [] then "," else "") + PairText(lib, p, t))
  {
    if front == [] {
      assert front + [p] == [p] && "" + PairText(lib, p, t) == PairText(lib, p, t);
    } else {
      PairsTextGrows(lib, front[1..], p, t);
      assert (front + [p])[1..] == front[1..] + [p] && (front + [p])[0] == front[0];
      assert "" + PairText(lib, p, t) == PairText(lib, p, t);
    }
  }

  lemma {:induction false} PairsTextSplits(lib: Library, pairs: Pairs, t: string)
    ensures PairsText(lib, pairs, t) == PairsText(lib, pairs, "") + t
  {
    if |pairs| > 1 {
      PairsTextSplits(lib, pairs[1..], t);
    }
  }

  /** One turn of the printing loop. */
  lemma {:induction false} PrintedNext(lib: Library, head: string, front: Pairs, p: (string, string))
    ensures var sep := if front != [] then "," else "";
            head + PairsText(lib, front, "") + sep + p.0 + "=" + Quote(lib, p.1) ==
            head + PairsText(lib, front + [p], "")
  {
    var sep := if front != [] then "," else "";
    PairsTextGrows(lib, front, p, "");
    PairsTextSplits(lib, front, sep + PairText(lib, p, ""));
    var quoted := Quote(lib, p.1);
    assert quoted + "" == quoted;
    var done := PairsText(lib, front, "");
    assert head + (done + (sep + (p.0 + ("=" + quoted)))) == head + done + sep + p.0 + "=" + quoted;
  }

  lemma {:induction false} PrintedWhole(lib: Library, metric: string, pairs: Pairs)
    requires pairs != []
    ensures metric + "{" + PairsText(lib, pairs, "") + "}" == EntryText(lib, metric, pairs)
  {
    PairsTextSplits(lib, pairs, "}");
    var text := PairsText(lib, pairs, "");
    assert metric + "{" + text + "}" == metric + ("{" + (text + "}"));
  }

  method PrintPairs(lib: Library, head: string, pairs: Pairs) returns (b: string)
    ensures b == head + PairsText(lib, pairs, "")
  {
    b := head;
    for i := 0 to |pairs|
      invariant b == head + PairsText(lib, pairs[..i], "")
    {
      assert pairs[..i + 1] == pairs[..i] + [pairs[i]];
      PrintedNext(lib, head, pairs[..i], pairs[i]);
      var sep := if i > 0 then "," else "";
      b := b + sep + pairs[i].0 + "=" + Quote(lib, pairs[i].1);
    }
    assert pairs[..|pairs|] == pairs;
  }

  /** buildFingerprintString, and buildFingerprintFromEntry for the pairs an entry stores. */
  method PrintEntry(lib: Library, metric: string, pairs: Pairs) returns (b: string)
    ensures b == EntryText(lib, metric, pairs)
  {
    if pairs == [] {
      return metric;
    }
    PrintedWhole(lib, metric, pairs);
    b := PrintPairs(lib, metric + "{", pairs);
    b := b + "}";
  }

  method BuildFingerprint(lib: Library, metric: string, labels: Labels) returns (b: string)
    ensures b == FingerprintText(lib, metric, labels)
  {
    var pairs := ExtractSortedLabelPairs(labels);
    b := PrintEntry(lib, metric, pairs);
  }

  method ExtractSortedLabelPairs(labels: Labels) returns (pairs: Pairs)
    ensures pairs == SortedPairs(labels)
  {
    var names := SortedKeys(labels);
    assert forall i | 0 <= i < |names| :: names[i] in labels.Keys;
    pairs := [];
    for i := 0 to |names|
      invariant |pairs| == i
      invariant forall j | 0 <= j < i :: pairs[j] == (names[j], labels[names[j]])
    {
      pairs := pairs + [(names[i], labels[names[i]])];
    }
  }

  // ----- the printed block reads back as the labels -----

  function EqualityMatchers(pairs: Pairs): seq<Matcher> {
    if pairs == [] then [] else [Matcher(pairs[0].0, Eq, pairs[0].1)] + EqualityMatchers(pairs[1..])
  }

  function PairClauses(lib: Library, pairs: Pairs): (cs: seq<Clause>)
    ensures |cs| == |pairs|
  {
    if pairs == [] then []
    else [Clause("", pairs[0].0, "", Eq, "", Quote(lib, pairs[0].1), "")] + PairClauses(lib, pairs[1..])
  }

  lemma {:induction false} PairsAreClauses(lib: Library, pairs: Pairs)
    requires forall i | 0 <= i < |pairs| :: IsName(pairs[i].0, false)
    ensures Denoted(PairClauses(lib, pairs)) == EqualityMatchers(pairs)
    ensures forall c | c in PairClauses(lib, pairs) :: GoodClause(lib, c, false)
  {
    if pairs != [] {
      QuoteRoundTrip(lib, pairs[0].1);
      assert PairClauses(lib, pairs)[1..] == PairClauses(lib, pairs[1..]);
      PairsAreClauses(lib, pairs[1..]);
    }
  }

  lemma {:induction false} BareClauseText(name: string, token: string, t: string)
    ensures var c := Clause("", name, "", Eq, "", token, "");
            c.pre + CoreText(c, c.post + t) == name + ("=" + (token + t))
  {
    assert "" + t == t && "" + (token + t) == token + t;
    assert "" + ("=" + (token + t)) == "=" + (token + t);
  }

  lemma {:induction false} PairsTextIsListText(lib: Library, pairs: Pairs, t: string)
    requires pairs != []
    ensures ListText(PairClauses(lib, pairs), None, t) == PairsText(lib, pairs, t)
  {
    var after := if |pairs| == 1 then t else "," + PairsText(lib, pairs[1..], t);
    BareClauseText(pairs[0].0, Quote(lib, pairs[0].1), after);
    assert PairClauses(lib, pairs)[1..] == PairClauses(lib, pairs[1..]);
    if |pairs| > 1 {
      PairsTextIsListText(lib, pairs[1..], t);
    }
  }

  function BlockSyntax(lib: Library, pairs: Pairs): Syntax {
    Syntax("", PairClauses(lib, pairs), None, "")
  }

  lemma {:induction false} BlockIsWritten(lib: Library, pairs: Pairs)
    requires pairs != []
    ensures BlockText(lib, pairs) == Written(BlockSyntax(lib, pairs))
  {
    PairsTextIsListText(lib, pairs, "}");
    assert "}" + "" == "}";
  }

  /** Parsing the label block of a fingerprint gives back the sorted pairs, as equality matchers in order. */
  lemma {:induction false} BlockParsesBack(lib: Library, pairs: Pairs)
    requires pairs != [] && forall i | 0 <= i < |pairs| :: IsName(pairs[i].0, false)
    ensures Parse(lib, BlockText(lib, pairs), false) == Ok(EqualityMatchers(pairs))
  {
    BlockIsWritten(lib, pairs);
    PairsAreClauses(lib, pairs);
    GrammarAccepted(lib, BlockSyntax(lib, pairs), false);
  }

  lemma {:induction false} EqualityMatcherIn(pairs: Pairs, m: Matcher)
    ensures m in EqualityMatchers(pairs) <==> exists i :: 0 <= i < |pairs| && m == Matcher(pairs[i].0, Eq, pairs[i].1)
  {
    if pairs != [] {
      EqualityMatcherIn(pairs[1..], m);
      if i :| 0 <= i < |pairs| && m == Matcher(pairs[i].0, Eq, pairs[i].1) {
        assert i > 0 ==> pairs[1..][i - 1] == pairs[i];
      }
      if i :| 0 <= i < |pairs[1..]| && m == Matcher(pairs[1..][i].0, Eq, pairs[1..][i].1) {
        assert pairs[1..][i] == pairs[i + 1];
      }
    }
  }

  /** Read as a selector, a fingerprint's label block selects exactly the label sets that agree with its labels. */
  lemma {:induction false} BlockSelectsAgreement(lib: Library, labels: Labels, others: Labels)
    requires labels != map[] && forall n | n in labels :: IsName(n, false)
    ensures var p := Parse(lib, BlockText(lib, SortedPairs(labels)), false);
            p.Ok? && (Matches(lib, p.value, others) <==> forall n | n in labels :: Lookup(others, n) == labels[n])
  {
    var pairs := SortedPairs(labels);
    var names := Listing(labels.Keys);
    var some :| some in labels;
    assert some in names;
    forall i | 0 <= i < |pairs| ensures IsName(pairs[i].0, false) {
      assert names[i] in labels;
    }
    BlockParsesBack(lib, pairs);
    var ms := EqualityMatchers(pairs);
    if Matches(lib, ms, others) {
      forall n | n in labels ensures Lookup(others, n) == labels[n] {
        assert n in names;
        var i :| 0 <= i < |names| && names[i] == n;
        EqualityMatcherIn(pairs, Matcher(pairs[i].0, Eq, pairs[i].1));
        assert Matcher(n, Eq, labels[n]) in ms;
      }
    }
    if forall n | n in labels :: Lookup(others, n) == labels[n] {
      forall m | m in ms ensures MatchValue(lib, m, Lookup(others, m.name)) {
        EqualityMatcherIn(pairs, m);
        var i :| 0 <= i < |pairs| && m == Matcher(pairs[i].0, Eq, pairs[i].1);
        assert names[i] in labels;
      }
    }
  }

  // ----- the fingerprint identifies the series -----

  lemma {:induction false} FirstPairUnique(lib: Library, a: (string, string), ta: string, b: (string, string),
                                           tb: string)
    requires '=' !in a.0 && '=' !in b.0
    requires a.0 + ("=" + (Quote(lib, a.1) + ta)) == b.0 + ("=" + (Quote(lib, b.1) + tb))
    ensures a == b && ta == tb
  {
    assert a.0 + ["="[0]] + (Quote(lib, a.1) + ta) == a.0 + ("=" + (Quote(lib, a.1) + ta));
    assert b.0 + ["="[0]] + (Quote(lib, b.1) + tb) == b.0 + ("=" + (Quote(lib, b.1) + tb));
    SplitUnique(a.0, b.0, '=', Quote(lib, a.1) + ta, Quote(lib, b.1) + tb);
    QuoteRoundTrip(lib, a.1);
    QuoteRoundTrip(lib, b.1);
    TokenRead(Quote(lib, a.1), ta);
    TokenRead(Quote(lib, b.1), tb);
  }

  lemma {:induction false} PairsTextInjective(lib: Library, a: Pairs, b: Pairs)
    requires a != [] && b != []
    requires forall i | 0 <= i < |a| :: '=' !in a[i].0
    requires forall i | 0 <= i < |b| :: '=' !in b[i].0
    requires PairsText(lib, a, "}") == PairsText(lib, b, "}")
    ensures a == b
  {
    var ta := if |a| == 1 then "}" else "," + PairsText(lib, a[1..], "}");
    var tb := if |b| == 1 then "}" else "," + PairsText(lib, b[1..], "}");
    FirstPairUnique(lib, a[0], ta, b[0], tb);
    assert ta[0] == if |a| == 1 then '}' else ',';
    assert tb[0] == if |b| == 1 then '}' else ',';
    assert a == [a[0]] + a[1..] && b == [b[0]] + b[1..];
    if |a| > 1 {
      assert ta[1..] == PairsText(lib, a[1..], "}") && tb[1..] == PairsText(lib, b[1..], "}");
      PairsTextInjective(lib, a[1..], b[1..]);
    }
  }

  lemma {:induction false} PairsDetermineLabels(a: Labels, b: Labels)
    requires SortedPairs(a) == SortedPairs(b)
    ensures a == b
  {
    var na, nb := Listing(a.Keys), Listing(b.Keys);
    forall i | 0 <= i < |na| ensures na[i] == nb[i] && na[i] in a && na[i] in b && a[na[i]] == b[na[i]] {
      assert na[i] in na && nb[i] in nb;
      assert SortedPairs(a)[i] == (na[i], a[na[i]]) && SortedPairs(b)[i] == (nb[i], b[nb[i]]);
    }
    assert na == nb;
    forall n ensures n in a <==> n in b {
      assert n in a <==> n in na;
      assert n in b <==> n in nb;
    }
    forall n | n in a ensures a[n] == b[n] {
      assert n in na;
    }
  }

  /** Two series with the same fingerprint are the same series, when metric names hold no '{' and label names no '='
      (normalised label names hold neither). */
  lemma {:induction false} FingerprintInjective(lib: Library, m1: string, l1: Labels, m2: string, l2: Labels)
    requires '{' !in m1 && '{' !in m2
    requires forall n | n in l1 :: '=' !in n
    requires forall n | n in l2 :: '=' !in n
    requires FingerprintText(lib, m1, l1) == FingerprintText(lib, m2, l2)
    ensures m1 == m2 && l1 == l2
  {
    var a, b := SortedPairs(l1), SortedPairs(l2);
    forall i | 0 <= i < |a| ensures '=' !in a[i].0 {
      assert Listing(l1.Keys)[i] in l1;
    }
    forall i | 0 <= i < |b| ensures '=' !in b[i].0 {
      assert Listing(l2.Keys)[i] in l2;
    }
    assert a != [] ==> m1 + BlockText(lib, a) == m1 + ['{'] + PairsText(lib, a, "}");
    assert b != [] ==> m2 + BlockText(lib, b) == m2 + ['{'] + PairsText(lib, b, "}");
    assert '{' in FingerprintText(lib, m1, l1) <==> a != [];
    assert '{' in FingerprintText(lib, m2, l2) <==> b != [];
    if a != [] {
      SplitUnique(m1, m2, '{', PairsText(lib, a, "}"), PairsText(lib, b, "}"));
      PairsTextInjective(lib, a, b);
    }
    PairsDetermineLabels(l1, l2);
  }

  // ----- selectors of one clause -----

  function OneClause(name: string, token: string): Syntax {
    Syntax("", [Clause("", name, "", Eq, "", token, "")], None, "")
  }

  lemma {:induction false} OneClauseText(name: string, token: string)
    ensures Written(OneClause(name, token)) == "{" + (name + ("=" + (token + "}")))
  {
    BareClauseText(name, token, "}");
    assert "}" + "" == "}";
  }

  lemma {:induction false} OneClauseParses(lib: Library, name: string, token: string, dots: bool)
    requires IsName(name, dots) && Unquote(token).Some?
    ensures Parse(lib, "{" + (name + ("=" + (token + "}"))), dots) == Ok([Matcher(name, Eq, TokenValue(token))])
  {
    var x := OneClause(name, token);
    OneClauseText(name, token);
    GrammarAccepted(lib, x, dots);
    assert x.clauses[1..] == [];
    assert Denoted(x.clauses) == [ClauseMatcher(x.clauses[0])];
  }

  /** A label value that is printed without escapes. */
  predicate IsPlain(s: string) {
    '"' !in s && '\\' !in s && '\n' !in s && '{' !in s && '}' !in s
  }
}
