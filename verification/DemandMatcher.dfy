/** Demand accounting at name level: which known series names a demand stores, by adding and removing the
    histogram and summary suffixes. */
module DemandMatcher {
  import opened Text
  import opened Selector
  import opened SelectorScanner
  import opened PromNaming
  import opened Telemetry
  import opened DemandFilter
  import opened DemandProcessor

  /** The component suffixes, in the order they are tried. */
  function SuffixAt(j: nat): string {
    if j == 0 then "_bucket" else if j == 1 then "_sum" else "_count"
  }

  // ----- suffix surgery -----

  predicate Fits(n: string, suffix: string) {
    HasSuffix(n, suffix) && |n| > |suffix|
  }

  function Cut(n: string, suffix: string): (string, string)
    requires Fits(n, suffix)
  {
    (n[..|n| - |suffix|], suffix)
  }

  /** The name without its component suffix, and the suffix; None when it has none or is nothing else. */
  function Strip(n: string): Option<(string, string)> {
    if Fits(n, "_bucket") then Some(Cut(n, "_bucket"))
    else if Fits(n, "_sum") then Some(Cut(n, "_sum"))
    else if Fits(n, "_count") then Some(Cut(n, "_count"))
    else None
  }

  lemma {:induction false} FitsIff(n: string, base: string, suffix: string)
    requires base != ""
    ensures n == base + suffix <==> Fits(n, suffix) && Cut(n, suffix).0 == base
  {
    if n == base + suffix {
      assert n[|n| - |suffix|..] == suffix && n[..|n| - |suffix|] == base;
    }
    if Fits(n, suffix) {
      assert n == n[..|n| - |suffix|] + n[|n| - |suffix|..];
    }
  }

  /** No name ends in two of the suffixes. */
  lemma {:induction false} FitsOne(n: string)
    ensures Fits(n, "_bucket") ==> !Fits(n, "_sum") && !Fits(n, "_count")
    ensures Fits(n, "_sum") ==> !Fits(n, "_count")
  {
    if Fits(n, "_bucket") {
      assert n[|n| - 2] == n[|n| - 7..][5] == 'e';
    }
    if Fits(n, "_sum") {
      assert n[|n| - 2] == n[|n| - 4..][2] == 'u';
    }
    if Fits(n, "_count") {
      assert n[|n| - 2] == n[|n| - 6..][4] == 'n';
    }
  }

  lemma {:induction false} StripParts(n: string)
    ensures Strip(n).Some? ==>
              && Strip(n).value.0 != "" && |Strip(n).value.0| < |n|
              && (Strip(n).value.1 == "_bucket" || Strip(n).value.1 == "_sum" || Strip(n).value.1 == "_count")
  {
  }

  /** Stripping undoes appending a suffix to a non-empty base, and appending undoes stripping. */
  lemma {:induction false} ComponentIff(n: string, base: string)
    requires base != ""
    ensures n == base + "_bucket" <==> Strip(n) == Some((base, "_bucket"))
    ensures n == base + "_sum" <==> Strip(n) == Some((base, "_sum"))
    ensures n == base + "_count" <==> Strip(n) == Some((base, "_count"))
  {
    FitsOne(n);
    FitsIff(n, base, "_bucket");
    FitsIff(n, base, "_sum");
    FitsIff(n, base, "_count");
  }

  /** A name splits exactly as a non-empty base and a component suffix that make it up. */
  lemma {:induction false} StripIff(n: string, base: string, suffix: string)
    ensures Strip(n) == Some((base, suffix)) <==>
              base != "" && n == base + suffix && (suffix == "_bucket" || suffix == "_sum" || suffix == "_count")
  {
    StripParts(n);
    if base != "" {
      ComponentIff(n, base);
    }
  }

  /** The suffix loop of expandDemandNames and familyNameVariants: the first suffix that fits is cut off. */
  method StripLoop(d: string) returns (base: string, suffix: string)
    ensures match Strip(d)
            case None => base == d && suffix == ""
            case Some(parts) => base == parts.0 && suffix == parts.1
  {
    base, suffix := d, "";
    var j := 0;
    while j < 3 && suffix == ""
      invariant 0 <= j <= 3
      invariant suffix != "" ==> Strip(d) == Some((base, suffix))
      invariant suffix == "" ==> base == d && forall k | 0 <= k < j :: !Fits(d, SuffixAt(k))
    {
      if HasSuffix(d, SuffixAt(j)) && |d| > |SuffixAt(j)| {
        assert Fits(d, SuffixAt(j));
        assert j > 0 ==> !Fits(d, SuffixAt(0));
        assert j > 1 ==> !Fits(d, SuffixAt(1));
        base, suffix := d[..|d| - |SuffixAt(j)|], SuffixAt(j);
      }
      j := j + 1;
    }
    assert suffix == "" ==> !Fits(d, SuffixAt(0)) && !Fits(d, SuffixAt(1)) && !Fits(d, SuffixAt(2));
  }

  // ----- what a demanded name stores -----

  function ExpandOne(d: string): set<string> {
    if d == "" then {}
    else
      match Strip(d)
      case None => {d, d + "_sum", d + "_count"}
      case Some((base, _)) => {d, base, base + "_bucket", base + "_sum", base + "_count"}
  }

  function Expand(demands: seq<string>): set<string> {
    if demands == [] then {} else Expand(demands[..|demands| - 1]) + ExpandOne(demands[|demands| - 1])
  }

  method ExpandDemandNames(demands: seq<string>) returns (names: set<string>)
    ensures names == Expand(demands)
  {
    names := {};
    for i := 0 to |demands|
      invariant names == Expand(demands[..i])
    {
      assert demands[..i + 1][..i] == demands[..i];
      var d := demands[i];
      if d != "" {
        names := names + {d};
        var base, suffix := StripLoop(d);
        StripParts(d);
        if suffix != "" {
          names := names + {base, base + "_bucket"};
        }
        names := names + {base + "_sum", base + "_count"};
      }
    }
    assert demands[..|demands|] == demands;
  }

  lemma {:induction false} ExpandIn(demands: seq<string>, n: string)
    ensures n in Expand(demands) <==> exists d | d in demands :: n in ExpandOne(d)
  {
    if demands != [] {
      ExpandIn(demands[..|demands| - 1], n);
      assert demands == demands[..|demands| - 1] + [demands[|demands| - 1]];
    }
  }

  // ----- which demanded names would store a series -----

  function FamilyNameVariants(n: string): seq<string> {
    match Strip(n)
    case None => [n, n + "_bucket", n + "_sum", n + "_count"]
    case Some((base, suffix)) =>
      [n, base + "_bucket", base + "_sum", base + "_count"] + if suffix != "_bucket" then [base] else []
  }

  /** Read through Strip: n is stored by demanding v. */
  lemma {:induction false} ExpandByStrip(n: string, v: string)
    requires n != ""
    ensures n in ExpandOne(v) <==>
            v != "" && match Strip(v)
                       case None => n == v || (Strip(n).Some? && Strip(n).value.0 == v && Strip(n).value.1 != "_bucket")
                       case Some((c, _)) => n == v || n == c || (Strip(n).Some? && Strip(n).value.0 == c)
  {
    StripParts(n);
    StripParts(v);
    if v != "" {
      ComponentIff(n, if Strip(v).Some? then Strip(v).value.0 else v);
    }
  }

  /** Read through Strip: v is one of the variants of n. */
  lemma {:induction false} VariantByStrip(n: string, v: string)
    requires n != ""
    ensures v in FamilyNameVariants(n) <==>
            v == n || match Strip(n)
                      case None => Strip(v).Some? && Strip(v).value.0 == n
                      case Some((b, s)) => (Strip(v).Some? && Strip(v).value.0 == b) || (v == b && s != "_bucket")
  {
    StripParts(n);
    StripParts(v);
    ComponentIff(v, if Strip(n).Some? then Strip(n).value.0 else n);
  }

  /** The two ways the name-level functions fail to be inverse. Either v is the bare base of n (which is not a bucket) and
      is itself a component name, so v is a variant of n but does not store it; or n is a component name that is the base
      of v, so v stores n but is not one of its variants. */
  predicate Mismatched(n: string, v: string) {
    && Strip(n).Some? && Strip(v).Some?
    && ((Strip(n).value.0 == v && Strip(n).value.1 != "_bucket") || Strip(v).value.0 == n)
  }

  /** familyNameVariants is the inverse of expandDemandNames exactly on the pairs that are not mismatched. */
  lemma {:induction false} InverseExactly(n: string, v: string)
    requires n != ""
    ensures (v in FamilyNameVariants(n) <==> n in ExpandOne(v)) <==> !Mismatched(n, v)
  {
    ExpandByStrip(n, v);
    VariantByStrip(n, v);
    StripParts(n);
    StripParts(v);
  }

  /** The promise in the comments, "for every variant v, n is stored by demanding v", fails: a_sum is a variant of
      a_sum_count but stores only the family of a. And a_sum_bucket stores a_sum without being a variant of it. */
  lemma {:induction false} InverseFails()
    ensures "a_sum" in FamilyNameVariants("a_sum_count") && "a_sum_count" !in ExpandOne("a_sum")
    ensures "a_sum" in ExpandOne("a_sum_bucket") && "a_sum_bucket" !in FamilyNameVariants("a_sum")
  {
    assert "a" + "_sum" == "a_sum" && "a_sum" + "_count" == "a_sum_count" && "a_sum" + "_bucket" == "a_sum_bucket";
    ComponentIff("a_sum", "a");
    ComponentIff("a_sum_count", "a_sum");
    ComponentIff("a_sum_bucket", "a_sum");
    VariantByStrip("a_sum_count", "a_sum");
    ExpandByStrip("a_sum_count", "a_sum");
    ExpandByStrip("a_sum", "a_sum_bucket");
    VariantByStrip("a_sum", "a_sum_bucket");
  }

  method BuildFamilyNameVariants(n: string) returns (variants: seq<string>)
    ensures variants == FamilyNameVariants(n)
  {
    var base, suffix := StripLoop(n);
    StripParts(n);
    variants := [n, base + "_bucket", base + "_sum", base + "_count"];
    if suffix != "_bucket" && base != n {
      variants := variants + [base];
    }
  }

  // ----- selectors at name level -----

  predicate AcceptsSeriesName(lib: Library, ms: seq<Matcher>, v: string) {
    forall m | m in ms && m.name == "__name__" :: MatchValue(lib, m, v)
  }

  /** A stored series of this name would be forwarded, as far as names go: the selector accepts a variant of it. */
  predicate MatchesSeriesName(lib: Library, ms: seq<Matcher>, n: string) {
    exists v | v in FamilyNameVariants(n) :: AcceptsSeriesName(lib, ms, v)
  }

  predicate CountedBySelectors(lib: Library, demand: Demand, n: string) {
    exists ms | ms in demand :: MatchesSeriesName(lib, ms, n)
  }

  /** The name-only view of one demanded selector; one that does not parse demands nothing. */
  datatype NameSelector = NameSelector(raw: string, parsed: bool, nameMatchers: seq<Matcher>)

  function NameMatchers(ms: seq<Matcher>): (r: seq<Matcher>)
    ensures forall m :: m in r <==> m in ms && m.name == "__name__"
  {
    if ms == [] then []
    else
      var last := ms[|ms| - 1];
      assert ms == ms[..|ms| - 1] + [last];
      NameMatchers(ms[..|ms| - 1]) + if last.name == "__name__" then [last] else []
  }

  function NameSelectorFrom(raw: string, p: Result<seq<Matcher>>): NameSelector {
    match p
    case Ok(ms) => NameSelector(raw, true, NameMatchers(ms))
    case Err(_) => NameSelector(raw, false, [])
  }

  function NameSelectorsOf(lib: Library, selectors: seq<string>): seq<NameSelector> {
    if selectors == [] then []
    else
      var raw := selectors[|selectors| - 1];
      NameSelectorsOf(lib, selectors[..|selectors| - 1]) + [NameSelectorFrom(raw, Parse(lib, raw, false))]
  }

  method ParseNameSelectors(lib: Library, selectors: seq<string>) returns (out: seq<NameSelector>)
    ensures out == NameSelectorsOf(lib, selectors)
  {
    out := [];
    for i := 0 to |selectors|
      invariant out == NameSelectorsOf(lib, selectors[..i])
    {
      assert selectors[..i + 1][..i] == selectors[..i];
      var sel := ParseSelector(lib, selectors[i], false);
      var ns := NameSelector(selectors[i], false, []);
      if sel.Ok? {
        var matchers := PickNameMatchers(sel.value);
        ns := NameSelector(selectors[i], true, matchers);
      }
      out := out + [ns];
    }
    assert selectors[..|selectors|] == selectors;
  }

  method PickNameMatchers(ms: seq<Matcher>) returns (out: seq<Matcher>)
    ensures out == NameMatchers(ms)
  {
    out := [];
    for i := 0 to |ms|
      invariant out == NameMatchers(ms[..i])
    {
      assert ms[..i + 1][..i] == ms[..i];
      if ms[i].name == "__name__" {
        out := out + [ms[i]];
      }
    }
    assert ms[..|ms|] == ms;
  }

  predicate AllAccept(lib: Library, matchers: seq<Matcher>, v: string) {
    forall m | m in matchers :: MatchValue(lib, m, v)
  }

  /** What the name-only view says of a stored name. */
  predicate Counts(lib: Library, ns: NameSelector, n: string) {
    ns.parsed && exists v | v in FamilyNameVariants(n) :: AllAccept(lib, ns.nameMatchers, v)
  }

  predicate SomeCounts(lib: Library, parsed: seq<NameSelector>, n: string) {
    exists ns | ns in parsed :: Counts(lib, ns, n)
  }

  method AcceptsVariant(lib: Library, matchers: seq<Matcher>, v: string) returns (all: bool)
    ensures all == AllAccept(lib, matchers, v)
  {
    for i := 0 to |matchers|
      invariant forall k | 0 <= k < i :: MatchValue(lib, matchers[k], v)
    {
      if !MatchValue(lib, matchers[i], v) {
        assert matchers[i] in matchers;
        return false;
      }
    }
    return true;
  }

  method NameSelectorMatches(lib: Library, ns: NameSelector, n: string) returns (matched: bool)
    ensures matched == Counts(lib, ns, n)
  {
    if !ns.parsed {
      return false;
    }
    var variants := BuildFamilyNameVariants(n);
    for i := 0 to |variants|
      invariant forall k | 0 <= k < i :: !AllAccept(lib, ns.nameMatchers, variants[k])
    {
      var all := AcceptsVariant(lib, ns.nameMatchers, variants[i]);
      if all {
        assert variants[i] in variants;
        return true;
      }
    }
    return false;
  }

  method SomeSelectorCounts(lib: Library, parsed: seq<NameSelector>, n: string) returns (counted: bool)
    ensures counted == SomeCounts(lib, parsed, n)
  {
    for i := 0 to |parsed|
      invariant forall k | 0 <= k < i :: !Counts(lib, parsed[k], n)
    {
      counted := NameSelectorMatches(lib, parsed[i], n);
      if counted {
        assert parsed[i] in parsed;
        return;
      }
    }
    return false;
  }

  /** The name-only view of a selector says of every name what the selector says; without a parse it says no. */
  lemma {:induction false} NameViewExact(lib: Library, raw: string, p: Result<seq<Matcher>>, n: string)
    ensures Counts(lib, NameSelectorFrom(raw, p), n) <==> p.Ok? && MatchesSeriesName(lib, p.value, n)
  {
    if p.Ok? {
      forall v ensures AllAccept(lib, NameMatchers(p.value), v) <==> AcceptsSeriesName(lib, p.value, v) {
      }
    }
  }

  lemma {:induction false} CountedNext(lib: Library, demand: Demand, p: Result<seq<Matcher>>, n: string)
    ensures CountedBySelectors(lib, demand + (match p case Ok(ms) => [ms] case Err(_) => []), n) <==>
              CountedBySelectors(lib, demand, n) || (p.Ok? && MatchesSeriesName(lib, p.value, n))
  {
    if p.Ok? {
      assert p.value in demand + [p.value];
    } else {
      assert demand + [] == demand;
    }
  }

  lemma {:induction false} SomeCountsNext(lib: Library, parsed: seq<NameSelector>, ns: NameSelector, n: string)
    ensures SomeCounts(lib, parsed + [ns], n) <==> SomeCounts(lib, parsed, n) || Counts(lib, ns, n)
  {
    assert ns in parsed + [ns];
  }

  /** The name-only views of a selector list count what its parseable selectors count. */
  lemma {:induction false} NameViewsExact(lib: Library, selectors: seq<string>, n: string)
    ensures SomeCounts(lib, NameSelectorsOf(lib, selectors), n) <==>
              CountedBySelectors(lib, Parseable(lib, selectors), n)
  {
    if selectors != [] {
      var front, raw := selectors[..|selectors| - 1], selectors[|selectors| - 1];
      NameViewsExact(lib, front, n);
      var p := Parse(lib, raw, false);
      NameViewExact(lib, raw, p, n);
      SomeCountsNext(lib, NameSelectorsOf(lib, front), NameSelectorFrom(raw, p), n);
      CountedNext(lib, Parseable(lib, front), p, n);
    }
  }

  method SelectorDemandedNames(lib: Library, selectors: seq<string>, known: set<string>) returns (out: set<string>)
    ensures out == set n | n in known && CountedBySelectors(lib, Parseable(lib, selectors), n)
  {
    var parsed := ParseNameSelectors(lib, selectors);
    out := {};
    var rest := known;
    while rest != {}
      invariant rest <= known
      invariant out == set n | n in known - rest && CountedBySelectors(lib, Parseable(lib, selectors), n)
    {
      var n :| n in rest;
      var counted := SomeSelectorCounts(lib, parsed, n);
      NameViewsExact(lib, selectors, n);
      if counted {
        out := out + {n};
      }
      rest := rest - {n};
    }
    assert known - rest == known;
  }

  // ----- the counts never fall below what the filter forwards -----

  /** Every component of the family is a variant of every other. */
  ghost predicate FamilyClosed(kind: Kind, base: string) {
    forall f, n | f in FamilyNames(kind, base) && n in FamilyNames(kind, base) :: f in FamilyNameVariants(n)
  }

  /** The names for which name-level accounting is complete. */
  predicate Accountable(kind: Kind, base: string) {
    match kind
    case Histogram => base != ""
    case Summary => base != "" && Strip(base).None?
    case _ => true
  }

  lemma {:induction false} FamilyClosedIff(kind: Kind, base: string)
    ensures FamilyClosed(kind, base) <==> Accountable(kind, base)
  {
    var b, s, c := base + "_bucket", base + "_sum", base + "_count";
    var names := FamilyNames(kind, base);
    assert base == "" ==> b == "_bucket" && s == "_sum" && c == "_count";
    if base != "" && (kind.Histogram? || kind.Summary?) {
      ComponentIff(b, base);
      ComponentIff(s, base);
      ComponentIff(c, base);
      if kind.Summary? {
        VariantByStrip(base, s);
        assert names[0] in names && names[1] in names;
      }
    } else if base == "" && kind.Histogram? {
      assert names == ["_bucket", "_sum", "_count"] && names[0] in names && names[1] in names;
      VariantByStrip("_sum", "_bucket");
    } else if base == "" && kind.Summary? {
      assert names == ["", "_sum", "_count"] && names[0] in names && names[1] in names;
      VariantByStrip("_sum", "");
    }
  }

  lemma {:induction false} SeriesNameInFamily(lib: Library, kind: Kind, base: string, res: Attrs, points: seq<Point>,
                                              s: Series)
    requires s in PointsSeries(lib, kind, base, res, points)
    ensures s.name in FamilyNames(kind, base)
    ensures exists p | p in points :: s in PointSeries(lib, kind, base, res, p)
  {
    var front, p := points[..|points| - 1], points[|points| - 1];
    assert points == front + [p];
    if s in PointSeries(lib, kind, base, res, p) {
      PointSeriesOfPoint(lib, kind, base, res, p);
    } else {
      SeriesNameInFamily(lib, kind, base, res, front, s);
    }
  }

  lemma {:induction false} NameAcceptedCounts(lib: Library, demand: Demand, kind: Kind, base: string, res: Attrs,
                                              p: Point, n: string)
    requires FamilyClosed(kind, base) && n in FamilyNames(kind, base)
    requires Wanted(lib, demand, FamilyNames(kind, base), res, p)
    ensures CountedBySelectors(lib, demand, n)
  {
    var ms :| ms in demand && exists f | f in FamilyNames(kind, base) :: WantsAs(lib, ms, f, res, p);
    var f :| f in FamilyNames(kind, base) && WantsAs(lib, ms, f, res, p);
    forall m | m in ms && m.name == "__name__" ensures MatchValue(lib, m, f) {
      assert m in WithoutBucketLabels(ms);
    }
    assert AcceptsSeriesName(lib, ms, f);
    assert MatchesSeriesName(lib, ms, n);
  }

  /** Selector mode: every series name of a datapoint the filter keeps is counted. */
  lemma {:induction false} SelectorCountCovers(lib: Library, demand: Demand, kind: Kind, base: string, res: Attrs,
                                               p: Point, s: Series)
    requires Accountable(kind, base)
    requires Wanted(lib, demand, FamilyNames(kind, base), res, p)
    requires s in PointSeries(lib, kind, base, res, p)
    ensures CountedBySelectors(lib, demand, s.name)
  {
    PointSeriesOfPoint(lib, kind, base, res, p);
    FamilyClosedIff(kind, base);
    NameAcceptedCounts(lib, demand, kind, base, res, p, s.name);
  }

  /** A demand that keeps a metric counts every name its series can have. */
  ghost predicate SelectorCountComplete(lib: Library, kind: Kind, base: string) {
    forall demand: Demand, res: Attrs, p: Point, n |
      Wanted(lib, demand, FamilyNames(kind, base), res, p) && n in FamilyNames(kind, base) ::
      CountedBySelectors(lib, demand, n)
  }

  lemma {:induction false} ClosedIsComplete(lib: Library, kind: Kind, base: string)
    requires FamilyClosed(kind, base)
    ensures SelectorCountComplete(lib, kind, base)
  {
    forall demand: Demand, res: Attrs, p: Point, n |
      Wanted(lib, demand, FamilyNames(kind, base), res, p) && n in FamilyNames(kind, base)
      ensures CountedBySelectors(lib, demand, n)
    {
      NameAcceptedCounts(lib, demand, kind, base, res, p, n);
    }
  }

  lemma {:induction false} OpenIsIncomplete(lib: Library, kind: Kind, base: string)
    requires !FamilyClosed(kind, base)
    ensures !SelectorCountComplete(lib, kind, base)
  {
    var family := FamilyNames(kind, base);
    var f, n :| f in family && n in family && f !in FamilyNameVariants(n);
    ExactSelectorMisses(lib, family, f, n);
  }

  /** Name-level accounting of selectors is complete for exactly the accountable names. */
  lemma {:induction false} SelectorCountCompleteIff(lib: Library, kind: Kind, base: string)
    ensures SelectorCountComplete(lib, kind, base) <==> Accountable(kind, base)
  {
    FamilyClosedIff(kind, base);
    if FamilyClosed(kind, base) {
      ClosedIsComplete(lib, kind, base);
    } else {
      OpenIsIncomplete(lib, kind, base);
    }
  }

  /** Demanding one name exactly keeps a metric of its family, but does not count a name it is no variant of. */
  lemma {:induction false} ExactSelectorMisses(lib: Library, family: seq<string>, f: string, n: string)
    requires f in family && f !in FamilyNameVariants(n)
    ensures var demand: Demand := [[Matcher("__name__", Eq, f)]];
            Wanted(lib, demand, family, [], Point([], [], false, [])) && !CountedBySelectors(lib, demand, n)
  {
    var ms := [Matcher("__name__", Eq, f)];
    ExactMatcherWants(lib, f, f, [], Point([], [], false, []));
    assert ms in [ms] && ms[0] in ms;
    assert forall v :: AcceptsSeriesName(lib, ms, v) ==> v == f;
  }

  /** Name mode: a demand that keeps a metric counts every name its series can have. */
  ghost predicate NameCountComplete(kind: Kind, base: string) {
    forall demands: seq<string>, n |
      IsMetricDemanded(Metric(base, kind, []), Elements(demands)) && n in FamilyNames(kind, base) ::
      n in Expand(demands)
  }

  /** Demanding any name of an accountable family stores the whole family. */
  lemma {:induction false} FamilyStored(kind: Kind, base: string, f: string, n: string)
    requires base != "" && Accountable(kind, base)
    requires f in FamilyNames(kind, base) && n in FamilyNames(kind, base)
    ensures n in ExpandOne(f)
  {
    ComponentIff(f, base);
    ComponentIff(n, base);
    ExpandByStrip(n, f);
  }

  lemma {:induction false} FamilyNotStored(kind: Kind, base: string) returns (f: string, n: string)
    requires !kind.Unset? && (base == "" || !Accountable(kind, base))
    ensures f in FamilyNames(kind, base) && n in FamilyNames(kind, base) && n !in ExpandOne(f)
  {
    var names := FamilyNames(kind, base);
    assert names[0] in names && (|names| > 1 ==> names[1] in names && names[2] in names);
    if kind.Histogram? {
      f, n := names[0], names[1];
      assert f == "_bucket" && n == "_sum";
      ExpandByStrip(n, f);
    } else if kind.Summary? && base != "" {
      f, n := base, base + "_sum";
      ComponentIff(n, base);
      StripParts(base);
      ExpandByStrip(n, f);
    } else {
      f, n := base, base;
    }
  }

  /** Name-level accounting of a plain name list is complete for exactly the non-empty accountable names. */
  lemma {:induction false} NameCountCompleteIff(kind: Kind, base: string)
    requires !kind.Unset?
    ensures NameCountComplete(kind, base) <==> base != "" && Accountable(kind, base)
  {
    var m := Metric(base, kind, []);
    var family := FamilyNames(kind, base);
    if base != "" && Accountable(kind, base) {
      forall demands: seq<string>, n | IsMetricDemanded(m, Elements(demands)) && n in family ensures n in Expand(demands) {
        DemandedIsFamilyOverlap(m, demands);
        var f :| f in demands && f in family;
        FamilyStored(kind, base, f, n);
        ExpandIn(demands, n);
      }
    } else {
      var f, n := FamilyNotStored(kind, base);
      DemandedIsFamilyOverlap(m, [f]);
      ExpandIn([f], n);
      assert f in [f] && n !in Expand([f]);
    }
  }

  /** Whatever the tracker reports for a metric kept in name mode is in the expanded demand. */
  lemma {:induction false} NameCountCovers(lib: Library, demands: seq<string>, res: Attrs, m: Metric, s: Series)
    requires m.base != "" && Accountable(m.kind, m.base)
    requires IsMetricDemanded(m, Elements(demands))
    requires s in PointsSeries(lib, m.kind, m.base, res, m.points)
    ensures s.name in Expand(demands)
  {
    SeriesNameInFamily(lib, m.kind, m.base, res, m.points, s);
    NameCountCompleteIff(m.kind, m.base);
    assert IsMetricDemanded(Metric(m.base, m.kind, []), Elements(demands));
  }

  /** A plain name list and the matching exact-name selectors count the same known names, where no pair is mismatched. */
  lemma {:induction false} CountsAgree(lib: Library, names: seq<string>, n: string)
    requires n != "" && forall v | v in names :: !Mismatched(n, v)
    ensures n in Expand(names) <==> CountedBySelectors(lib, ExactDemand(names), n)
  {
    ExpandIn(names, n);
    if v :| v in names && n in ExpandOne(v) {
      InverseExactly(n, v);
      ExactDemandIn(names, [Matcher("__name__", Eq, v)]);
      assert AcceptsSeriesName(lib, [Matcher("__name__", Eq, v)], v);
      assert MatchesSeriesName(lib, [Matcher("__name__", Eq, v)], n);
    }
    if CountedBySelectors(lib, ExactDemand(names), n) {
      var ms :| ms in ExactDemand(names) && MatchesSeriesName(lib, ms, n);
      ExactDemandIn(names, ms);
      var v :| v in names && ms == [Matcher("__name__", Eq, v)];
      var w :| w in FamilyNameVariants(n) && AcceptsSeriesName(lib, ms, w);
      assert ms[0] in ms && w == v;
      InverseExactly(n, v);
    }
  }
}
