/** The demand filter as a pipeline component: name mode, selector mode, and the compiled-selector cache. */
module DemandProcessor {
  import opened Text
  import opened GoQuote
  import opened Selector
  import opened Fingerprint
  import opened PromNaming
  import opened Telemetry
  import opened DemandFilter

  // ----- name mode -----

  /** The lookup set built from a demand list. */
  function Elements(names: seq<string>): set<string> {
    set n | n in names
  }

  predicate IsMetricDemanded(m: Metric, demands: set<string>) {
    match m.kind
    case Unset => false
    case Gauge | Sum | ExponentialHistogram => m.base in demands
    case Histogram => m.base + "_bucket" in demands || m.base + "_sum" in demands || m.base + "_count" in demands
    case Summary => m.base in demands || m.base + "_sum" in demands || m.base + "_count" in demands
  }

  function NamedMetrics(demands: set<string>, metrics: seq<Metric>): seq<Metric> {
    if metrics == [] then []
    else
      var m := metrics[|metrics| - 1];
      NamedMetrics(demands, metrics[..|metrics| - 1]) + if IsMetricDemanded(m, demands) then [m] else []
  }

  function NamedScopes(demands: set<string>, scopes: seq<Scope>): seq<Scope> {
    if scopes == [] then []
    else
      var metrics := NamedMetrics(demands, scopes[|scopes| - 1].metrics);
      NamedScopes(demands, scopes[..|scopes| - 1]) + if metrics == [] then [] else [Scope(metrics)]
  }

  /** The batch a plain name list leaves over. */
  function NamedBatch(demands: set<string>, batch: seq<Resource>): seq<Resource> {
    if batch == [] then []
    else
      var r := batch[|batch| - 1];
      var scopes := NamedScopes(demands, r.scopes);
      NamedBatch(demands, batch[..|batch| - 1]) + if scopes == [] then [] else [r.(scopes := scopes)]
  }

  // ----- the two modes agree -----

  /** The selector that names one series name: `{__name__="..."}`. */
  function ExactSelector(lib: Library, name: string): string {
    BlockText(lib, [("__name__", name)])
  }

  function ExactDemand(names: seq<string>): Demand {
    if names == [] then []
    else ExactDemand(names[..|names| - 1]) + [[Matcher("__name__", Eq, names[|names| - 1])]]
  }

  function ExactSelectors(lib: Library, names: seq<string>): seq<string> {
    if names == [] then [] else ExactSelectors(lib, names[..|names| - 1]) + [ExactSelector(lib, names[|names| - 1])]
  }

  lemma {:induction false} ExactSelectorParses(lib: Library, name: string)
    ensures Parse(lib, ExactSelector(lib, name), false) == Ok([Matcher("__name__", Eq, name)])
  {
    var pairs := [("__name__", name)];
    BlockParsesBack(lib, pairs);
    assert pairs[1..] == [];
    assert EqualityMatchers(pairs) == [Matcher("__name__", Eq, name)];
  }

  lemma {:induction false} ExactSelectorsParse(lib: Library, names: seq<string>)
    ensures Parseable(lib, ExactSelectors(lib, names)) == ExactDemand(names)
  {
    if names != [] {
      var raw, last := ExactSelectors(lib, names[..|names| - 1]), names[|names| - 1];
      ExactSelectorsParse(lib, names[..|names| - 1]);
      ExactSelectorParses(lib, last);
      assert (raw + [ExactSelector(lib, last)])[..|raw|] == raw;
    }
  }

  lemma {:induction false} ExactDemandIn(names: seq<string>, ms: seq<Matcher>)
    ensures ms in ExactDemand(names) <==> exists n | n in names :: ms == [Matcher("__name__", Eq, n)]
  {
    if names != [] {
      ExactDemandIn(names[..|names| - 1], ms);
      assert names == names[..|names| - 1] + [names[|names| - 1]];
    }
  }

  lemma {:induction false} ExactMatcherWants(lib: Library, name: string, n: string, res: Attrs, p: Point)
    ensures var ms := [Matcher("__name__", Eq, name)];
            (WantsAs(lib, ms, n, res, p) <==> n == name) && (AcceptsByName(lib, ms, n) <==> n == name)
  {
    var m := Matcher("__name__", Eq, name);
    assert m in [m] && m in WithoutBucketLabels([m]);
  }

  lemma {:induction false} DemandedIsFamilyOverlap(m: Metric, names: seq<string>)
    requires !m.kind.Unset?
    ensures IsMetricDemanded(m, Elements(names)) <==> exists n | n in names :: n in FamilyNames(m.kind, m.base)
  {
    var f := FamilyNames(m.kind, m.base);
    assert f[0] in f && (|f| > 1 ==> f[1] in f && f[2] in f);
  }

  lemma {:induction false} ExactDemandWants(lib: Library, names: seq<string>, family: seq<string>, res: Attrs, p: Point)
    ensures Wanted(lib, ExactDemand(names), family, res, p) <==> exists n | n in names :: n in family
  {
    if Wanted(lib, ExactDemand(names), family, res, p) {
      var ms :| ms in ExactDemand(names) && exists n | n in family :: WantsAs(lib, ms, n, res, p);
      var n :| n in family && WantsAs(lib, ms, n, res, p);
      ExactDemandIn(names, ms);
      var name :| name in names && ms == [Matcher("__name__", Eq, name)];
      ExactMatcherWants(lib, name, n, res, p);
    }
    if exists n | n in names :: n in family {
      var n :| n in names && n in family;
      ExactDemandIn(names, [Matcher("__name__", Eq, n)]);
      ExactMatcherWants(lib, n, n, res, p);
    }
  }

  /** With exact-name selectors, selector mode keeps a typed metric exactly when name mode does, and then with all its
      datapoints. */
  lemma {:induction false} ModesAgreeOnMetric(lib: Library, names: seq<string>, res: Attrs, m: Metric)
    requires !m.kind.Unset?
    ensures KeepMetric(lib, ExactDemand(names), res, m) ==
            if IsMetricDemanded(m, Elements(names)) then Some(m) else None
  {
    if m.points == [] {
      ModesOnBareMetric(lib, names, res, m);
      return;
    }
    var family := FamilyNames(m.kind, m.base);
    DemandedIsFamilyOverlap(m, names);
    forall p: Point ensures Wanted(lib, ExactDemand(names), family, res, p) <==> IsMetricDemanded(m, Elements(names)) {
      ExactDemandWants(lib, names, family, res, p);
    }
    if IsMetricDemanded(m, Elements(names)) {
      AllWanted(lib, ExactDemand(names), family, res, m.points);
    } else {
      NoneWanted(lib, ExactDemand(names), family, res, m.points);
    }
  }

  lemma {:induction false} ModesAgreeOnMetrics(lib: Library, names: seq<string>, res: Attrs, metrics: seq<Metric>)
    requires forall m | m in metrics :: !m.kind.Unset?
    ensures KeepMetrics(lib, ExactDemand(names), res, metrics) == NamedMetrics(Elements(names), metrics)
  {
    if metrics != [] {
      ModesAgreeOnMetrics(lib, names, res, metrics[..|metrics| - 1]);
      ModesAgreeOnMetric(lib, names, res, metrics[|metrics| - 1]);
    }
  }

  lemma {:induction false} ModesAgreeOnScopes(lib: Library, names: seq<string>, res: Attrs, scopes: seq<Scope>)
    requires forall sc | sc in scopes :: forall m | m in sc.metrics :: !m.kind.Unset?
    ensures KeepScopes(lib, ExactDemand(names), res, scopes) == NamedScopes(Elements(names), scopes)
  {
    if scopes != [] {
      ModesAgreeOnScopes(lib, names, res, scopes[..|scopes| - 1]);
      assert scopes[|scopes| - 1] in scopes;
      ModesAgreeOnMetrics(lib, names, res, scopes[|scopes| - 1].metrics);
    }
  }

  /** Name mode and selector mode forward the same batch, when every metric is typed. */
  lemma {:induction false} ModesAgree(lib: Library, names: seq<string>, batch: seq<Resource>)
    requires forall r | r in batch :: forall sc | sc in r.scopes :: forall m | m in sc.metrics :: !m.kind.Unset?
    ensures KeepBatch(lib, ExactDemand(names), batch) == NamedBatch(Elements(names), batch)
  {
    if batch != [] {
      ModesAgree(lib, names, batch[..|batch| - 1]);
      var r := batch[|batch| - 1];
      assert r in batch;
      ModesAgreeOnScopes(lib, names, r.attrs, r.scopes);
    }
  }

  lemma {:induction false} ExactDemandByName(lib: Library, names: seq<string>, family: seq<string>)
    ensures WantedByName(lib, ExactDemand(names), family) <==> exists n | n in names :: n in family
  {
    var p := Point([], [], false, []);
    if WantedByName(lib, ExactDemand(names), family) {
      var ms :| ms in ExactDemand(names) && exists n | n in family :: AcceptsByName(lib, ms, n);
      var n :| n in family && AcceptsByName(lib, ms, n);
      ExactDemandIn(names, ms);
      var name :| name in names && ms == [Matcher("__name__", Eq, name)];
      ExactMatcherWants(lib, name, n, [], p);
    }
    if n :| n in names && n in family {
      ExactDemandIn(names, [Matcher("__name__", Eq, n)]);
      ExactMatcherWants(lib, n, n, [], p);
      assert AcceptsByName(lib, [Matcher("__name__", Eq, n)], n);
    }
  }

  /** Without a datapoint the modes differ on exactly the metrics that have no type. */
  lemma {:induction false} ModesOnBareMetric(lib: Library, names: seq<string>, res: Attrs, m: Metric)
    requires m.points == []
    ensures var byName := IsMetricDemanded(m, Elements(names));
            var bySelector := KeepMetric(lib, ExactDemand(names), res, m);
            && (!m.kind.Unset? ==> (bySelector == if byName then Some(m) else None))
            && (m.kind.Unset? ==> !byName && (bySelector.Some? <==> m.base in names))
  {
    var family := FamilyNames(m.kind, m.base);
    ExactDemandByName(lib, names, family);
    if m.kind.Unset? {
      assert forall n :: n in family <==> n == m.base;
    } else {
      DemandedIsFamilyOverlap(m, names);
    }
  }

  // ----- the component -----

  class Processor {
    const lib: Library
    var cachedKey: string
    var cachedSet: Option<CompiledSet>
    /** The list the cached set was compiled from. */
    ghost var cachedRaw: seq<string>

    ghost predicate Valid()
      reads this
    {
      cachedSet.Some? ==> cachedKey == Join(cachedRaw, '\0') && cachedSet.value == Compile(Parseable(lib, cachedRaw))
    }

    constructor (lib: Library)
      ensures Valid() && this.lib == lib && cachedSet.None?
    {
      this.lib, cachedKey, cachedSet, cachedRaw := lib, "", None, [];
    }

    /** The compiled set for a demand list, compiled again only when the joined list changed. Lists that join to the
        same key are told apart only if they are free of NUL; then the answer is always that of a fresh compile. */
    method ParsedSelectors(raw: seq<string>) returns (s: CompiledSet)
      requires Valid()
      modifies this
      ensures Valid() && cachedSet == Some(s) && Join(cachedRaw, '\0') == Join(raw, '\0')
      ensures cachedRaw == raw || (old(cachedSet).Some? && cachedRaw == old(cachedRaw))
      ensures NulFree(raw) && (old(cachedSet).Some? ==> NulFree(old(cachedRaw))) ==>
                cachedRaw == raw && s == Compile(Parseable(lib, raw))
    {
      var key := Join(raw, '\0');
      if cachedSet.Some? && key == cachedKey {
        if NulFree(raw) && NulFree(cachedRaw) {
          JoinInjective(raw, cachedRaw, '\0');
        }
        return cachedSet.value;
      }
      s := CompileSelectors(lib, raw);
      cachedKey, cachedSet, cachedRaw := key, Some(s), raw;
    }

    /** What goes on to the next consumer: None when the whole batch is blocked. `demands` is the name list, `selectors`
        the selector list; without a provider `demands` is None. Selector mode answers for the list behind the cache key,
        which is the given list unless a NUL makes keys collide. */
    method ConsumeMetrics(md: MetricsBatch, demands: Option<seq<string>>, selectors: seq<string>)
      returns (sent: Option<seq<Resource>>)
      requires Valid() && WellTyped(md.resources)
      modifies this, md
      ensures Valid()
      ensures sent == if demands.None? then None
                      else if selectors != [] then
                        var demand := Parseable(lib, cachedRaw);
                        if demand == [] then None else Some(KeepBatch(lib, demand, old(md.resources)))
                      else if demands.value == [] then None
                      else Some(NamedBatch(Elements(demands.value), old(md.resources)))
      ensures demands.Some? && selectors != [] ==>
                && Join(cachedRaw, '\0') == Join(selectors, '\0')
                && (NulFree(selectors) && (old(cachedSet).Some? ==> NulFree(old(cachedRaw))) ==> cachedRaw == selectors)
    {
      if demands.None? {
        return None;
      }
      if selectors != [] {
        var s := ParsedSelectors(selectors);
        CompileEmpty(Parseable(lib, cachedRaw));
        if s.Empty() {
          return None;
        }
        FilterBySelectors(lib, Parseable(lib, cachedRaw), s, md);
        return Some(md.resources);
      }
      if demands.value == [] {
        return None;
      }
      FilterByNames(Elements(demands.value), md);
      return Some(md.resources);
    }
  }

  method FilterByNames(demands: set<string>, md: MetricsBatch)
    modifies md
    ensures md.resources == NamedBatch(demands, old(md.resources))
  {
    var batch := md.resources;
    var kept: seq<Resource> := [];
    for i := 0 to |batch|
      invariant kept == NamedBatch(demands, batch[..i])
    {
      assert batch[..i + 1][..i] == batch[..i];
      var scopes: seq<Scope> := [];
      var all := batch[i].scopes;
      for j := 0 to |all|
        invariant scopes == NamedScopes(demands, all[..j])
      {
        assert all[..j + 1][..j] == all[..j];
        var metrics := FilterMetricsByName(demands, all[j].metrics);
        if metrics != [] {
          scopes := scopes + [Scope(metrics)];
        }
      }
      assert all[..|all|] == all;
      if scopes != [] {
        kept := kept + [batch[i].(scopes := scopes)];
      }
    }
    assert batch[..|batch|] == batch;
    md.resources := kept;
  }

  method FilterMetricsByName(demands: set<string>, metrics: seq<Metric>) returns (kept: seq<Metric>)
    ensures kept == NamedMetrics(demands, metrics)
  {
    kept := [];
    for i := 0 to |metrics|
      invariant kept == NamedMetrics(demands, metrics[..i])
    {
      assert metrics[..i + 1][..i] == metrics[..i];
      if IsMetricDemanded(metrics[i], demands) {
        kept := kept + [metrics[i]];
      }
    }
    assert metrics[..|metrics|] == metrics;
  }

  // ----- why the cache needs NUL-free lists -----

  function FirstPart(name: string, v: string): string {
    "{" + (name + ("=" + ("\"" + v)))
  }

  function SecondPart(w: string): string {
    w + "\"}"
  }

  function Whole(name: string, v: string, w: string): string {
    FirstPart(name, v) + ['\0'] + SecondPart(w)
  }

  lemma {:induction false} WholeText(name: string, v: string, w: string)
    ensures Whole(name, v, w) == "{" + (name + ("=" + ("\"" + (v + ['\0'] + w + "\"") + "}")))
  {
  }

  lemma {:induction false} WholeParses(lib: Library, name: string, v: string, w: string)
    requires IsName(name, false) && IsPlain(v) && IsPlain(w)
    ensures Parse(lib, Whole(name, v, w), false) == Ok([Matcher(name, Eq, v + ['\0'] + w)])
  {
    var value := v + ['\0'] + w;
    var token := "\"" + (value + "\"");
    PlainLiteralReads(value);
    assert token[1..] == value + "\"";
    OneClauseParses(lib, name, token, false);
    WholeText(name, v, w);
  }

  lemma {:induction false} PartsDoNotParse(lib: Library, name: string, v: string, w: string)
    requires IsName(name, false) && IsPlain(v) && IsPlain(w)
    ensures Parse(lib, FirstPart(name, v), false).Err? && Parse(lib, SecondPart(w), false).Err?
  {
    NoBraceNoParse(lib, FirstPart(name, v));
    NoOpeningNoParse(lib, SecondPart(w));
  }

  /** Two lists with one cache key but different demands: a selector whose value holds a NUL, and the two parts that
      splitting it at the NUL leaves. After the parts, the cache would answer the selector with an empty set. */
  lemma {:induction false} NulCollision(lib: Library, name: string, v: string, w: string)
    requires IsName(name, false) && IsPlain(v) && IsPlain(w)
    ensures var parts := [FirstPart(name, v), SecondPart(w)];
            && Join(parts, '\0') == Join([Whole(name, v, w)], '\0')
            && Parseable(lib, parts) == []
            && Parseable(lib, [Whole(name, v, w)]) == [[Matcher(name, Eq, v + ['\0'] + w)]]
  {
    WholeParses(lib, name, v, w);
    PartsDoNotParse(lib, name, v, w);
    OneParseable(lib, Whole(name, v, w));
    OneParseable(lib, FirstPart(name, v));
    var parts := [FirstPart(name, v), SecondPart(w)];
    assert parts[..1] == [FirstPart(name, v)] && parts[1..] == [SecondPart(w)];
  }

  lemma {:induction false} OneParseable(lib: Library, s: string)
    ensures Parseable(lib, [s]) == match Parse(lib, s, false) case Ok(ms) => [ms] case Err(_) => []
  {
    assert [s][..0] == [];
  }

  lemma {:induction false} NoBraceNoParse(lib: Library, s: string)
    requires '}' !in s
    ensures Parse(lib, s, false).Err?
  {
    if Parse(lib, s, false).Ok? {
      var x := AcceptedInGrammar(lib, s, false);
      ClosingBraceShows(x.clauses, x.trailing, "}" + x.tail);
    }
  }

  lemma {:induction false} NoOpeningNoParse(lib: Library, s: string)
    requires '{' !in s
    ensures Parse(lib, s, false).Err?
  {
    if Parse(lib, s, false).Ok? {
      var x := AcceptedInGrammar(lib, s, false);
      OpeningBraceShows(x);
    }
  }

  lemma {:induction false} OpeningBraceShows(x: Syntax)
    requires x.clauses != []
    ensures '{' in Written(x)
  {
    assert Written(x)[|x.lead|] == '{';
  }

  lemma {:induction false} ClosingBraceShows(clauses: seq<Clause>, trailing: Option<string>, t: string)
    requires clauses != [] && '}' in t
    ensures '}' in ListText(clauses, trailing, t)
  {
    if |clauses| > 1 {
      ClosingBraceShows(clauses[1..], trailing, t);
    }
  }
}
