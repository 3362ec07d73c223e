/** The metric demand filter: selectors compiled into an exact-name index and a scan list, applied to each datapoint. */
module DemandFilter {
  import opened Text
  import opened Selector
  import opened SelectorScanner
  import opened PromNaming
  import opened Telemetry
  import opened Picks

  // ----- what the demand means, without any index -----

  /** A demand: the matchers of each selector that parses, in order. */
  type Demand = seq<seq<Matcher>>

  function Parseable(lib: Library, raw: seq<string>): Demand {
    if raw == [] then []
    else
      Parseable(lib, raw[..|raw| - 1]) +
      match Parse(lib, raw[|raw| - 1], false)
      case Ok(ms) => [ms]
      case Err(_) => []
  }

  /** The selector without its le and quantile matchers, which the filter ignores. */
  function WithoutBucketLabels(ms: seq<Matcher>): (r: seq<Matcher>)
    ensures forall m :: m in r <==> m in ms && m.name != "le" && m.name != "quantile"
  {
    if ms == [] then []
    else
      var last := ms[|ms| - 1];
      var rest := WithoutBucketLabels(ms[..|ms| - 1]);
      assert ms == ms[..|ms| - 1] + [last];
      if last.name == "le" || last.name == "quantile" then rest else rest + [last]
  }

  /** The labels a selector is evaluated on: the series' own, and its name as `__name__`. */
  function NamedLabels(labels: Labels, name: string): Labels {
    labels["__name__" := name]
  }

  /** Plain evaluation: some selector of the demand matches the series. */
  predicate Demanded(lib: Library, demand: Demand, s: Series) {
    exists ms | ms in demand :: Matches(lib, ms, NamedLabels(s.labels, s.name))
  }

  /** Le and quantile aside, the selector matches the datapoint under this series name. */
  predicate WantsAs(lib: Library, ms: seq<Matcher>, name: string, res: Attrs, p: Point) {
    Matches(lib, WithoutBucketLabels(ms), NamedLabels(SeriesLabels(lib, res, p.attrs, []), name))
  }

  /** A datapoint is wanted when some selector wants it under some name of its metric's family. */
  predicate Wanted(lib: Library, demand: Demand, names: seq<string>, res: Attrs, p: Point) {
    exists ms | ms in demand :: exists n | n in names :: WantsAs(lib, ms, n, res, p)
  }

  /** The selector constrains nothing but the name (le and quantile aside), and accepts this one. */
  predicate AcceptsByName(lib: Library, ms: seq<Matcher>, name: string) {
    forall m | m in WithoutBucketLabels(ms) :: m.name == "__name__" && MatchValue(lib, m, name)
  }

  predicate WantedByName(lib: Library, demand: Demand, names: seq<string>) {
    exists ms | ms in demand :: exists n | n in names :: AcceptsByName(lib, ms, n)
  }

  function KeepPoints(lib: Library, demand: Demand, names: seq<string>, res: Attrs, points: seq<Point>): seq<Point> {
    if points == [] then []
    else
      var p := points[|points| - 1];
      KeepPoints(lib, demand, names, res, points[..|points| - 1]) + if Wanted(lib, demand, names, res, p) then [p] else []
  }

  /** What is left of a metric: nothing, or the metric with its wanted datapoints. A metric that arrives without
      datapoints stays when it is wanted by name alone. */
  function KeepMetric(lib: Library, demand: Demand, res: Attrs, m: Metric): Option<Metric> {
    var names := FamilyNames(m.kind, m.base);
    var points := KeepPoints(lib, demand, names, res, m.points);
    if points != [] || (m.points == [] && WantedByName(lib, demand, names)) then Some(m.(points := points)) else None
  }

  function KeepMetrics(lib: Library, demand: Demand, res: Attrs, metrics: seq<Metric>): seq<Metric> {
    if metrics == [] then []
    else
      var kept := KeepMetric(lib, demand, res, metrics[|metrics| - 1]);
      KeepMetrics(lib, demand, res, metrics[..|metrics| - 1]) + if kept.Some? then [kept.value] else []
  }

  function KeepScopes(lib: Library, demand: Demand, res: Attrs, scopes: seq<Scope>): seq<Scope> {
    if scopes == [] then []
    else
      var metrics := KeepMetrics(lib, demand, res, scopes[|scopes| - 1].metrics);
      KeepScopes(lib, demand, res, scopes[..|scopes| - 1]) + if metrics == [] then [] else [Scope(metrics)]
  }

  /** The batch the demand leaves over. */
  function KeepBatch(lib: Library, demand: Demand, batch: seq<Resource>): seq<Resource> {
    if batch == [] then []
    else
      var r := batch[|batch| - 1];
      var scopes := KeepScopes(lib, demand, r.attrs, r.scopes);
      KeepBatch(lib, demand, batch[..|batch| - 1]) + if scopes == [] then [] else [r.(scopes := scopes)]
  }

  // ----- compiled selectors -----

  datatype Compiled = Compiled(nameMatchers: seq<Matcher>, labelMatchers: seq<Matcher>)

  datatype CompiledSet = CompiledSet(byName: map<string, seq<Compiled>>, scan: seq<Compiled>) {
    predicate Empty() {
      byName == map[] && scan == []
    }
  }

  function SplitMatchers(ms: seq<Matcher>): Compiled {
    if ms == [] then Compiled([], [])
    else
      var m := ms[|ms| - 1];
      var c := SplitMatchers(ms[..|ms| - 1]);
      if m.name == "__name__" then c.(nameMatchers := c.nameMatchers + [m])
      else if m.name == "le" || m.name == "quantile" then c
      else c.(labelMatchers := c.labelMatchers + [m])
  }

  function At(index: map<string, seq<Compiled>>, name: string): seq<Compiled> {
    if name in index then index[name] else []
  }

  function AddCompiled(s: CompiledSet, c: Compiled): CompiledSet {
    if |c.nameMatchers| == 1 && c.nameMatchers[0].op.Eq? then
      var name := c.nameMatchers[0].value;
      s.(byName := s.byName[name := At(s.byName, name) + [c]])
    else s.(scan := s.scan + [c])
  }

  function Compile(demand: Demand): CompiledSet {
    if demand == [] then CompiledSet(map[], [])
    else AddCompiled(Compile(demand[..|demand| - 1]), SplitMatchers(demand[|demand| - 1]))
  }

  method SplitSelector(ms: seq<Matcher>) returns (c: Compiled)
    ensures c == SplitMatchers(ms)
  {
    c := Compiled([], []);
    for j := 0 to |ms|
      invariant c == SplitMatchers(ms[..j])
    {
      assert ms[..j + 1][..j] == ms[..j];
      if ms[j].name == "__name__" {
        c := c.(nameMatchers := c.nameMatchers + [ms[j]]);
      } else if ms[j].name != "le" && ms[j].name != "quantile" {
        c := c.(labelMatchers := c.labelMatchers + [ms[j]]);
      }
    }
    assert ms[..|ms|] == ms;
  }

  /** Parses and indexes a selector list; a selector that does not parse is skipped. */
  method CompileSelectors(lib: Library, raw: seq<string>) returns (s: CompiledSet)
    ensures s == Compile(Parseable(lib, raw))
  {
    s := CompiledSet(map[], []);
    for i := 0 to |raw|
      invariant s == Compile(Parseable(lib, raw[..i]))
    {
      assert raw[..i + 1][..i] == raw[..i];
      ghost var before := Parseable(lib, raw[..i]);
      var parsed := ParseSelector(lib, raw[i], false);
      if parsed.Ok? {
        var c := SplitSelector(parsed.value);
        s := AddCompiled(s, c);
        assert (before + [parsed.value])[..|before|] == before;
      } else {
        assert before + [] == before;
      }
    }
    assert raw[..|raw|] == raw;
  }

  predicate MatchesName(lib: Library, c: Compiled, name: string) {
    forall m | m in c.nameMatchers :: MatchValue(lib, m, name)
  }

  /** The label matchers accept the split view: datapoint attributes first, resource labels second. */
  predicate MatchesView(lib: Library, c: Compiled, res: Attrs, p: Point) {
    forall m | m in c.labelMatchers :: MatchValue(lib, m, SplitLookup(lib, res, p.attrs, m.name))
  }

  ghost predicate Found(lib: Library, s: CompiledSet, name: string, c: Compiled) {
    c in At(s.byName, name) || (c in s.scan && MatchesName(lib, c, name))
  }

  ghost predicate IsCandidate(lib: Library, s: CompiledSet, names: seq<string>, c: Compiled) {
    exists n | n in names :: Found(lib, s, n, c)
  }

  method CandidatesFor(lib: Library, s: CompiledSet, names: seq<string>) returns (out: seq<Compiled>)
    ensures forall c :: c in out <==> IsCandidate(lib, s, names, c)
  {
    out := [];
    for i := 0 to |names|
      invariant forall c :: c in out <==> exists k | 0 <= k < i :: Found(lib, s, names[k], c)
    {
      ghost var before := out;
      out := out + At(s.byName, names[i]);
      for j := 0 to |s.scan|
        invariant forall c :: c in out <==> c in before || c in At(s.byName, names[i]) ||
                                            (c in s.scan[..j] && MatchesName(lib, c, names[i]))
      {
        if MatchesName(lib, s.scan[j], names[i]) {
          out := out + [s.scan[j]];
        }
        assert s.scan[..j + 1] == s.scan[..j] + [s.scan[j]];
      }
      assert s.scan[..|s.scan|] == s.scan;
      assert forall c :: c in out <==> c in before || Found(lib, s, names[i], c);
    }
  }

  // ----- the index stands for the demand -----

  lemma {:induction false} SplitMatchersExact(ms: seq<Matcher>, m: Matcher)
    ensures m in SplitMatchers(ms).nameMatchers <==> m in WithoutBucketLabels(ms) && m.name == "__name__"
    ensures m in SplitMatchers(ms).labelMatchers <==> m in WithoutBucketLabels(ms) && m.name != "__name__"
  {
    if ms != [] {
      SplitMatchersExact(ms[..|ms| - 1], m);
      assert ms == ms[..|ms| - 1] + [ms[|ms| - 1]];
    }
  }

  lemma {:induction false} AddedIsFound(lib: Library, s: CompiledSet, added: Compiled, name: string, c: Compiled)
    ensures Found(lib, AddCompiled(s, added), name, c) <==>
            Found(lib, s, name, c) || (c == added && MatchesName(lib, c, name))
  {
    if |added.nameMatchers| == 1 {
      assert added.nameMatchers[0] in added.nameMatchers;
    }
  }

  ghost predicate CompiledFrom(demand: Demand, c: Compiled) {
    exists ms | ms in demand :: c == SplitMatchers(ms)
  }

  /** Looking a name up in the index and scanning the rest finds exactly the compiled selectors that accept it. */
  lemma {:induction false} IndexRefinesScan(lib: Library, demand: Demand, name: string, c: Compiled)
    ensures Found(lib, Compile(demand), name, c) <==> CompiledFrom(demand, c) && MatchesName(lib, c, name)
  {
    if demand != [] {
      var front, last := demand[..|demand| - 1], demand[|demand| - 1];
      IndexRefinesScan(lib, front, name, c);
      AddedIsFound(lib, Compile(front), SplitMatchers(last), name, c);
      assert demand == front + [last];
      assert CompiledFrom(demand, c) <==> CompiledFrom(front, c) || c == SplitMatchers(last);
    }
  }

  lemma {:induction false} CompileEmpty(demand: Demand)
    ensures Compile(demand).Empty() <==> demand == []
  {
    if demand != [] {
      var c := SplitMatchers(demand[|demand| - 1]);
      var s := AddCompiled(Compile(demand[..|demand| - 1]), c);
      if |c.nameMatchers| == 1 && c.nameMatchers[0].op.Eq? {
        assert c.nameMatchers[0].value in s.byName;
      } else {
        assert c in s.scan;
      }
    }
  }

  /** Splitting a selector into name and label matchers, and looking labels up in the split view, does not change what
      it says of a series. */
  lemma {:induction false} SplitMeansPlain(lib: Library, ms: seq<Matcher>, name: string, res: Attrs, p: Point)
    ensures var c := SplitMatchers(ms);
            MatchesName(lib, c, name) && MatchesView(lib, c, res, p) <==> WantsAs(lib, ms, name, res, p)
  {
    var labels := NamedLabels(SeriesLabels(lib, res, p.attrs, []), name);
    forall m
      ensures m in SplitMatchers(ms).nameMatchers <==> m in WithoutBucketLabels(ms) && m.name == "__name__"
      ensures m in SplitMatchers(ms).labelMatchers <==> m in WithoutBucketLabels(ms) && m.name != "__name__"
      ensures m.name != "__name__" ==> SplitLookup(lib, res, p.attrs, m.name) == Lookup(labels, m.name)
    {
      SplitMatchersExact(ms, m);
      SplitViewIsSeriesView(lib, res, p.attrs, [], m.name);
    }
  }

  lemma {:induction false} SplitMeansByName(lib: Library, ms: seq<Matcher>, name: string)
    ensures var c := SplitMatchers(ms);
            MatchesName(lib, c, name) && c.labelMatchers == [] <==> AcceptsByName(lib, ms, name)
  {
    var c := SplitMatchers(ms);
    forall m
      ensures m in c.nameMatchers <==> m in WithoutBucketLabels(ms) && m.name == "__name__"
      ensures m in c.labelMatchers <==> m in WithoutBucketLabels(ms) && m.name != "__name__"
    {
      SplitMatchersExact(ms, m);
    }
    assert c.labelMatchers != [] ==> c.labelMatchers[0] in c.labelMatchers;
  }

  lemma {:induction false} CandidateIff(lib: Library, demand: Demand, names: seq<string>, c: Compiled)
    ensures IsCandidate(lib, Compile(demand), names, c) <==>
            exists ms | ms in demand :: c == SplitMatchers(ms) && exists n | n in names :: MatchesName(lib, c, n)
  {
    forall n ensures Found(lib, Compile(demand), n, c) <==> CompiledFrom(demand, c) && MatchesName(lib, c, n) {
      IndexRefinesScan(lib, demand, n, c);
    }
  }

  /** Some compiled selector among `cands` accepts the datapoint's split view. */
  ghost predicate SomeAccepts(lib: Library, cands: seq<Compiled>, res: Attrs, p: Point) {
    exists c | c in cands :: MatchesView(lib, c, res, p)
  }

  /** The candidates found for a metric. */
  ghost predicate Candidates(lib: Library, demand: Demand, names: seq<string>, cands: seq<Compiled>) {
    forall c :: c in cands <==> IsCandidate(lib, Compile(demand), names, c)
  }

  /** The candidates accept a datapoint exactly when the demand, evaluated plainly, wants it. */
  lemma {:induction false} CandidatesMeanWanted(lib: Library, demand: Demand, names: seq<string>, res: Attrs, p: Point,
                                                cands: seq<Compiled>)
    requires Candidates(lib, demand, names, cands)
    ensures SomeAccepts(lib, cands, res, p) <==> Wanted(lib, demand, names, res, p)
  {
    if SomeAccepts(lib, cands, res, p) {
      var c :| c in cands && MatchesView(lib, c, res, p);
      CandidateIff(lib, demand, names, c);
      var ms :| ms in demand && c == SplitMatchers(ms);
      var n :| n in names && MatchesName(lib, c, n);
      SplitMeansPlain(lib, ms, n, res, p);
    }
    if Wanted(lib, demand, names, res, p) {
      var ms :| ms in demand && exists n | n in names :: WantsAs(lib, ms, n, res, p);
      var n :| n in names && WantsAs(lib, ms, n, res, p);
      SplitMeansPlain(lib, ms, n, res, p);
      CandidateIff(lib, demand, names, SplitMatchers(ms));
      assert SplitMatchers(ms) in cands;
    }
  }

  ghost predicate SomeUnconstrained(cands: seq<Compiled>) {
    exists c | c in cands :: c.labelMatchers == []
  }

  lemma {:induction false} UnconstrainedMeansByName(lib: Library, demand: Demand, names: seq<string>,
                                                    cands: seq<Compiled>)
    requires Candidates(lib, demand, names, cands)
    ensures SomeUnconstrained(cands) <==> WantedByName(lib, demand, names)
  {
    if SomeUnconstrained(cands) {
      var c :| c in cands && c.labelMatchers == [];
      CandidateIff(lib, demand, names, c);
      var ms :| ms in demand && c == SplitMatchers(ms);
      var n :| n in names && MatchesName(lib, c, n);
      SplitMeansByName(lib, ms, n);
    }
    if WantedByName(lib, demand, names) {
      var ms :| ms in demand && exists n | n in names :: AcceptsByName(lib, ms, n);
      var n :| n in names && AcceptsByName(lib, ms, n);
      SplitMeansByName(lib, ms, n);
      CandidateIff(lib, demand, names, SplitMatchers(ms));
      assert SplitMatchers(ms) in cands;
    }
  }

  lemma {:induction false} ByNameWants(lib: Library, demand: Demand, names: seq<string>, res: Attrs, p: Point)
    requires WantedByName(lib, demand, names)
    ensures Wanted(lib, demand, names, res, p)
  {
    var ms :| ms in demand && exists n | n in names :: AcceptsByName(lib, ms, n);
    var n :| n in names && AcceptsByName(lib, ms, n);
    assert WantsAs(lib, ms, n, res, p);
  }

  lemma {:induction false} AllWanted(lib: Library, demand: Demand, names: seq<string>, res: Attrs, points: seq<Point>)
    requires forall p: Point | p in points :: Wanted(lib, demand, names, res, p)
    ensures KeepPoints(lib, demand, names, res, points) == points
  {
    if points != [] {
      AllWanted(lib, demand, names, res, points[..|points| - 1]);
      assert points == points[..|points| - 1] + [points[|points| - 1]];
    }
  }

  lemma {:induction false} NoneWanted(lib: Library, demand: Demand, names: seq<string>, res: Attrs, points: seq<Point>)
    requires forall p: Point | p in points :: !Wanted(lib, demand, names, res, p)
    ensures KeepPoints(lib, demand, names, res, points) == []
  {
    if points != [] {
      NoneWanted(lib, demand, names, res, points[..|points| - 1]);
    }
  }

  // ----- filtering as it runs -----

  method MatchCandidate(lib: Library, c: Compiled, scratch: Labels, resLabels: Labels, ghost res: Attrs, ghost p: Point)
    returns (b: bool)
    requires scratch == Overlay(lib, map[], p.attrs) && resLabels == ResourceLabels(lib, res)
    ensures b <==> MatchesView(lib, c, res, p)
  {
    for j := 0 to |c.labelMatchers|
      invariant forall k | 0 <= k < j ::
                  MatchValue(lib, c.labelMatchers[k], SplitLookup(lib, res, p.attrs, c.labelMatchers[k].name))
    {
      var m := c.labelMatchers[j];
      var v := if m.name in scratch then scratch[m.name] else Lookup(resLabels, m.name);
      if !MatchValue(lib, m, v) {
        assert m in c.labelMatchers;
        return false;
      }
    }
    return true;
  }

  lemma {:induction false} SomeAcceptsNext(lib: Library, cands: seq<Compiled>, c: Compiled, res: Attrs, p: Point)
    ensures SomeAccepts(lib, cands + [c], res, p) <==> SomeAccepts(lib, cands, res, p) || MatchesView(lib, c, res, p)
  {
    assert c in cands + [c];
  }

  lemma {:induction false} SomeAcceptsMore(lib: Library, cands: seq<Compiled>, i: nat, res: Attrs, p: Point)
    requires i <= |cands| && SomeAccepts(lib, cands[..i], res, p)
    ensures SomeAccepts(lib, cands, res, p)
  {
    var c :| c in cands[..i] && MatchesView(lib, c, res, p);
    assert c in cands;
  }

  method MatchPoint(lib: Library, cands: seq<Compiled>, resLabels: Labels, ghost res: Attrs, p: Point) returns (b: bool)
    requires resLabels == ResourceLabels(lib, res)
    ensures b <==> SomeAccepts(lib, cands, res, p)
  {
    var scratch := Flatten(lib, map[], p.attrs);
    for i := 0 to |cands|
      invariant !SomeAccepts(lib, cands[..i], res, p)
    {
      assert cands[..i + 1] == cands[..i] + [cands[i]];
      SomeAcceptsNext(lib, cands[..i], cands[i], res, p);
      var matched := MatchCandidate(lib, cands[i], scratch, resLabels, res, p);
      if matched {
        SomeAcceptsMore(lib, cands, i + 1, res, p);
        return true;
      }
    }
    assert cands[..|cands|] == cands;
    return false;
  }

  /** The fast path: a candidate without label matchers wants every series of the metric. */
  method HasUnconstrained(cands: seq<Compiled>) returns (b: bool)
    ensures b <==> SomeUnconstrained(cands)
  {
    for i := 0 to |cands|
      invariant forall k | 0 <= k < i :: cands[k].labelMatchers != []
    {
      if cands[i].labelMatchers == [] {
        assert cands[i] in cands;
        return true;
      }
    }
    return false;
  }

  method FilterPoints(lib: Library, ghost demand: Demand, ghost names: seq<string>, cands: seq<Compiled>,
                      resLabels: Labels, ghost res: Attrs, points: seq<Point>)
    returns (kept: seq<Point>)
    requires Candidates(lib, demand, names, cands) && resLabels == ResourceLabels(lib, res)
    ensures kept == KeepPoints(lib, demand, names, res, points)
  {
    kept := [];
    for i := 0 to |points|
      invariant kept == KeepPoints(lib, demand, names, res, points[..i])
    {
      assert points[..i + 1][..i] == points[..i];
      var b := MatchPoint(lib, cands, resLabels, res, points[i]);
      CandidatesMeanWanted(lib, demand, names, res, points[i], cands);
      if b {
        kept := kept + [points[i]];
      }
    }
    assert points[..|points|] == points;
  }

  /** A metric whose type was never set has no datapoints. */
  predicate Typed(m: Metric) {
    m.kind.Unset? ==> m.points == []
  }

  /** filterMetricDatapoints: what is left of one metric. */
  method FilterMetric(lib: Library, ghost demand: Demand, s: CompiledSet, resLabels: Labels, ghost res: Attrs,
                      m: Metric)
    returns (out: Option<Metric>)
    requires s == Compile(demand) && resLabels == ResourceLabels(lib, res) && Typed(m)
    ensures out == KeepMetric(lib, demand, res, m)
  {
    ghost var names := FamilyNames(m.kind, m.base);
    var cands := CandidatesFor(lib, s, FamilyNames(m.kind, m.base));
    assert Candidates(lib, demand, names, cands);
    UnconstrainedMeansByName(lib, demand, names, cands);
    if cands == [] {
      forall p: Point ensures !Wanted(lib, demand, names, res, p) {
        CandidatesMeanWanted(lib, demand, names, res, p, cands);
      }
      NoneWanted(lib, demand, names, res, m.points);
      return None;
    }
    var unconstrained := HasUnconstrained(cands);
    if unconstrained {
      forall p: Point ensures Wanted(lib, demand, names, res, p) {
        ByNameWants(lib, demand, names, res, p);
      }
      AllWanted(lib, demand, names, res, m.points);
      return Some(m);
    }
    var points := FilterPoints(lib, demand, names, cands, resLabels, res, m.points);
    return if points != [] then Some(m.(points := points)) else None;
  }

  method FilterMetrics(lib: Library, ghost demand: Demand, s: CompiledSet, resLabels: Labels, ghost res: Attrs,
                       metrics: seq<Metric>)
    returns (kept: seq<Metric>)
    requires s == Compile(demand) && resLabels == ResourceLabels(lib, res)
    requires forall m | m in metrics :: Typed(m)
    ensures kept == KeepMetrics(lib, demand, res, metrics)
  {
    kept := [];
    for i := 0 to |metrics|
      invariant kept == KeepMetrics(lib, demand, res, metrics[..i])
    {
      assert metrics[..i + 1][..i] == metrics[..i];
      assert metrics[i] in metrics;
      var m := FilterMetric(lib, demand, s, resLabels, res, metrics[i]);
      if m.Some? {
        kept := kept + [m.value];
      }
    }
    assert metrics[..|metrics|] == metrics;
  }

  predicate WellTyped(batch: seq<Resource>) {
    forall r | r in batch :: forall sc | sc in r.scopes :: forall m | m in sc.metrics :: Typed(m)
  }

  method FilterScopes(lib: Library, ghost demand: Demand, s: CompiledSet, resLabels: Labels, ghost res: Attrs,
                      scopes: seq<Scope>)
    returns (kept: seq<Scope>)
    requires s == Compile(demand) && resLabels == ResourceLabels(lib, res)
    requires forall sc | sc in scopes :: forall m | m in sc.metrics :: Typed(m)
    ensures kept == KeepScopes(lib, demand, res, scopes)
  {
    kept := [];
    for i := 0 to |scopes|
      invariant kept == KeepScopes(lib, demand, res, scopes[..i])
    {
      assert scopes[..i + 1][..i] == scopes[..i];
      assert scopes[i] in scopes;
      var metrics := FilterMetrics(lib, demand, s, resLabels, res, scopes[i].metrics);
      if metrics != [] {
        kept := kept + [Scope(metrics)];
      }
    }
    assert scopes[..|scopes|] == scopes;
  }

  /** A batch on its way through the pipeline, pruned in place. */
  class MetricsBatch {
    var resources: seq<Resource>

    constructor (resources: seq<Resource>)
      ensures this.resources == resources
    {
      this.resources := resources;
    }
  }

  /** filterBySelectors. */
  method FilterBySelectors(lib: Library, ghost demand: Demand, s: CompiledSet, md: MetricsBatch)
    requires s == Compile(demand) && WellTyped(md.resources)
    modifies md
    ensures md.resources == KeepBatch(lib, demand, old(md.resources))
  {
    var batch := md.resources;
    var kept: seq<Resource> := [];
    for i := 0 to |batch|
      invariant kept == KeepBatch(lib, demand, batch[..i])
    {
      assert batch[..i + 1][..i] == batch[..i];
      var r := batch[i];
      assert r in batch;
      var resLabels := ResourceLabelMap(lib, r.attrs);
      var scopes := FilterScopes(lib, demand, s, resLabels, r.attrs, r.scopes);
      if scopes != [] {
        kept := kept + [r.(scopes := scopes)];
      }
    }
    assert batch[..|batch|] == batch;
    md.resources := kept;
  }

  /** A demand is what parses of its selectors, in order. */
  lemma {:induction false} ParseableExact(lib: Library, raw: seq<string>)
    ensures Picked(raw, ParseRule(lib, false), Parseable(lib, raw))
  {
    ParseableCollects(lib, raw);
    FilterMapPicked(raw, ParseRule(lib, false));
  }

  lemma {:induction false} ParseableCollects(lib: Library, raw: seq<string>)
    ensures Parseable(lib, raw) == FilterMap(raw, ParseRule(lib, false))
  {
    if raw != [] {
      ParseableCollects(lib, raw[..|raw| - 1]);
    }
  }

  // ----- exactly what is kept -----

  /** Keep the datapoint if it is wanted. */
  ghost function PointRule(lib: Library, demand: Demand, names: seq<string>, res: Attrs): Point -> Option<Point> {
    (p: Point) => if Wanted(lib, demand, names, res, p) then Some(p) else None
  }

  lemma {:induction false} KeepPointsCollects(lib: Library, demand: Demand, names: seq<string>, res: Attrs,
                                              points: seq<Point>)
    ensures KeepPoints(lib, demand, names, res, points) == FilterMap(points, PointRule(lib, demand, names, res))
  {
    if points != [] {
      KeepPointsCollects(lib, demand, names, res, points[..|points| - 1]);
    }
  }

  /** What the filter does to one metric. It stays exactly when one of its datapoints is wanted, or when it has none and
      is wanted by name; and then with its name and type, and with exactly the wanted datapoints, in order. */
  lemma {:induction false} KeepMetricExact(lib: Library, demand: Demand, res: Attrs, m: Metric)
    ensures var names, out := FamilyNames(m.kind, m.base), KeepMetric(lib, demand, res, m);
            && (out.Some? <==> || (exists p | p in m.points :: Wanted(lib, demand, names, res, p))
                               || (m.points == [] && WantedByName(lib, demand, names)))
            && (out.Some? ==>
                  && out.value.base == m.base && out.value.kind == m.kind
                  && Picked(m.points, PointRule(lib, demand, names, res), out.value.points))
  {
    var names := FamilyNames(m.kind, m.base);
    KeepPointsCollects(lib, demand, names, res, m.points);
    FilterMapPicked(m.points, PointRule(lib, demand, names, res));
    FilterMapSome(m.points, PointRule(lib, demand, names, res));
  }

  ghost function MetricRule(lib: Library, demand: Demand, res: Attrs): Metric -> Option<Metric> {
    (m: Metric) => KeepMetric(lib, demand, res, m)
  }

  ghost predicate ScopeStays(lib: Library, demand: Demand, res: Attrs, sc: Scope) {
    exists m | m in sc.metrics :: KeepMetric(lib, demand, res, m).Some?
  }

  /** A scope stays unless all its metrics go. */
  ghost function ScopeRule(lib: Library, demand: Demand, res: Attrs): Scope -> Option<Scope> {
    (sc: Scope) =>
      if ScopeStays(lib, demand, res, sc) then Some(Scope(KeepMetrics(lib, demand, res, sc.metrics))) else None
  }

  ghost predicate ResourceStays(lib: Library, demand: Demand, r: Resource) {
    exists sc | sc in r.scopes :: ScopeStays(lib, demand, r.attrs, sc)
  }

  /** A resource stays, with its attributes, unless all its scopes go. */
  ghost function ResourceRule(lib: Library, demand: Demand): Resource -> Option<Resource> {
    (r: Resource) =>
      if ResourceStays(lib, demand, r) then Some(Resource(r.attrs, KeepScopes(lib, demand, r.attrs, r.scopes))) else None
  }

  lemma {:induction false} KeepMetricsCollects(lib: Library, demand: Demand, res: Attrs, metrics: seq<Metric>)
    ensures KeepMetrics(lib, demand, res, metrics) == FilterMap(metrics, MetricRule(lib, demand, res))
  {
    if metrics != [] {
      KeepMetricsCollects(lib, demand, res, metrics[..|metrics| - 1]);
      assert MetricRule(lib, demand, res)(metrics[|metrics| - 1]) == KeepMetric(lib, demand, res, metrics[|metrics| - 1]);
    }
  }

  lemma {:induction false} ScopeStaysIff(lib: Library, demand: Demand, res: Attrs, sc: Scope)
    ensures ScopeStays(lib, demand, res, sc) <==> KeepMetrics(lib, demand, res, sc.metrics) != []
  {
    KeepMetricsCollects(lib, demand, res, sc.metrics);
    FilterMapSome(sc.metrics, MetricRule(lib, demand, res));
  }

  lemma {:induction false} KeepScopesCollects(lib: Library, demand: Demand, res: Attrs, scopes: seq<Scope>)
    ensures KeepScopes(lib, demand, res, scopes) == FilterMap(scopes, ScopeRule(lib, demand, res))
  {
    if scopes != [] {
      KeepScopesCollects(lib, demand, res, scopes[..|scopes| - 1]);
      ScopeStaysIff(lib, demand, res, scopes[|scopes| - 1]);
    }
  }

  lemma {:induction false} ResourceStaysIff(lib: Library, demand: Demand, r: Resource)
    ensures ResourceStays(lib, demand, r) <==> KeepScopes(lib, demand, r.attrs, r.scopes) != []
  {
    KeepScopesCollects(lib, demand, r.attrs, r.scopes);
    FilterMapSome(r.scopes, ScopeRule(lib, demand, r.attrs));
  }

  lemma {:induction false} KeepBatchCollects(lib: Library, demand: Demand, batch: seq<Resource>)
    ensures KeepBatch(lib, demand, batch) == FilterMap(batch, ResourceRule(lib, demand))
  {
    if batch != [] {
      KeepBatchCollects(lib, demand, batch[..|batch| - 1]);
      ResourceStaysIff(lib, demand, batch[|batch| - 1]);
    }
  }

  /** What the filter does to the tree: at each level the survivors keep their order and their place, and only what has
      nothing left goes. */
  lemma {:induction false} KeepBatchExact(lib: Library, demand: Demand, batch: seq<Resource>, r: Resource, sc: Scope)
    ensures Picked(batch, ResourceRule(lib, demand), KeepBatch(lib, demand, batch))
    ensures Picked(r.scopes, ScopeRule(lib, demand, r.attrs), KeepScopes(lib, demand, r.attrs, r.scopes))
    ensures Picked(sc.metrics, MetricRule(lib, demand, r.attrs), KeepMetrics(lib, demand, r.attrs, sc.metrics))
  {
    KeepBatchCollects(lib, demand, batch);
    FilterMapPicked(batch, ResourceRule(lib, demand));
    KeepScopesCollects(lib, demand, r.attrs, r.scopes);
    FilterMapPicked(r.scopes, ScopeRule(lib, demand, r.attrs));
    KeepMetricsCollects(lib, demand, r.attrs, sc.metrics);
    FilterMapPicked(sc.metrics, MetricRule(lib, demand, r.attrs));
  }

  ghost predicate WantedDatum(lib: Library, demand: Demand, d: Datum) {
    Wanted(lib, demand, FamilyNames(d.kind, d.base), d.res, d.point)
  }

  ghost function DatumRule(lib: Library, demand: Demand): Datum -> Option<Datum> {
    (d: Datum) => if WantedDatum(lib, demand, d) then Some(d) else None
  }

  lemma {:induction false} KeptPointsData(lib: Library, demand: Demand, res: Attrs, kind: Kind, base: string,
                                          points: seq<Point>)
    ensures var kept := FilterMap(points, PointRule(lib, demand, FamilyNames(kind, base), res));
            PointsData(res, kind, base, kept) == FilterMap(PointsData(res, kind, base, points), DatumRule(lib, demand))
  {
    FilterMapOfMap(points, DatumOf(res, kind, base), PointRule(lib, demand, FamilyNames(kind, base), res),
                   DatumRule(lib, demand));
  }

  lemma {:induction false} KeptMetricData(lib: Library, demand: Demand, res: Attrs, kept: seq<Metric>, m: Metric)
    ensures MetricsData(res, kept + Outcome(KeepMetric(lib, demand, res, m))) ==
            MetricsData(res, kept) + FilterMap(PointsData(res, m.kind, m.base, m.points), DatumRule(lib, demand))
  {
    KeptPointsData(lib, demand, res, m.kind, m.base, m.points);
    KeepPointsCollects(lib, demand, FamilyNames(m.kind, m.base), res, m.points);
    var out := KeepMetric(lib, demand, res, m);
    if out.Some? {
      assert (kept + [out.value])[..|kept|] == kept;
    } else {
      assert kept + [] == kept;
      assert PointsData(res, m.kind, m.base, []) == [];
    }
  }

  lemma {:induction false} KeptMetricsData(lib: Library, demand: Demand, res: Attrs, metrics: seq<Metric>)
    ensures MetricsData(res, KeepMetrics(lib, demand, res, metrics)) ==
            FilterMap(MetricsData(res, metrics), DatumRule(lib, demand))
  {
    if metrics != [] {
      var front, m := metrics[..|metrics| - 1], metrics[|metrics| - 1];
      KeptMetricsData(lib, demand, res, front);
      KeptMetricData(lib, demand, res, KeepMetrics(lib, demand, res, front), m);
      FilterMapConcat(MetricsData(res, front), PointsData(res, m.kind, m.base, m.points), DatumRule(lib, demand));
    }
  }

  lemma {:induction false} KeptScopesData(lib: Library, demand: Demand, res: Attrs, scopes: seq<Scope>)
    ensures ScopesData(res, KeepScopes(lib, demand, res, scopes)) ==
            FilterMap(ScopesData(res, scopes), DatumRule(lib, demand))
  {
    if scopes != [] {
      var front, metrics := scopes[..|scopes| - 1], scopes[|scopes| - 1].metrics;
      KeptScopesData(lib, demand, res, front);
      KeptMetricsData(lib, demand, res, metrics);
      FilterMapConcat(ScopesData(res, front), MetricsData(res, metrics), DatumRule(lib, demand));
      var kept, last := KeepScopes(lib, demand, res, front), KeepMetrics(lib, demand, res, metrics);
      if last != [] {
        assert (kept + [Scope(last)])[..|kept|] == kept;
      } else {
        assert kept + [] == kept && ScopesData(res, kept) + [] == ScopesData(res, kept);
      }
    }
  }

  lemma {:induction false} KeptBatchData(lib: Library, demand: Demand, batch: seq<Resource>)
    ensures BatchData(KeepBatch(lib, demand, batch)) == FilterMap(BatchData(batch), DatumRule(lib, demand))
  {
    if batch != [] {
      var front, r := batch[..|batch| - 1], batch[|batch| - 1];
      KeptBatchData(lib, demand, front);
      KeptScopesData(lib, demand, r.attrs, r.scopes);
      FilterMapConcat(BatchData(front), ScopesData(r.attrs, r.scopes), DatumRule(lib, demand));
      var kept, last := KeepBatch(lib, demand, front), KeepScopes(lib, demand, r.attrs, r.scopes);
      if last != [] {
        assert (kept + [r.(scopes := last)])[..|kept|] == kept;
      } else {
        assert kept + [] == kept && BatchData(kept) + [] == BatchData(kept);
      }
    }
  }

  /** The datapoints of the filtered batch are exactly the wanted datapoints of the batch, each under its own resource
      and metric, in order and as often as they came. */
  lemma {:induction false} DatapointsKeptExactly(lib: Library, demand: Demand, batch: seq<Resource>)
    ensures Picked(BatchData(batch), DatumRule(lib, demand), BatchData(KeepBatch(lib, demand, batch)))
    ensures forall d :: d in BatchData(KeepBatch(lib, demand, batch)) <==>
                          d in BatchData(batch) && WantedDatum(lib, demand, d)
  {
    KeptBatchData(lib, demand, batch);
    FilterMapPicked(BatchData(batch), DatumRule(lib, demand));
    forall d ensures d in BatchData(KeepBatch(lib, demand, batch)) <==>
                       d in BatchData(batch) && WantedDatum(lib, demand, d)
    {
      FilterMapIn(BatchData(batch), DatumRule(lib, demand), d);
    }
  }

  // ----- filtering twice is filtering once -----

  lemma {:induction false} PointsKeptAreWanted(lib: Library, demand: Demand, names: seq<string>, res: Attrs,
                                               points: seq<Point>, p: Point)
    ensures p in KeepPoints(lib, demand, names, res, points) <==> p in points && Wanted(lib, demand, names, res, p)
  {
    if points != [] {
      PointsKeptAreWanted(lib, demand, names, res, points[..|points| - 1], p);
      assert points == points[..|points| - 1] + [points[|points| - 1]];
    }
  }

  lemma {:induction false} KeepMetricTwice(lib: Library, demand: Demand, res: Attrs, m: Metric)
    requires KeepMetric(lib, demand, res, m).Some?
    ensures KeepMetric(lib, demand, res, KeepMetric(lib, demand, res, m).value) == KeepMetric(lib, demand, res, m)
  {
    var names := FamilyNames(m.kind, m.base);
    var points := KeepPoints(lib, demand, names, res, m.points);
    forall p | p in points ensures Wanted(lib, demand, names, res, p) {
      PointsKeptAreWanted(lib, demand, names, res, m.points, p);
    }
    AllWanted(lib, demand, names, res, points);
  }

  lemma {:induction false} KeepMetricsTwice(lib: Library, demand: Demand, res: Attrs, metrics: seq<Metric>)
    ensures var kept := KeepMetrics(lib, demand, res, metrics); KeepMetrics(lib, demand, res, kept) == kept
  {
    if metrics != [] {
      var front := KeepMetrics(lib, demand, res, metrics[..|metrics| - 1]);
      KeepMetricsTwice(lib, demand, res, metrics[..|metrics| - 1]);
      var last := KeepMetric(lib, demand, res, metrics[|metrics| - 1]);
      if last.Some? {
        KeepMetricTwice(lib, demand, res, metrics[|metrics| - 1]);
        assert (front + [last.value])[..|front|] == front;
      } else {
        assert front + [] == front;
      }
    }
  }

  lemma {:induction false} KeepScopesTwice(lib: Library, demand: Demand, res: Attrs, scopes: seq<Scope>)
    ensures var kept := KeepScopes(lib, demand, res, scopes); KeepScopes(lib, demand, res, kept) == kept
  {
    if scopes != [] {
      var front := KeepScopes(lib, demand, res, scopes[..|scopes| - 1]);
      KeepScopesTwice(lib, demand, res, scopes[..|scopes| - 1]);
      var last := scopes[|scopes| - 1].metrics;
      KeepMetricsTwice(lib, demand, res, last);
      var kept := KeepMetrics(lib, demand, res, last);
      if kept != [] {
        assert (front + [Scope(kept)])[..|front|] == front;
      } else {
        assert front + [] == front;
      }
    }
  }

  /** Filtering an already filtered batch leaves it as it is. */
  lemma {:induction false} KeepBatchTwice(lib: Library, demand: Demand, batch: seq<Resource>)
    ensures var kept := KeepBatch(lib, demand, batch); KeepBatch(lib, demand, kept) == kept
  {
    if batch != [] {
      var front := KeepBatch(lib, demand, batch[..|batch| - 1]);
      KeepBatchTwice(lib, demand, batch[..|batch| - 1]);
      var r := batch[|batch| - 1];
      KeepScopesTwice(lib, demand, r.attrs, r.scopes);
      var kept := KeepScopes(lib, demand, r.attrs, r.scopes);
      if kept != [] {
        assert (front + [r.(scopes := kept)])[..|front|] == front;
      } else {
        assert front + [] == front;
      }
    }
  }

  /** No resource or scope is left empty. */
  lemma {:induction false} NothingEmptyLeft(lib: Library, demand: Demand, batch: seq<Resource>)
    ensures forall r | r in KeepBatch(lib, demand, batch) ::
              r.scopes != [] && forall sc | sc in r.scopes :: sc.metrics != []
  {
    if batch != [] {
      NothingEmptyLeft(lib, demand, batch[..|batch| - 1]);
      ScopesNotEmpty(lib, demand, batch[|batch| - 1].attrs, batch[|batch| - 1].scopes);
    }
  }

  lemma {:induction false} ScopesNotEmpty(lib: Library, demand: Demand, res: Attrs, scopes: seq<Scope>)
    ensures forall sc | sc in KeepScopes(lib, demand, res, scopes) :: sc.metrics != []
  {
    if scopes != [] {
      ScopesNotEmpty(lib, demand, res, scopes[..|scopes| - 1]);
    }
  }

  // ----- no demanded series is lost -----

  /** The series plain evaluation selects, in order. */
  function Select(lib: Library, demand: Demand, all: seq<Series>): seq<Series> {
    if all == [] then []
    else
      Select(lib, demand, all[..|all| - 1]) + if Demanded(lib, demand, all[|all| - 1]) then [all[|all| - 1]] else []
  }

  lemma {:induction false} SelectConcat(lib: Library, demand: Demand, a: seq<Series>, b: seq<Series>)
    ensures Select(lib, demand, a + b) == Select(lib, demand, a) + Select(lib, demand, b)
  {
    if b == [] {
      assert a + b == a;
    } else {
      var last := b[|b| - 1];
      SelectConcat(lib, demand, a, b[..|b| - 1]);
      assert (a + b)[..|a + b| - 1] == a + b[..|b| - 1];
      assert (a + b)[|a + b| - 1] == last;
      var tail := if Demanded(lib, demand, last) then [last] else [];
      assert Select(lib, demand, a) + (Select(lib, demand, b[..|b| - 1]) + tail) ==
             Select(lib, demand, a) + Select(lib, demand, b[..|b| - 1]) + tail;
    }
  }

  lemma {:induction false} SelectNone(lib: Library, demand: Demand, all: seq<Series>)
    requires forall s | s in all :: !Demanded(lib, demand, s)
    ensures Select(lib, demand, all) == []
  {
    if all != [] {
      SelectNone(lib, demand, all[..|all| - 1]);
    }
  }

  /** If plain evaluation selects a series of a datapoint, the filter wants the datapoint. */
  lemma {:induction false} DemandedSeriesWanted(lib: Library, demand: Demand, kind: Kind, base: string, res: Attrs,
                                                p: Point, s: Series)
    requires s in PointSeries(lib, kind, base, res, p) && Demanded(lib, demand, s)
    ensures Wanted(lib, demand, FamilyNames(kind, base), res, p)
  {
    PointSeriesOfPoint(lib, kind, base, res, p);
    var ms :| ms in demand && Matches(lib, ms, NamedLabels(s.labels, s.name));
    var labels := NamedLabels(SeriesLabels(lib, res, p.attrs, []), s.name);
    forall m | m in WithoutBucketLabels(ms) ensures MatchValue(lib, m, Lookup(labels, m.name)) {
      assert m.name != "__name__" ==> Lookup(labels, m.name) == Lookup(s.labels, m.name);
      assert Lookup(labels, m.name) == Lookup(NamedLabels(s.labels, s.name), m.name);
    }
    assert WantsAs(lib, ms, s.name, res, p);
  }

  lemma {:induction false} PointsSelection(lib: Library, demand: Demand, kind: Kind, base: string, res: Attrs,
                                           points: seq<Point>)
    ensures var kept := KeepPoints(lib, demand, FamilyNames(kind, base), res, points);
            Select(lib, demand, PointsSeries(lib, kind, base, res, kept)) ==
            Select(lib, demand, PointsSeries(lib, kind, base, res, points))
  {
    if points != [] {
      var front, p := points[..|points| - 1], points[|points| - 1];
      var names := FamilyNames(kind, base);
      PointsSelection(lib, demand, kind, base, res, front);
      var own := PointSeries(lib, kind, base, res, p);
      SelectConcat(lib, demand, PointsSeries(lib, kind, base, res, front), own);
      var kept := KeepPoints(lib, demand, names, res, front);
      if Wanted(lib, demand, names, res, p) {
        assert (kept + [p])[..|kept|] == kept;
        SelectConcat(lib, demand, PointsSeries(lib, kind, base, res, kept), own);
      } else {
        forall s | s in own ensures !Demanded(lib, demand, s) {
          if Demanded(lib, demand, s) {
            DemandedSeriesWanted(lib, demand, kind, base, res, p, s);
          }
        }
        SelectNone(lib, demand, own);
        assert kept + [] == kept;
      }
    }
  }

  /** The series of a metric, if there is one. */
  function KeptSeries(lib: Library, res: Attrs, m: Option<Metric>): seq<Series> {
    if m.Some? then PointsSeries(lib, m.value.kind, m.value.base, res, m.value.points) else []
  }

  lemma {:induction false} MetricSelection(lib: Library, demand: Demand, res: Attrs, m: Metric)
    ensures Select(lib, demand, KeptSeries(lib, res, KeepMetric(lib, demand, res, m))) ==
            Select(lib, demand, KeptSeries(lib, res, Some(m)))
  {
    PointsSelection(lib, demand, m.kind, m.base, res, m.points);
  }

  lemma {:induction false} MetricsSeriesNext(lib: Library, res: Attrs, metrics: seq<Metric>, m: Option<Metric>)
    ensures MetricsSeries(lib, res, metrics + if m.Some? then [m.value] else []) ==
            MetricsSeries(lib, res, metrics) + KeptSeries(lib, res, m)
  {
    if m.Some? {
      assert (metrics + [m.value])[..|metrics|] == metrics;
    } else {
      assert metrics + [] == metrics;
    }
  }

  lemma {:induction false} SelectionStep(lib: Library, demand: Demand, res: Attrs, kept: seq<Metric>, all: seq<Metric>,
                                         last: Option<Metric>, m: Metric)
    requires Select(lib, demand, MetricsSeries(lib, res, kept)) == Select(lib, demand, MetricsSeries(lib, res, all))
    requires Select(lib, demand, KeptSeries(lib, res, last)) == Select(lib, demand, KeptSeries(lib, res, Some(m)))
    ensures Select(lib, demand, MetricsSeries(lib, res, kept + if last.Some? then [last.value] else [])) ==
            Select(lib, demand, MetricsSeries(lib, res, all + [m]))
  {
    MetricsSeriesNext(lib, res, all, Some(m));
    SelectConcat(lib, demand, MetricsSeries(lib, res, all), KeptSeries(lib, res, Some(m)));
    MetricsSeriesNext(lib, res, kept, last);
    SelectConcat(lib, demand, MetricsSeries(lib, res, kept), KeptSeries(lib, res, last));
  }

  lemma {:induction false} MetricsSelection(lib: Library, demand: Demand, res: Attrs, metrics: seq<Metric>)
    ensures Select(lib, demand, MetricsSeries(lib, res, KeepMetrics(lib, demand, res, metrics))) ==
            Select(lib, demand, MetricsSeries(lib, res, metrics))
  {
    if metrics == [] {
      assert KeepMetrics(lib, demand, res, metrics) == metrics;
    } else {
      var front, m := metrics[..|metrics| - 1], metrics[|metrics| - 1];
      assert metrics == front + [m];
      MetricsSelection(lib, demand, res, front);
      MetricSelection(lib, demand, res, m);
      SelectionStep(lib, demand, res, KeepMetrics(lib, demand, res, front), front, KeepMetric(lib, demand, res, m), m);
    }
  }

  lemma {:induction false} ScopesSelection(lib: Library, demand: Demand, res: Attrs, scopes: seq<Scope>)
    ensures Select(lib, demand, ScopesSeries(lib, res, KeepScopes(lib, demand, res, scopes))) ==
            Select(lib, demand, ScopesSeries(lib, res, scopes))
  {
    if scopes != [] {
      var front, metrics := scopes[..|scopes| - 1], scopes[|scopes| - 1].metrics;
      ScopesSelection(lib, demand, res, front);
      MetricsSelection(lib, demand, res, metrics);
      SelectConcat(lib, demand, ScopesSeries(lib, res, front), MetricsSeries(lib, res, metrics));
      var kept, last := KeepScopes(lib, demand, res, front), KeepMetrics(lib, demand, res, metrics);
      if last != [] {
        assert (kept + [Scope(last)])[..|kept|] == kept;
        SelectConcat(lib, demand, ScopesSeries(lib, res, kept), MetricsSeries(lib, res, last));
      } else {
        assert kept + [] == kept;
      }
    }
  }

  /** Of the series the tracker reports for a batch, plain evaluation of the demand selects the same ones, in the same
      order, before and after filtering: the compiled filter loses no demanded series. */
  lemma {:induction false} FilterPreservesSelection(lib: Library, demand: Demand, batch: seq<Resource>)
    ensures Select(lib, demand, BatchSeries(lib, KeepBatch(lib, demand, batch))) ==
            Select(lib, demand, BatchSeries(lib, batch))
  {
    if batch != [] {
      var front, r := batch[..|batch| - 1], batch[|batch| - 1];
      FilterPreservesSelection(lib, demand, front);
      ScopesSelection(lib, demand, r.attrs, r.scopes);
      SelectConcat(lib, demand, BatchSeries(lib, front), ScopesSeries(lib, r.attrs, r.scopes));
      var kept, last := KeepBatch(lib, demand, front), KeepScopes(lib, demand, r.attrs, r.scopes);
      if last != [] {
        assert (kept + [r.(scopes := last)])[..|kept|] == kept;
        SelectConcat(lib, demand, BatchSeries(lib, kept), ScopesSeries(lib, r.attrs, last));
      } else {
        assert kept + [] == kept;
      }
    }
  }

  lemma {:induction false} WantsAsMatches(lib: Library, ms: seq<Matcher>, base: string, res: Attrs, p: Point)
    requires forall m | m in ms :: m.name != "le" && m.name != "quantile"
    requires WantsAs(lib, ms, base, res, p)
    ensures Matches(lib, ms, NamedLabels(SeriesLabels(lib, res, p.attrs, []), base))
  {
    forall m | m in ms ensures m in WithoutBucketLabels(ms) {
    }
  }

  /** A metric exported as one series per datapoint keeps exactly the datapoints whose series plain evaluation selects,
      unless a selector mentions le or quantile. */
  lemma {:induction false} SingleSeriesExact(lib: Library, demand: Demand, kind: Kind, base: string, res: Attrs,
                                             p: Point)
    requires kind.Gauge? || kind.Sum? || kind.ExponentialHistogram?
    requires forall ms | ms in demand :: forall m | m in ms :: m.name != "le" && m.name != "quantile"
    ensures Wanted(lib, demand, FamilyNames(kind, base), res, p) <==> Demanded(lib, demand, OneSeries(lib, base, res, p, []))
  {
    var s := OneSeries(lib, base, res, p, []);
    if Demanded(lib, demand, s) {
      DemandedSeriesWanted(lib, demand, kind, base, res, p, s);
    }
    if ms :| ms in demand && exists n | n in FamilyNames(kind, base) :: WantsAs(lib, ms, n, res, p) {
      assert WantsAs(lib, ms, base, res, p);
      WantsAsMatches(lib, ms, base, res, p);
    }
  }
}
