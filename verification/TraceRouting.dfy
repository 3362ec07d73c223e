/** Traces routed per ingestion rule: the filter stamps one copy of a resource per rule that demands it, the exporter
    groups by the stamp and removes it. */
module TraceRouting {
  import opened Text
  import opened Picks
  import opened Selector
  import opened SelectorScanner
  import opened GoQuote
  import opened Fingerprint

  datatype Value = Str(text: string) | Other(rendered: string)

  function AsString(v: Value): string {
    match v
    case Str(text) => text
    case Other(rendered) => rendered
  }

  type Attributes = map<string, Value>

  /** One resource with its spans; a span is its encoded bytes. */
  datatype ResourceSpans = ResourceSpans(attrs: Attributes, spans: seq<string>)

  type Traces = seq<ResourceSpans>

  datatype Route = Route(selector: string, filterId: string)

  const FILTER_ID_ATTR := "leansignal.trace.filter_id"

  function SpanCount(td: Traces): nat {
    if td == [] then 0 else SpanCount(td[..|td| - 1]) + |td[|td| - 1].spans|
  }

  // ----- the routing table -----

  /** traceRoutesFromProto: entries missing either half are skipped. */
  function CompleteRoutes(routes: seq<Route>): seq<Route> {
    if routes == [] then []
    else
      var r := routes[|routes| - 1];
      CompleteRoutes(routes[..|routes| - 1]) + if r.selector == "" || r.filterId == "" then [] else [r]
  }

  method TraceRoutesFromProto(routes: seq<Route>) returns (out: seq<Route>)
    ensures out == CompleteRoutes(routes)
  {
    out := [];
    for i := 0 to |routes|
      invariant out == CompleteRoutes(routes[..i])
    {
      assert routes[..i + 1][..i] == routes[..i];
      if routes[i].selector != "" && routes[i].filterId != "" {
        out := out + [routes[i]];
      }
    }
    assert routes[..|routes|] == routes;
  }

  lemma {:induction false} CompleteRoutesIn(routes: seq<Route>, r: Route)
    ensures r in CompleteRoutes(routes) <==> r in routes && r.selector != "" && r.filterId != ""
  {
    if routes != [] {
      CompleteRoutesIn(routes[..|routes| - 1], r);
      assert routes == routes[..|routes| - 1] + [routes[|routes| - 1]];
    }
  }

  ghost function CompleteRule(): Route -> Option<Route> {
    (r: Route) => if r.selector != "" && r.filterId != "" then Some(r) else None
  }

  lemma {:induction false} CompleteRoutesCollects(routes: seq<Route>)
    ensures CompleteRoutes(routes) == FilterMap(routes, CompleteRule())
  {
    if routes != [] {
      CompleteRoutesCollects(routes[..|routes| - 1]);
    }
  }

  /** The table is what is complete of the message, in order. */
  lemma {:induction false} CompleteRoutesExact(routes: seq<Route>)
    ensures Picked(routes, CompleteRule(), CompleteRoutes(routes))
  {
    CompleteRoutesCollects(routes);
    FilterMapPicked(routes, CompleteRule());
  }

  datatype ParsedRoute = ParsedRoute(matchers: seq<Matcher>, filterId: string)

  function ParseRoutes(lib: Library, routes: seq<Route>): seq<ParsedRoute> {
    if routes == [] then []
    else
      var r := routes[|routes| - 1];
      ParseRoutes(lib, routes[..|routes| - 1]) +
      match Parse(lib, r.selector, true)
      case Ok(ms) => [ParsedRoute(ms, r.filterId)]
      case Err(_) => []
  }

  ghost function RouteRule(lib: Library): Route -> Option<ParsedRoute> {
    (r: Route) => match Parse(lib, r.selector, true)
                  case Ok(ms) => Some(ParsedRoute(ms, r.filterId))
                  case Err(_) => None
  }

  lemma {:induction false} ParseRoutesCollects(lib: Library, routes: seq<Route>)
    ensures ParseRoutes(lib, routes) == FilterMap(routes, RouteRule(lib))
  {
    if routes != [] {
      ParseRoutesCollects(lib, routes[..|routes| - 1]);
    }
  }

  /** The parsed table is what parses of the table, in order, each selector with its own rule's id. */
  lemma {:induction false} ParseRoutesExact(lib: Library, routes: seq<Route>)
    ensures Picked(routes, RouteRule(lib), ParseRoutes(lib, routes))
  {
    ParseRoutesCollects(lib, routes);
    FilterMapPicked(routes, RouteRule(lib));
  }

  lemma {:induction false} ParsedRouteIds(lib: Library, routes: seq<Route>)
    requires forall r | r in routes :: r.filterId != ""
    ensures forall pr | pr in ParseRoutes(lib, routes) :: pr.filterId != ""
  {
    if routes != [] {
      assert routes == routes[..|routes| - 1] + [routes[|routes| - 1]];
      ParsedRouteIds(lib, routes[..|routes| - 1]);
    }
  }

  // ----- stamping -----

  const PREFIX := "resource."

  /** Resource attributes as the labels trace selectors speak of. */
  function ResourceLabels(attrs: Attributes): Labels {
    var names := set k | k in attrs :: PREFIX + k;
    map n | n in names :: AsString(attrs[n[|PREFIX|..]])
  }

  /** A label is present exactly when its attribute is, with the attribute's text. */
  lemma {:induction false} ResourceLabelsExact(attrs: Attributes, k: string)
    ensures PREFIX + k in ResourceLabels(attrs) <==> k in attrs
    ensures k in attrs ==> ResourceLabels(attrs)[PREFIX + k] == AsString(attrs[k])
  {
    assert (PREFIX + k)[|PREFIX|..] == k;
    if j :| j in attrs && PREFIX + j == PREFIX + k {
      assert (PREFIX + j)[|PREFIX|..] == j;
    }
  }

  predicate Demands(lib: Library, pr: ParsedRoute, rs: ResourceSpans) {
    Matches(lib, pr.matchers, ResourceLabels(rs.attrs))
  }

  function Stamp(rs: ResourceSpans, filterId: string): ResourceSpans {
    rs.(attrs := rs.attrs[FILTER_ID_ATTR := Str(filterId)])
  }

  function CopiesOf(lib: Library, routes: seq<ParsedRoute>, rs: ResourceSpans): Traces {
    if routes == [] then []
    else
      var pr := routes[|routes| - 1];
      CopiesOf(lib, routes[..|routes| - 1], rs) + if Demands(lib, pr, rs) then [Stamp(rs, pr.filterId)] else []
  }

  /** One stamped copy of each resource per rule that demands it. */
  function Routed(lib: Library, routes: seq<ParsedRoute>, td: Traces): Traces {
    if td == [] then []
    else Routed(lib, routes, td[..|td| - 1]) + CopiesOf(lib, routes, td[|td| - 1])
  }

  method CopyPerRoute(lib: Library, routes: seq<ParsedRoute>, rs: ResourceSpans) returns (out: Traces)
    ensures out == CopiesOf(lib, routes, rs)
  {
    out := [];
    for i := 0 to |routes|
      invariant out == CopiesOf(lib, routes[..i], rs)
    {
      assert routes[..i + 1][..i] == routes[..i];
      if Matches(lib, routes[i].matchers, ResourceLabels(rs.attrs)) {
        var dst := rs;
        dst := dst.(attrs := dst.attrs[FILTER_ID_ATTR := Str(routes[i].filterId)]);
        out := out + [dst];
      }
    }
    assert routes[..|routes|] == routes;
  }

  /** consumeRouted: what goes on to the exporter; None when nothing does. */
  method ConsumeRouted(lib: Library, parsed: seq<ParsedRoute>, td: Traces) returns (sent: Option<Traces>)
    ensures sent == if SpanCount(Routed(lib, parsed, td)) == 0 then None else Some(Routed(lib, parsed, td))
  {
    if parsed == [] {
      NoRoutesNoCopies(lib, td);
      return None;
    }
    var out: Traces := [];
    for i := 0 to |td|
      invariant out == Routed(lib, parsed, td[..i])
    {
      assert td[..i + 1][..i] == td[..i];
      var copies := CopyPerRoute(lib, parsed, td[i]);
      out := out + copies;
    }
    assert td[..|td|] == td;
    if SpanCount(out) == 0 {
      return None;
    }
    return Some(out);
  }

  lemma {:induction false} NoRoutesNoCopies(lib: Library, td: Traces)
    ensures Routed(lib, [], td) == []
  {
    if td != [] {
      NoRoutesNoCopies(lib, td[..|td| - 1]);
    }
  }

  // ----- grouping -----

  function FilterIdOf(rs: ResourceSpans): string {
    if FILTER_ID_ATTR in rs.attrs && rs.attrs[FILTER_ID_ATTR].Str? then rs.attrs[FILTER_ID_ATTR].text else ""
  }

  function Unstamped(rs: ResourceSpans): ResourceSpans {
    rs.(attrs := rs.attrs - {FILTER_ID_ATTR})
  }

  /** The resources stamped `f`, in order, without the stamp. */
  function GroupOf(td: Traces, f: string): Traces {
    if td == [] then []
    else
      var rs := td[|td| - 1];
      GroupOf(td[..|td| - 1], f) + if FilterIdOf(rs) == f then [Unstamped(rs)] else []
  }

  ghost function IdsOf(td: Traces): set<string> {
    set rs | rs in td :: FilterIdOf(rs)
  }

  function BatchAt(groups: map<string, Traces>, f: string): Traces {
    if f in groups then groups[f] else []
  }

  /** The groups are exactly those of `td`: one per id that occurs, each holding its resources. */
  ghost predicate Grouped(groups: map<string, Traces>, td: Traces) {
    groups.Keys == IdsOf(td) && forall f :: BatchAt(groups, f) == GroupOf(td, f)
  }

  lemma {:induction false} GroupOfNext(td: Traces, rs: ResourceSpans, f: string)
    ensures GroupOf(td + [rs], f) == GroupOf(td, f) + if FilterIdOf(rs) == f then [Unstamped(rs)] else []
  {
    assert (td + [rs])[..|td|] == td;
  }

  lemma {:induction false} IdsOfNext(td: Traces, rs: ResourceSpans)
    ensures IdsOf(td + [rs]) == IdsOf(td) + {FilterIdOf(rs)}
  {
    assert rs in td + [rs];
  }

  lemma {:induction false} GroupedStep(groups: map<string, Traces>, td: Traces, rs: ResourceSpans)
    requires Grouped(groups, td)
    ensures Grouped(groups[FilterIdOf(rs) := BatchAt(groups, FilterIdOf(rs)) + [Unstamped(rs)]], td + [rs])
  {
    var id := FilterIdOf(rs);
    var next := groups[id := BatchAt(groups, id) + [Unstamped(rs)]];
    IdsOfNext(td, rs);
    forall f ensures BatchAt(next, f) == GroupOf(td + [rs], f) {
      GroupOfNext(td, rs, f);
      assert BatchAt(groups, f) == GroupOf(td, f);
    }
  }

  method GroupByFilterId(td: Traces) returns (out: map<string, Traces>)
    ensures Grouped(out, td)
  {
    out := map[];
    for i := 0 to |td|
      invariant Grouped(out, td[..i])
    {
      assert td[..i + 1] == td[..i] + [td[i]];
      var filterId := "";
      if FILTER_ID_ATTR in td[i].attrs {
        match td[i].attrs[FILTER_ID_ATTR]
        case Str(text) => filterId := text;
        case Other(_) =>
      }
      GroupedStep(out, td[..i], td[i]);
      var batch := if filterId in out then out[filterId] else [];
      out := out[filterId := batch + [Unstamped(td[i])]];
    }
    assert td[..|td|] == td;
  }

  // ----- end to end -----

  /** How many rules with id `f` demand the resource. */
  function Claims(lib: Library, routes: seq<ParsedRoute>, rs: ResourceSpans, f: string): nat {
    if routes == [] then 0
    else
      var pr := routes[|routes| - 1];
      Claims(lib, routes[..|routes| - 1], rs, f) + if pr.filterId == f && Demands(lib, pr, rs) then 1 else 0
  }

  function AllClaims(lib: Library, routes: seq<ParsedRoute>, rs: ResourceSpans): nat {
    if routes == [] then 0
    else AllClaims(lib, routes[..|routes| - 1], rs) + if Demands(lib, routes[|routes| - 1], rs) then 1 else 0
  }

  function Repeat(rs: ResourceSpans, n: nat): Traces {
    seq(n, _ => rs)
  }

  /** What rule `f` should receive: the resources in order, each once per route of `f` that demands it. */
  function Expected(lib: Library, routes: seq<ParsedRoute>, td: Traces, f: string): Traces {
    if td == [] then []
    else
      var rs := td[|td| - 1];
      Expected(lib, routes, td[..|td| - 1], f) + Repeat(Unstamped(rs), Claims(lib, routes, rs, f))
  }

  lemma {:induction false} StampThenGroup(rs: ResourceSpans, filterId: string)
    ensures FilterIdOf(Stamp(rs, filterId)) == filterId && Unstamped(Stamp(rs, filterId)) == Unstamped(rs)
  {
    assert rs.attrs[FILTER_ID_ATTR := Str(filterId)] - {FILTER_ID_ATTR} == rs.attrs - {FILTER_ID_ATTR};
  }

  lemma {:induction false} GroupConcat(a: Traces, b: Traces, f: string)
    ensures GroupOf(a + b, f) == GroupOf(a, f) + GroupOf(b, f)
  {
    if b == [] {
      assert a + b == a;
    } else {
      var front, last := b[..|b| - 1], b[|b| - 1];
      GroupConcat(a, front, f);
      assert b == front + [last] && a + b == (a + front) + [last];
      GroupOfNext(front, last, f);
      GroupOfNext(a + front, last, f);
    }
  }

  lemma {:induction false} CopiesGrouped(lib: Library, routes: seq<ParsedRoute>, rs: ResourceSpans, f: string)
    ensures GroupOf(CopiesOf(lib, routes, rs), f) == Repeat(Unstamped(rs), Claims(lib, routes, rs, f))
  {
    if routes != [] {
      var front, pr := routes[..|routes| - 1], routes[|routes| - 1];
      CopiesGrouped(lib, front, rs, f);
      if Demands(lib, pr, rs) {
        var copies := CopiesOf(lib, front, rs);
        assert (copies + [Stamp(rs, pr.filterId)])[..|copies|] == copies;
        StampThenGroup(rs, pr.filterId);
      } else {
        assert CopiesOf(lib, routes, rs) == CopiesOf(lib, front, rs);
      }
    }
  }

  /** Stamping, grouping and stripping together: group `f` holds exactly what rule `f` should receive. */
  lemma {:induction false} RoutedGroupsExact(lib: Library, routes: seq<ParsedRoute>, td: Traces, f: string)
    ensures GroupOf(Routed(lib, routes, td), f) == Expected(lib, routes, td, f)
  {
    if td != [] {
      var front, rs := td[..|td| - 1], td[|td| - 1];
      RoutedGroupsExact(lib, routes, front, f);
      GroupConcat(Routed(lib, routes, front), CopiesOf(lib, routes, rs), f);
      CopiesGrouped(lib, routes, rs, f);
    }
  }

  function ClaimedSpans(lib: Library, routes: seq<ParsedRoute>, td: Traces): int {
    if td == [] then 0
    else
      ClaimedSpans(lib, routes, td[..|td| - 1]) + AllClaims(lib, routes, td[|td| - 1]) * |td[|td| - 1].spans|
  }

  lemma {:induction false} SpanCountConcat(a: Traces, b: Traces)
    ensures SpanCount(a + b) == SpanCount(a) + SpanCount(b)
  {
    if b == [] {
      assert a + b == a;
    } else {
      SpanCountConcat(a, b[..|b| - 1]);
      assert (a + b)[..|a + b| - 1] == a + b[..|b| - 1];
    }
  }

  lemma {:induction false} CopiesSpans(lib: Library, routes: seq<ParsedRoute>, rs: ResourceSpans)
    ensures SpanCount(CopiesOf(lib, routes, rs)) == AllClaims(lib, routes, rs) * |rs.spans|
  {
    if routes != [] {
      var front, pr := routes[..|routes| - 1], routes[|routes| - 1];
      CopiesSpans(lib, front, rs);
      var copies := CopiesOf(lib, front, rs);
      if Demands(lib, pr, rs) {
        assert (copies + [Stamp(rs, pr.filterId)])[..|copies|] == copies;
        assert (AllClaims(lib, front, rs) + 1) * |rs.spans| == AllClaims(lib, front, rs) * |rs.spans| + |rs.spans|;
      } else {
        assert CopiesOf(lib, routes, rs) == copies;
      }
    }
  }

  /** Conservation: every span goes out once per rule that demands its resource. */
  lemma {:induction false} RoutedSpansConserved(lib: Library, routes: seq<ParsedRoute>, td: Traces)
    ensures SpanCount(Routed(lib, routes, td)) == ClaimedSpans(lib, routes, td)
  {
    if td != [] {
      var front, rs := td[..|td| - 1], td[|td| - 1];
      RoutedSpansConserved(lib, routes, front);
      SpanCountConcat(Routed(lib, routes, front), CopiesOf(lib, routes, rs));
      CopiesSpans(lib, routes, rs);
    }
  }

  /** The spans of all groups in `ids`. */
  ghost function GroupedSpans(td: Traces, ids: set<string>): nat {
    if ids == {} then 0
    else
      var f :| f in ids;
      GroupedSpans(td, ids - {f}) + SpanCount(GroupOf(td, f))
  }

  lemma {:induction false} GroupedSpansWithout(td: Traces, ids: set<string>, g: string)
    requires g in ids
    ensures GroupedSpans(td, ids) == GroupedSpans(td, ids - {g}) + SpanCount(GroupOf(td, g))
  {
    var f :| f in ids && GroupedSpans(td, ids) == GroupedSpans(td, ids - {f}) + SpanCount(GroupOf(td, f));
    if f != g {
      GroupedSpansWithout(td, ids - {f}, g);
      GroupedSpansWithout(td, ids - {g}, f);
      assert ids - {f} - {g} == ids - {g} - {f};
    }
  }

  lemma {:induction false} GroupedSpansSame(a: Traces, b: Traces, ids: set<string>)
    requires forall f | f in ids :: SpanCount(GroupOf(a, f)) == SpanCount(GroupOf(b, f))
    ensures GroupedSpans(a, ids) == GroupedSpans(b, ids)
  {
    if ids != {} {
      var f :| f in ids;
      GroupedSpansSame(a, b, ids - {f});
      GroupedSpansWithout(a, ids, f);
      GroupedSpansWithout(b, ids, f);
    }
  }

  /** Grouping loses and duplicates nothing: the groups together hold as many spans as the batch. */
  lemma {:induction false} GroupingConserves(td: Traces, ids: set<string>)
    requires IdsOf(td) <= ids
    ensures GroupedSpans(td, ids) == SpanCount(td)
  {
    if td == [] {
      EmptyGroups(ids);
    } else {
      var front, rs := td[..|td| - 1], td[|td| - 1];
      assert td == front + [rs];
      assert FilterIdOf(rs) in IdsOf(td);
      assert IdsOf(front) <= IdsOf(td);
      GroupingConserves(front, ids);
      var f := FilterIdOf(rs);
      GroupedSpansWithout(td, ids, f);
      GroupedSpansWithout(front, ids, f);
      forall g | g in ids - {f} ensures SpanCount(GroupOf(td, g)) == SpanCount(GroupOf(front, g)) {
        assert GroupOf(td, g) == GroupOf(front, g);
      }
      GroupedSpansSame(td, front, ids - {f});
      SpanCountConcat(GroupOf(front, f), [Unstamped(rs)]);
      assert [Unstamped(rs)][..0] == [] && SpanCount([Unstamped(rs)]) == |rs.spans|;
    }
  }

  lemma {:induction false} EmptyGroups(ids: set<string>)
    ensures GroupedSpans([], ids) == 0
  {
    if ids != {} {
      var f :| f in ids;
      EmptyGroups(ids - {f});
      GroupedSpansWithout([], ids, f);
    }
  }

  lemma {:induction false} CopiesIds(lib: Library, routes: seq<ParsedRoute>, rs: ResourceSpans)
    ensures forall c | c in CopiesOf(lib, routes, rs) :: exists pr | pr in routes :: FilterIdOf(c) == pr.filterId
  {
    if routes != [] {
      CopiesIds(lib, routes[..|routes| - 1], rs);
      assert routes == routes[..|routes| - 1] + [routes[|routes| - 1]];
      StampThenGroup(rs, routes[|routes| - 1].filterId);
    }
  }

  lemma {:induction false} RoutedIds(lib: Library, routes: seq<ParsedRoute>, td: Traces)
    ensures forall c | c in Routed(lib, routes, td) :: exists pr | pr in routes :: FilterIdOf(c) == pr.filterId
  {
    if td != [] {
      RoutedIds(lib, routes, td[..|td| - 1]);
      CopiesIds(lib, routes, td[|td| - 1]);
    }
  }

  /** With a routing table from the server, no routed span falls into the tenant-wide group. */
  lemma {:induction false} NothingUnrouted(lib: Library, wire: seq<Route>, td: Traces)
    ensures "" !in IdsOf(Routed(lib, ParseRoutes(lib, CompleteRoutes(wire)), td))
  {
    var routes := CompleteRoutes(wire);
    forall r | r in routes ensures r.filterId != "" {
      CompleteRoutesIn(wire, r);
    }
    ParsedRouteIds(lib, routes);
    RoutedIds(lib, ParseRoutes(lib, routes), td);
  }

  // ----- keep or drop, without a routing table -----

  function ParsedDotted(lib: Library, raw: seq<string>): seq<seq<Matcher>> {
    if raw == [] then []
    else
      ParsedDotted(lib, raw[..|raw| - 1]) +
      match Parse(lib, raw[|raw| - 1], true)
      case Ok(ms) => [ms]
      case Err(_) => []
  }

  predicate Kept(lib: Library, demand: seq<seq<Matcher>>, rs: ResourceSpans) {
    exists ms | ms in demand :: Matches(lib, ms, ResourceLabels(rs.attrs))
  }

  function KeptTraces(lib: Library, demand: seq<seq<Matcher>>, td: Traces): Traces {
    if td == [] then []
    else
      var rs := td[|td| - 1];
      KeptTraces(lib, demand, td[..|td| - 1]) + if Kept(lib, demand, rs) then [rs] else []
  }

  method MatchesAny(lib: Library, demand: seq<seq<Matcher>>, rs: ResourceSpans) returns (kept: bool)
    ensures kept == Kept(lib, demand, rs)
  {
    for k := 0 to |demand|
      invariant forall j | 0 <= j < k :: !Matches(lib, demand[j], ResourceLabels(rs.attrs))
    {
      if Matches(lib, demand[k], ResourceLabels(rs.attrs)) {
        assert demand[k] in demand;
        return true;
      }
    }
    return false;
  }

  method FilterTraces(lib: Library, demand: seq<seq<Matcher>>, td: Traces) returns (out: Traces)
    ensures out == KeptTraces(lib, demand, td)
  {
    out := [];
    for i := 0 to |td|
      invariant out == KeptTraces(lib, demand, td[..i])
    {
      assert td[..i + 1][..i] == td[..i];
      var kept := MatchesAny(lib, demand, td[i]);
      if kept {
        out := out + [td[i]];
      }
    }
    assert td[..|td|] == td;
  }

  lemma {:induction false} ParsedDottedCollects(lib: Library, raw: seq<string>)
    ensures ParsedDotted(lib, raw) == FilterMap(raw, ParseRule(lib, true))
  {
    if raw != [] {
      ParsedDottedCollects(lib, raw[..|raw| - 1]);
    }
  }

  lemma {:induction false} ParsedDottedExact(lib: Library, raw: seq<string>)
    ensures Picked(raw, ParseRule(lib, true), ParsedDotted(lib, raw))
  {
    ParsedDottedCollects(lib, raw);
    FilterMapPicked(raw, ParseRule(lib, true));
  }

  ghost function KeepRule(lib: Library, demand: seq<seq<Matcher>>): ResourceSpans -> Option<ResourceSpans> {
    (rs: ResourceSpans) => if Kept(lib, demand, rs) then Some(rs) else None
  }

  lemma {:induction false} KeptTracesCollects(lib: Library, demand: seq<seq<Matcher>>, td: Traces)
    ensures KeptTraces(lib, demand, td) == FilterMap(td, KeepRule(lib, demand))
  {
    if td != [] {
      KeptTracesCollects(lib, demand, td[..|td| - 1]);
    }
  }

  /** Exactly the resources that some selector matches go on, unchanged, in order and as often as they came. */
  lemma {:induction false} KeptTracesExact(lib: Library, demand: seq<seq<Matcher>>, td: Traces)
    ensures Picked(td, KeepRule(lib, demand), KeptTraces(lib, demand, td))
    ensures forall rs :: rs in KeptTraces(lib, demand, td) <==>
                           rs in td && exists ms | ms in demand :: Matches(lib, ms, ResourceLabels(rs.attrs))
  {
    KeptTracesCollects(lib, demand, td);
    FilterMapPicked(td, KeepRule(lib, demand));
    forall rs ensures rs in KeptTraces(lib, demand, td) <==> rs in td && Kept(lib, demand, rs) {
      FilterMapIn(td, KeepRule(lib, demand), rs);
    }
  }

  function Selectors(routes: seq<Route>): seq<string> {
    if routes == [] then [] else Selectors(routes[..|routes| - 1]) + [routes[|routes| - 1].selector]
  }

  /** A routing table ships a resource exactly when the plain selector list of its rules would keep it. */
  lemma {:induction false} RoutedIffKept(lib: Library, routes: seq<Route>, rs: ResourceSpans)
    ensures CopiesOf(lib, ParseRoutes(lib, routes), rs) != [] <==>
              Kept(lib, ParsedDotted(lib, Selectors(routes)), rs)
  {
    if routes != [] {
      var front, r := routes[..|routes| - 1], routes[|routes| - 1];
      RoutedIffKept(lib, front, rs);
      assert Selectors(routes)[..|front|] == Selectors(front) by {
        SelectorsLength(front);
      }
      SelectorsLength(routes);
      var parsed, kept := ParseRoutes(lib, front), ParsedDotted(lib, Selectors(front));
      match Parse(lib, r.selector, true)
      case Ok(ms) =>
        assert (parsed + [ParsedRoute(ms, r.filterId)])[..|parsed|] == parsed;
        KeptNext(lib, kept, ms, rs);
      case Err(_) =>
        assert ParseRoutes(lib, routes) == parsed;
        assert ParsedDotted(lib, Selectors(routes)) == kept;
    }
  }

  lemma {:induction false} RoutedNext(lib: Library, parsed: seq<ParsedRoute>, td: Traces, rs: ResourceSpans)
    ensures Routed(lib, parsed, td + [rs]) == Routed(lib, parsed, td) + CopiesOf(lib, parsed, rs)
  {
    assert (td + [rs])[..|td|] == td;
  }

  /** Over a whole batch: a routing table makes its copies of exactly the resources that the plain selector list of its
      rules would keep, and of each of them at least one. */
  lemma {:induction false} RoutedIsCopiesOfKept(lib: Library, routes: seq<Route>, td: Traces)
    ensures var parsed := ParseRoutes(lib, routes);
            var kept := KeptTraces(lib, ParsedDotted(lib, Selectors(routes)), td);
            && Routed(lib, parsed, td) == Routed(lib, parsed, kept)
            && forall rs | rs in kept :: CopiesOf(lib, parsed, rs) != []
  {
    if td != [] {
      var front, rs := td[..|td| - 1], td[|td| - 1];
      var parsed, demand := ParseRoutes(lib, routes), ParsedDotted(lib, Selectors(routes));
      RoutedIsCopiesOfKept(lib, routes, front);
      RoutedIffKept(lib, routes, rs);
      RoutedNext(lib, parsed, KeptTraces(lib, demand, front), rs);
      var kept := KeptTraces(lib, demand, front);
      if !Kept(lib, demand, rs) {
        assert kept + [] == kept && Routed(lib, parsed, front) + [] == Routed(lib, parsed, front);
      }
    }
  }

  /** Resources without a stamp all go to the tenant-wide group, as they are. */
  lemma {:induction false} UnstampedGroup(td: Traces, f: string)
    requires forall rs | rs in td :: FILTER_ID_ATTR !in rs.attrs
    ensures GroupOf(td, f) == if f == "" then td else []
  {
    if td != [] {
      var front, rs := td[..|td| - 1], td[|td| - 1];
      assert td == front + [rs];
      UnstampedGroup(front, f);
      assert rs in td && rs.attrs - {FILTER_ID_ATTR} == rs.attrs;
    }
  }

  lemma {:induction false} SelectorsLength(routes: seq<Route>)
    ensures |Selectors(routes)| == |routes|
  {
    if routes != [] {
      SelectorsLength(routes[..|routes| - 1]);
    }
  }

  lemma {:induction false} KeptNext(lib: Library, demand: seq<seq<Matcher>>, ms: seq<Matcher>, rs: ResourceSpans)
    ensures Kept(lib, demand + [ms], rs) <==>
              Kept(lib, demand, rs) || Matches(lib, ms, ResourceLabels(rs.attrs))
  {
    assert ms in demand + [ms];
  }

  // ----- the caches -----

  function RouteText(r: Route): string {
    r.filterId + ['='] + r.selector
  }

  function RouteTexts(routes: seq<Route>): seq<string> {
    seq(|routes|, i requires 0 <= i < |routes| => RouteText(routes[i]))
  }

  function RouteKey(routes: seq<Route>): string {
    Join(RouteTexts(routes), '\0')
  }

  predicate PlainId(r: Route) {
    '=' !in r.filterId
  }

  predicate PlainRoutes(routes: seq<Route>) {
    forall r | r in routes :: PlainId(r) && '\0' !in r.filterId && '\0' !in r.selector
  }

  lemma {:induction false} PlainTwin(r: Route) returns (q: Route)
    requires !PlainId(r)
    ensures PlainId(q) && RouteText(q) == RouteText(r)
  {
    var k := IndexOf(r.filterId, '=');
    var head, tail := r.filterId[..k], r.filterId[k + 1..];
    q := Route(tail + ['='] + r.selector, head);
    assert r.filterId == head + ['='] + tail;
    assert head + ['='] + (tail + ['='] + r.selector) == head + ['='] + tail + ['='] + r.selector;
  }

  /** A route can be mistaken for one with a plain id exactly when its own id is not plain. */
  lemma {:induction false} PlainTwinIff(r: Route)
    ensures (exists q :: q != r && PlainId(q) && RouteText(q) == RouteText(r)) <==> !PlainId(r)
  {
    if PlainId(r) {
      forall q | PlainId(q) && RouteText(q) == RouteText(r) ensures q == r {
        SplitUnique(q.filterId, r.filterId, '=', q.selector, r.selector);
      }
    } else {
      var q := PlainTwin(r);
      assert q != r;
    }
  }

  lemma {:induction false} LateTwin(r: Route) returns (q: Route)
    requires '=' in r.selector
    ensures q != r && RouteText(q) == RouteText(r)
  {
    var k := IndexOf(r.selector, '=');
    var head, tail := r.selector[..k], r.selector[k + 1..];
    q := Route(tail, r.filterId + ['='] + head);
    assert r.selector == head + ['='] + tail;
    assert r.filterId + ['='] + (head + ['='] + tail) == r.filterId + ['='] + head + ['='] + tail;
  }

  lemma {:induction false} OneEqualsUnique(r: Route, q: Route)
    requires '=' !in r.filterId && '=' !in r.selector && RouteText(q) == RouteText(r)
    ensures q == r
  {
    assert RouteText(q)[|q.filterId|] == '=';
    assert |q.filterId| == |r.filterId|;
    assert RouteText(r)[..|r.filterId|] == r.filterId && RouteText(r)[|r.filterId| + 1..] == r.selector;
    assert RouteText(q)[..|q.filterId|] == q.filterId && RouteText(q)[|q.filterId| + 1..] == q.selector;
  }

  /** A route's part of the key is ambiguous exactly when its filter id or its selector contains `=`. */
  lemma {:induction false} RouteTextAmbiguousIff(r: Route)
    ensures (exists q :: q != r && RouteText(q) == RouteText(r)) <==> '=' in r.filterId || '=' in r.selector
  {
    if '=' in r.selector {
      var q := LateTwin(r);
      assert q != r;
    } else if '=' in r.filterId {
      var q := PlainTwin(r);
      assert q != r;
    } else {
      forall q | RouteText(q) == RouteText(r) ensures q == r {
        OneEqualsUnique(r, q);
      }
    }
  }

  lemma {:induction false} TextsOfOne(r: Route)
    ensures RouteKey([r]) == RouteText(r)
  {
    assert RouteTexts([r]) == [RouteText(r)];
  }

  /** Two routes written as one: the second becomes part of the first one's selector. */
  lemma {:induction false} MergedTable(routes: seq<Route>) returns (merged: seq<Route>)
    requires |routes| > 1
    ensures |merged| == |routes| - 1 && RouteKey(merged) == RouteKey(routes)
  {
    var r, next, rest := routes[0], routes[1], routes[2..];
    merged := [Route(r.selector + ['\0'] + RouteText(next), r.filterId)] + rest;
    var a, b := RouteText(r), RouteText(next);
    assert RouteText(merged[0]) == a + ['\0'] + b;
    assert RouteTexts(routes) == [a, b] + RouteTexts(rest);
    assert RouteTexts(merged) == [a + ['\0'] + b] + RouteTexts(rest);
    JoinMerge(a, b, RouteTexts(rest), '\0');
  }

  /** Every table of at least two routes hides an `=` behind the first. */
  lemma {:induction false} KeyOfMany(q: seq<Route>) returns (twin: Route)
    requires |q| > 1
    ensures RouteText(twin) == RouteKey(q) && '=' in twin.selector
  {
    var texts := RouteTexts(q);
    var tail := Join(texts[1..], '\0');
    twin := Route(q[0].selector + ['\0'] + tail, q[0].filterId);
    assert texts[0] + ['\0'] + tail == RouteText(twin);
    assert texts[1] == RouteText(q[1]) && tail[|q[1].filterId|] == '=';
    assert twin.selector[|q[0].selector| + 1 + |q[1].filterId|] == '=';
  }

  /** The key of a routing table is ambiguous exactly when the table has two routes, or one whose id or selector contains
      `=`: every table that could be of use. */
  lemma {:induction false} RouteKeyAmbiguousIff(routes: seq<Route>)
    requires routes != []
    ensures (exists q :: q != routes && RouteKey(q) == RouteKey(routes)) <==>
              |routes| > 1 || '=' in routes[0].filterId || '=' in routes[0].selector
  {
    if |routes| > 1 {
      var q := MergedTable(routes);
      assert q != routes;
    } else {
      var r := routes[0];
      assert routes == [r];
      TextsOfOne(r);
      RouteTextAmbiguousIff(r);
      if '=' in r.filterId || '=' in r.selector {
        var q :| q != r && RouteText(q) == RouteText(r);
        TextsOfOne(q);
        assert [q] != routes && RouteKey([q]) == RouteKey(routes);
      } else {
        forall q | RouteKey(q) == RouteKey(routes) ensures q == routes {
          UnambiguousKey(r, q);
        }
      }
    }
  }

  lemma {:induction false} UnambiguousKey(r: Route, q: seq<Route>)
    requires '=' !in r.filterId && '=' !in r.selector && RouteKey(q) == RouteKey([r])
    ensures q == [r]
  {
    TextsOfOne(r);
    EmptyKeyIff(q);
    EmptyKeyIff([r]);
    var twin := if |q| == 1 then q[0] else r;
    if |q| > 1 {
      twin := KeyOfMany(q);
    } else {
      assert q == [q[0]];
      TextsOfOne(q[0]);
    }
    OneEqualsUnique(r, twin);
  }

  /** The literal that ends a selector of one clause. */
  function ValueText(v: string): string {
    "\"" + (v + "\"")
  }

  function GoodRoute(name: string, v: string, filterId: string): Route {
    Route("{" + (name + ("=" + (ValueText(v) + "}"))), filterId)
  }

  /** The same text, cut at the selector's own `=`. */
  function BadRoute(name: string, v: string, filterId: string): Route {
    Route(ValueText(v) + "}", filterId + ['='] + ("{" + name))
  }

  lemma {:induction false} GoodIsBad(name: string, v: string, filterId: string)
    ensures RouteText(GoodRoute(name, v, filterId)) == RouteText(BadRoute(name, v, filterId))
  {
    var t := ValueText(v) + "}";
    assert filterId + ['='] + ("{" + (name + ("=" + t))) == filterId + ['='] + ("{" + name) + ['='] + t;
  }

  lemma {:induction false} GoodParses(lib: Library, name: string, v: string, filterId: string)
    requires IsName(name, true) && IsPlain(v)
    ensures Parse(lib, GoodRoute(name, v, filterId).selector, true) == Ok([Matcher(name, Eq, v)])
  {
    PlainLiteralReads(v);
    assert ValueText(v)[1..] == v + "\"";
    OneClauseParses(lib, name, ValueText(v), true);
  }

  lemma {:induction false} BadDoesNotParse(lib: Library, name: string, v: string, filterId: string)
    ensures Parse(lib, BadRoute(name, v, filterId).selector, true).Err?
  {
    assert BadRoute(name, v, filterId).selector[0] == '"';
  }

  /** Two tables with one key but different routes: one rule, and the same text with the selector's own `=` taken for the
      separator. After the second table, the cache would answer the first with no route at all. */
  lemma {:induction false} RouteCollision(lib: Library, name: string, v: string, filterId: string)
    requires IsName(name, true) && IsPlain(v)
    ensures var good, bad := [GoodRoute(name, v, filterId)], [BadRoute(name, v, filterId)];
            && RouteKey(good) == RouteKey(bad)
            && ParseRoutes(lib, good) == [ParsedRoute([Matcher(name, Eq, v)], filterId)]
            && ParseRoutes(lib, bad) == []
  {
    var good, bad := GoodRoute(name, v, filterId), BadRoute(name, v, filterId);
    TextsOfOne(good);
    TextsOfOne(bad);
    GoodIsBad(name, v, filterId);
    GoodParses(lib, name, v, filterId);
    BadDoesNotParse(lib, name, v, filterId);
    OneParsedRoute(lib, good);
    OneParsedRoute(lib, bad);
  }

  lemma {:induction false} OneParsedRoute(lib: Library, r: Route)
    ensures ParseRoutes(lib, [r]) ==
            match Parse(lib, r.selector, true) case Ok(ms) => [ParsedRoute(ms, r.filterId)] case Err(_) => []
  {
    assert [r][..0] == [];
  }

  lemma {:induction false} PlainTexts(routes: seq<Route>)
    requires PlainRoutes(routes)
    ensures forall t | t in RouteTexts(routes) :: '\0' !in t
  {
    forall i | 0 <= i < |routes| ensures '\0' !in RouteTexts(routes)[i] {
      assert routes[i] in routes;
    }
  }

  lemma {:induction false} EmptyKeyIff(routes: seq<Route>)
    ensures RouteKey(routes) == "" <==> routes == []
  {
    if routes != [] {
      var texts := RouteTexts(routes);
      assert |texts[0]| > 0;
    }
  }

  /** On plain routing tables the cache key tells the tables apart. */
  lemma {:induction false} RouteKeyInjective(a: seq<Route>, b: seq<Route>)
    requires PlainRoutes(a) && PlainRoutes(b) && RouteKey(a) == RouteKey(b)
    ensures a == b
  {
    EmptyKeyIff(a);
    EmptyKeyIff(b);
    if a != [] {
      PlainTexts(a);
      PlainTexts(b);
      JoinInjective(RouteTexts(a), RouteTexts(b), '\0');
      assert |a| == |RouteTexts(a)| == |b|;
      forall i | 0 <= i < |a| ensures a[i] == b[i] {
        assert RouteTexts(a)[i] == RouteTexts(b)[i];
        assert a[i] in a && b[i] in b;
        SplitUnique(a[i].filterId, b[i].filterId, '=', a[i].selector, b[i].selector);
      }
    }
  }

  /** The trace filter as a pipeline component: both caches answer for the list behind their key. */
  class TraceFilter {
    const lib: Library
    var cachedKey: string
    var cachedParsed: seq<seq<Matcher>>
    var cachedRouteKey: string
    var cachedRoutes: seq<ParsedRoute>
    /** The lists the cached results were parsed from. */
    ghost var cachedRaw: seq<string>
    ghost var cachedTable: seq<Route>

    ghost predicate Valid()
      reads this
    {
      && cachedKey == Join(cachedRaw, '\0') && cachedParsed == ParsedDotted(lib, cachedRaw)
      && cachedRouteKey == RouteKey(cachedTable) && cachedRoutes == ParseRoutes(lib, cachedTable)
    }

    /** The empty key of a new filter stands for the list holding one empty selector, which parses to nothing. */
    constructor (lib: Library)
      ensures Valid() && this.lib == lib && NulFree(cachedRaw) && PlainRoutes(cachedTable)
    {
      this.lib := lib;
      cachedKey, cachedParsed, cachedRaw := "", [], [""];
      cachedRouteKey, cachedRoutes, cachedTable := "", [], [];
    }

    method ParsedSelectors(raw: seq<string>) returns (s: seq<seq<Matcher>>)
      requires Valid()
      modifies `cachedKey, `cachedParsed, `cachedRaw
      ensures Valid() && s == ParsedDotted(lib, cachedRaw) && Join(cachedRaw, '\0') == Join(raw, '\0')
      ensures NulFree(raw) && NulFree(old(cachedRaw)) ==> cachedRaw == raw
    {
      var key := Join(raw, '\0');
      if key == cachedKey {
        if NulFree(raw) && NulFree(cachedRaw) {
          JoinInjective(raw, cachedRaw, '\0');
        }
        return cachedParsed;
      }
      s := [];
      for i := 0 to |raw|
        invariant Valid() && cachedRaw == old(cachedRaw)
        invariant s == ParsedDotted(lib, raw[..i])
      {
        assert raw[..i + 1][..i] == raw[..i];
        var parsed := ParseSelector(lib, raw[i], true);
        if parsed.Ok? {
          s := s + [parsed.value];
        }
      }
      assert raw[..|raw|] == raw;
      cachedKey, cachedParsed, cachedRaw := key, s, raw;
    }

    method ParsedRoutes(routes: seq<Route>) returns (s: seq<ParsedRoute>)
      requires Valid()
      modifies `cachedRouteKey, `cachedRoutes, `cachedTable
      ensures Valid() && s == ParseRoutes(lib, cachedTable) && RouteKey(cachedTable) == RouteKey(routes)
      ensures PlainRoutes(routes) && PlainRoutes(old(cachedTable)) ==> cachedTable == routes
    {
      var joined := RouteKey(routes);
      if joined == cachedRouteKey {
        if PlainRoutes(routes) && PlainRoutes(cachedTable) {
          RouteKeyInjective(routes, cachedTable);
        }
        return cachedRoutes;
      }
      s := [];
      for i := 0 to |routes|
        invariant Valid() && cachedTable == old(cachedTable)
        invariant s == ParseRoutes(lib, routes[..i])
      {
        assert routes[..i + 1][..i] == routes[..i];
        var parsed := ParseSelector(lib, routes[i].selector, true);
        if parsed.Ok? {
          s := s + [ParsedRoute(parsed.value, routes[i].filterId)];
        }
      }
      assert routes[..|routes|] == routes;
      cachedRouteKey, cachedRoutes, cachedTable := joined, s, routes;
    }

    /** What goes on to the exporter, None when the batch is blocked. Without a provider `demands` is None. */
    method ConsumeTraces(td: Traces, demands: Option<seq<string>>, routes: seq<Route>) returns (sent: Option<Traces>)
      requires Valid()
      modifies this
      ensures Valid()
      ensures demands.None? ==> sent == None && cachedRaw == old(cachedRaw) && cachedTable == old(cachedTable)
      ensures demands.Some? && routes != [] ==>
                var out := Routed(lib, ParseRoutes(lib, cachedTable), td);
                && sent == (if SpanCount(out) == 0 then None else Some(out))
                && cachedRaw == old(cachedRaw) && RouteKey(cachedTable) == RouteKey(routes)
                && (PlainRoutes(routes) && PlainRoutes(old(cachedTable)) ==> cachedTable == routes)
      ensures demands.Some? && routes == [] ==> cachedTable == old(cachedTable)
      ensures demands.Some? && routes == [] && demands.value == [] ==> sent == None && cachedRaw == old(cachedRaw)
      ensures demands.Some? && routes == [] && demands.value != [] ==>
                var demand := ParsedDotted(lib, cachedRaw);
                && sent == (if demand == [] then None else Some(KeptTraces(lib, demand, td)))
                && (NulFree(demands.value) && NulFree(old(cachedRaw)) ==> cachedRaw == demands.value)
    {
      if demands.None? {
        return None;
      }
      if routes != [] {
        var parsed := ParsedRoutes(routes);
        sent := ConsumeRouted(lib, parsed, td);
        return;
      }
      if demands.value == [] {
        return None;
      }
      var selectors := ParsedSelectors(demands.value);
      if selectors == [] {
        return None;
      }
      var kept := FilterTraces(lib, selectors, td);
      return Some(kept);
    }
  }
}
