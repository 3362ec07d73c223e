/** OTLP metrics as the agent sees them, and the Prometheus series each datapoint is exported as. */
module Telemetry {
  import opened Text
  import opened Selector
  import opened PromNaming
  import opened Picks

  datatype Kind = Unset | Gauge | Sum | Histogram | ExponentialHistogram | Summary

  /** `bounds` and `quantiles` are already rendered as label values. */
  datatype Point = Point(attrs: Attrs, bounds: seq<string>, hasSum: bool, quantiles: seq<string>)

  /** `base` is the translated Prometheus name, which depends on the metric's name, unit and type only. */
  datatype Metric = Metric(base: string, kind: Kind, points: seq<Point>)

  datatype Scope = Scope(metrics: seq<Metric>)

  datatype Resource = Resource(attrs: Attrs, scopes: seq<Scope>)

  datatype Series = Series(name: string, labels: Labels)

  /** The series names a metric of this kind produces, as the filters count them. */
  function FamilyNames(kind: Kind, base: string): seq<string> {
    match kind
    case Histogram => [base + "_bucket", base + "_sum", base + "_count"]
    case Summary => [base, base + "_sum", base + "_count"]
    case _ => [base]
  }

  // ----- exploding datapoints into series -----

  function OneSeries(lib: Library, name: string, res: Attrs, p: Point, extra: Attrs): Series {
    Series(name, SeriesLabels(lib, res, p.attrs, extra))
  }

  /** One series per value, each carrying it as the label `key`. */
  function LabelledSeries(lib: Library, name: string, res: Attrs, p: Point, key: string,
                          values: seq<string>): seq<Series>
  {
    if values == [] then []
    else
      LabelledSeries(lib, name, res, p, key, values[..|values| - 1]) +
      [OneSeries(lib, name, res, p, [(key, values[|values| - 1])])]
  }

  function PointSeries(lib: Library, kind: Kind, base: string, res: Attrs, p: Point): seq<Series> {
    match kind
    case Unset => []
    case Histogram =>
      LabelledSeries(lib, base + "_bucket", res, p, "le", p.bounds + ["+Inf"]) +
      (if p.hasSum then [OneSeries(lib, base + "_sum", res, p, [])] else []) +
      [OneSeries(lib, base + "_count", res, p, [])]
    case Summary =>
      LabelledSeries(lib, base, res, p, "quantile", p.quantiles) +
      [OneSeries(lib, base + "_sum", res, p, []), OneSeries(lib, base + "_count", res, p, [])]
    case _ => [OneSeries(lib, base, res, p, [])]
  }

  function PointsSeries(lib: Library, kind: Kind, base: string, res: Attrs, points: seq<Point>): seq<Series> {
    if points == [] then []
    else
      PointsSeries(lib, kind, base, res, points[..|points| - 1]) +
      PointSeries(lib, kind, base, res, points[|points| - 1])
  }

  function MetricsSeries(lib: Library, res: Attrs, metrics: seq<Metric>): seq<Series> {
    if metrics == [] then []
    else
      var m := metrics[|metrics| - 1];
      MetricsSeries(lib, res, metrics[..|metrics| - 1]) + PointsSeries(lib, m.kind, m.base, res, m.points)
  }

  function ScopesSeries(lib: Library, res: Attrs, scopes: seq<Scope>): seq<Series> {
    if scopes == [] then []
    else ScopesSeries(lib, res, scopes[..|scopes| - 1]) + MetricsSeries(lib, res, scopes[|scopes| - 1].metrics)
  }

  /** Every series of a batch, in the order the tracker meets them. */
  function BatchSeries(lib: Library, batch: seq<Resource>): seq<Series> {
    if batch == [] then []
    else
      var r := batch[|batch| - 1];
      BatchSeries(lib, batch[..|batch| - 1]) + ScopesSeries(lib, r.attrs, r.scopes)
  }

  /** What can be said of each series of a datapoint: its name is of the family, and le and quantile aside its labels
      are the datapoint's. */
  ghost predicate OfPoint(lib: Library, kind: Kind, base: string, res: Attrs, p: Point, s: Series) {
    && s.name in FamilyNames(kind, base)
    && forall x: string | x != "le" && x != "quantile" ::
         Lookup(s.labels, x) == Lookup(SeriesLabels(lib, res, p.attrs, []), x)
  }

  lemma {:induction false} OneSeriesOfPoint(lib: Library, kind: Kind, base: string, name: string, res: Attrs, p: Point,
                                            key: string, value: string)
    requires name in FamilyNames(kind, base) && (key == "le" || key == "quantile")
    ensures OfPoint(lib, kind, base, res, p, OneSeries(lib, name, res, p, [(key, value)]))
  {
    BucketLabelNames(lib);
    forall x: string | x != "le" && x != "quantile"
      ensures Lookup(SeriesLabels(lib, res, p.attrs, [(key, value)]), x) == Lookup(SeriesLabels(lib, res, p.attrs, []), x)
    {
      ExtraOnlyAdds(lib, res, p.attrs, [(key, value)], x);
    }
  }

  lemma {:induction false} LabelledSeriesOfPoint(lib: Library, kind: Kind, base: string, name: string, res: Attrs,
                                                 p: Point,
                                                 key: string, values: seq<string>)
    requires name in FamilyNames(kind, base) && (key == "le" || key == "quantile")
    ensures forall s | s in LabelledSeries(lib, name, res, p, key, values) :: OfPoint(lib, kind, base, res, p, s)
  {
    if values != [] {
      LabelledSeriesOfPoint(lib, kind, base, name, res, p, key, values[..|values| - 1]);
      OneSeriesOfPoint(lib, kind, base, name, res, p, key, values[|values| - 1]);
    }
  }

  lemma {:induction false} PointSeriesOfPoint(lib: Library, kind: Kind, base: string, res: Attrs, p: Point)
    ensures forall s | s in PointSeries(lib, kind, base, res, p) :: OfPoint(lib, kind, base, res, p, s)
  {
    match kind
    case Histogram =>
      LabelledSeriesOfPoint(lib, kind, base, base + "_bucket", res, p, "le", p.bounds + ["+Inf"]);
    case Summary =>
      LabelledSeriesOfPoint(lib, kind, base, base, res, p, "quantile", p.quantiles);
    case _ =>
  }

  // ----- exactly which series -----

  lemma {:induction false} ValueLabelled(lib: Library, name: string, res: Attrs, p: Point, key: string, value: string)
    requires key == "le" || key == "quantile"
    ensures OneSeries(lib, name, res, p, [(key, value)]) ==
            Series(name, SeriesLabels(lib, res, p.attrs, [])[key := value])
  {
    BucketLabelNames(lib);
    assert [(key, value)][..0] == [];
  }

  lemma {:induction false} LabelledSeriesAt(lib: Library, name: string, res: Attrs, p: Point, key: string,
                                            values: seq<string>, i: nat)
    requires key == "le" || key == "quantile"
    ensures var all := LabelledSeries(lib, name, res, p, key, values);
            && |all| == |values|
            && (i < |all| ==> all[i] == Series(name, SeriesLabels(lib, res, p.attrs, [])[key := values[i]]))
  {
    if values != [] {
      LabelledSeriesAt(lib, name, res, p, key, values[..|values| - 1], i);
      ValueLabelled(lib, name, res, p, key, values[|values| - 1]);
    }
  }

  /** A histogram datapoint: a bucket per bound and one for infinity, then the sum if it has one, then the count. */
  ghost predicate HistogramSeries(all: seq<Series>, base: string, labels: Labels, p: Point) {
    var n := |p.bounds|;
    && |all| == n + (if p.hasSum then 3 else 2)
    && (forall i | 0 <= i < n :: all[i] == Series(base + "_bucket", labels["le" := p.bounds[i]]))
    && all[n] == Series(base + "_bucket", labels["le" := "+Inf"])
    && (p.hasSum ==> all[n + 1] == Series(base + "_sum", labels))
    && all[|all| - 1] == Series(base + "_count", labels)
  }

  /** A summary datapoint: a series per quantile, then sum and count. */
  ghost predicate SummarySeries(all: seq<Series>, base: string, labels: Labels, p: Point) {
    var n := |p.quantiles|;
    && |all| == n + 2
    && (forall i | 0 <= i < n :: all[i] == Series(base, labels["quantile" := p.quantiles[i]]))
    && all[n] == Series(base + "_sum", labels) && all[n + 1] == Series(base + "_count", labels)
  }

  /** The series of a datapoint, position by position. */
  lemma {:induction false} PointSeriesExact(lib: Library, kind: Kind, base: string, res: Attrs, p: Point)
    ensures var all := PointSeries(lib, kind, base, res, p);
            var labels := SeriesLabels(lib, res, p.attrs, []);
            match kind
            case Unset => all == []
            case Histogram => HistogramSeries(all, base, labels, p)
            case Summary => SummarySeries(all, base, labels, p)
            case _ => all == [Series(base, labels)]
  {
    match kind
    case Histogram =>
      var values := p.bounds + ["+Inf"];
      LabelledSeriesAt(lib, base + "_bucket", res, p, "le", values, |p.bounds|);
      var labels := SeriesLabels(lib, res, p.attrs, []);
      forall i | 0 <= i < |p.bounds|
        ensures PointSeries(lib, kind, base, res, p)[i] == Series(base + "_bucket", labels["le" := p.bounds[i]])
      {
        LabelledSeriesAt(lib, base + "_bucket", res, p, "le", values, i);
      }
    case Summary =>
      LabelledSeriesAt(lib, base, res, p, "quantile", p.quantiles, 0);
      var labels := SeriesLabels(lib, res, p.attrs, []);
      forall i | 0 <= i < |p.quantiles|
        ensures PointSeries(lib, kind, base, res, p)[i] == Series(base, labels["quantile" := p.quantiles[i]])
      {
        LabelledSeriesAt(lib, base, res, p, "quantile", p.quantiles, i);
      }
    case _ =>
  }

  /** A histogram has a sum series exactly when its datapoint has a sum. */
  lemma {:induction false} SumSeriesIff(lib: Library, base: string, res: Attrs, p: Point)
    ensures (exists s | s in PointSeries(lib, Histogram, base, res, p) :: s.name == base + "_sum") <==> p.hasSum
  {
    PointSeriesExact(lib, Histogram, base, res, p);
    var all := PointSeries(lib, Histogram, base, res, p);
    if p.hasSum {
      assert all[|p.bounds| + 1] in all;
    }
    assert |base + "_bucket"| != |base + "_sum"| && |base + "_count"| != |base + "_sum"|;
    forall i | 0 <= i < |all| && !p.hasSum ensures all[i].name != base + "_sum" {
      assert i <= |p.bounds| || i == |all| - 1;
    }
  }

  // ----- the datapoints of a batch -----

  /** A datapoint with all that its series depend on. */
  datatype Datum = Datum(res: Attrs, kind: Kind, base: string, point: Point)

  function DatumOf(res: Attrs, kind: Kind, base: string): Point -> Datum {
    (p: Point) => Datum(res, kind, base, p)
  }

  function PointsData(res: Attrs, kind: Kind, base: string, points: seq<Point>): seq<Datum> {
    Map(points, DatumOf(res, kind, base))
  }

  function MetricsData(res: Attrs, metrics: seq<Metric>): seq<Datum> {
    if metrics == [] then []
    else
      var m := metrics[|metrics| - 1];
      MetricsData(res, metrics[..|metrics| - 1]) + PointsData(res, m.kind, m.base, m.points)
  }

  function ScopesData(res: Attrs, scopes: seq<Scope>): seq<Datum> {
    if scopes == [] then []
    else ScopesData(res, scopes[..|scopes| - 1]) + MetricsData(res, scopes[|scopes| - 1].metrics)
  }

  /** Every datapoint of a batch, in order. */
  function BatchData(batch: seq<Resource>): seq<Datum> {
    if batch == [] then []
    else BatchData(batch[..|batch| - 1]) + ScopesData(batch[|batch| - 1].attrs, batch[|batch| - 1].scopes)
  }

  function SeriesOf(lib: Library): Datum -> seq<Series> {
    (d: Datum) => PointSeries(lib, d.kind, d.base, d.res, d.point)
  }

  function SeriesOfPoint(lib: Library, res: Attrs, kind: Kind, base: string): Point -> seq<Series> {
    (p: Point) => PointSeries(lib, kind, base, res, p)
  }

  lemma {:induction false} PointsSeriesByPoint(lib: Library, res: Attrs, kind: Kind, base: string, points: seq<Point>)
    ensures PointsSeries(lib, kind, base, res, points) == FlatMap(points, SeriesOfPoint(lib, res, kind, base))
  {
    if points != [] {
      PointsSeriesByPoint(lib, res, kind, base, points[..|points| - 1]);
    }
  }

  lemma {:induction false} PointsSeriesByDatum(lib: Library, res: Attrs, kind: Kind, base: string, points: seq<Point>)
    ensures PointsSeries(lib, kind, base, res, points) == FlatMap(PointsData(res, kind, base, points), SeriesOf(lib))
  {
    PointsSeriesByPoint(lib, res, kind, base, points);
    FlatMapOfMap(points, DatumOf(res, kind, base), SeriesOf(lib), SeriesOfPoint(lib, res, kind, base));
  }

  lemma {:induction false} MetricsSeriesByDatum(lib: Library, res: Attrs, metrics: seq<Metric>)
    ensures MetricsSeries(lib, res, metrics) == FlatMap(MetricsData(res, metrics), SeriesOf(lib))
  {
    if metrics != [] {
      var front, m := metrics[..|metrics| - 1], metrics[|metrics| - 1];
      MetricsSeriesByDatum(lib, res, front);
      PointsSeriesByDatum(lib, res, m.kind, m.base, m.points);
      FlatMapConcat(MetricsData(res, front), PointsData(res, m.kind, m.base, m.points), SeriesOf(lib));
    }
  }

  lemma {:induction false} ScopesSeriesByDatum(lib: Library, res: Attrs, scopes: seq<Scope>)
    ensures ScopesSeries(lib, res, scopes) == FlatMap(ScopesData(res, scopes), SeriesOf(lib))
  {
    if scopes != [] {
      var front, metrics := scopes[..|scopes| - 1], scopes[|scopes| - 1].metrics;
      ScopesSeriesByDatum(lib, res, front);
      MetricsSeriesByDatum(lib, res, metrics);
      FlatMapConcat(ScopesData(res, front), MetricsData(res, metrics), SeriesOf(lib));
    }
  }

  /** The series of a batch are those of its datapoints, one datapoint after the other. */
  lemma {:induction false} BatchSeriesByDatum(lib: Library, batch: seq<Resource>)
    ensures BatchSeries(lib, batch) == FlatMap(BatchData(batch), SeriesOf(lib))
  {
    if batch != [] {
      var front, r := batch[..|batch| - 1], batch[|batch| - 1];
      BatchSeriesByDatum(lib, front);
      ScopesSeriesByDatum(lib, r.attrs, r.scopes);
      FlatMapConcat(BatchData(front), ScopesData(r.attrs, r.scopes), SeriesOf(lib));
    }
  }
}
