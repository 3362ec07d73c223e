/** The metrics tracker: every series of a batch, counted under the hash of its fingerprint. */
module Tracker {
  import opened Text
  import opened Selector
  import opened PromNaming
  import opened Fingerprint
  import opened Telemetry

  /** A 128-bit hash of the fingerprint. The hash function itself is a parameter. */
  type HashKey = seq<Byte>

  datatype Entry = Entry(metricName: string, labels: Pairs, samples: nat)

  type Data = map<HashKey, Entry>

  ghost function KeyOf(lib: Library, hash: string -> HashKey, s: Series): HashKey {
    hash(FingerprintText(lib, s.name, s.labels))
  }

  ghost function Counted(lib: Library, hash: string -> HashKey, data: Data, s: Series): Data {
    var k := KeyOf(lib, hash, s);
    data[k := if k in data then data[k].(samples := data[k].samples + 1) else Entry(s.name, SortedPairs(s.labels), 1)]
  }

  ghost function Fold<D, S>(f: (D, S) -> D, d: D, all: seq<S>): D {
    if all == [] then d else f(Fold(f, d, all[..|all| - 1]), all[|all| - 1])
  }

  lemma {:induction false} FoldConcat<D, S>(f: (D, S) -> D, d: D, a: seq<S>, b: seq<S>)
    ensures Fold(f, d, a + b) == Fold(f, Fold(f, d, a), b)
  {
    if b == [] {
      assert a + b == a;
    } else {
      FoldConcat(f, d, a, b[..|b| - 1]);
      assert (a + b)[..|a + b| - 1] == a + b[..|b| - 1];
    }
  }

  ghost function Counting(lib: Library, hash: string -> HashKey): (Data, Series) -> Data {
    (data, s) => Counted(lib, hash, data, s)
  }

  /** The counts after all the series have come in, in order. */
  ghost function Tally(lib: Library, hash: string -> HashKey, data: Data, all: seq<Series>): Data {
    Fold(Counting(lib, hash), data, all)
  }

  lemma {:induction false} TallyConcat(lib: Library, hash: string -> HashKey, data: Data, a: seq<Series>,
                                       b: seq<Series>)
    ensures Tally(lib, hash, data, a + b) == Tally(lib, hash, Tally(lib, hash, data, a), b)
  {
    FoldConcat(Counting(lib, hash), data, a, b);
  }

  lemma {:induction false} TallyNext(lib: Library, hash: string -> HashKey, data: Data, all: seq<Series>, s: Series)
    ensures Tally(lib, hash, data, all + [s]) == Counted(lib, hash, Tally(lib, hash, data, all), s)
  {
    assert (all + [s])[..|all|] == all;
  }

  lemma {:induction false} TallyOne(lib: Library, hash: string -> HashKey, data: Data, s: Series)
    ensures Tally(lib, hash, data, [s]) == Counted(lib, hash, data, s)
  {
    TallyNext(lib, hash, data, [], s);
    assert [] + [s] == [s];
  }

  // ----- the collector -----

  class Collector {
    const lib: Library
    const hash: string -> HashKey
    var data: Data

    constructor (lib: Library, hash: string -> HashKey)
      ensures this.lib == lib && this.hash == hash && data == map[]
    {
      this.lib, this.hash, data := lib, hash, map[];
    }

    method AddTimeseries(metric: string, labels: Labels)
      modifies this
      ensures data == Counted(lib, hash, old(data), Series(metric, labels))
    {
      var fingerprint := BuildFingerprint(lib, metric, labels);
      var k := hash(fingerprint);
      if k in data {
        data := data[k := data[k].(samples := data[k].samples + 1)];
      } else {
        var pairs := ExtractSortedLabelPairs(labels);
        data := data[k := Entry(metric, pairs, 1)];
      }
    }

    method ProcessSeries(name: string, res: Attrs, p: Point, extra: Attrs)
      modifies this
      ensures data == Tally(lib, hash, old(data), [OneSeries(lib, name, res, p, extra)])
    {
      var labels := BuildSeriesLabels(lib, res, p.attrs, extra);
      TallyOne(lib, hash, data, Series(name, labels));
      AddTimeseries(name, labels);
    }

    /** One series per value, each labelled with it. */
    method ProcessLabelled(name: string, res: Attrs, p: Point, key: string, values: seq<string>)
      modifies this
      ensures data == Tally(lib, hash, old(data), LabelledSeries(lib, name, res, p, key, values))
    {
      for i := 0 to |values|
        invariant data == Tally(lib, hash, old(data), LabelledSeries(lib, name, res, p, key, values[..i]))
      {
        assert values[..i + 1][..i] == values[..i];
        TallyConcat(lib, hash, old(data), LabelledSeries(lib, name, res, p, key, values[..i]),
                    [OneSeries(lib, name, res, p, [(key, values[i])])]);
        ProcessSeries(name, res, p, [(key, values[i])]);
      }
      assert values[..|values|] == values;
    }

    method ProcessHistogramPoint(base: string, res: Attrs, p: Point)
      modifies this
      ensures data == Tally(lib, hash, old(data), PointSeries(lib, Histogram, base, res, p))
    {
      var buckets := LabelledSeries(lib, base + "_bucket", res, p, "le", p.bounds + ["+Inf"]);
      var sum := if p.hasSum then [OneSeries(lib, base + "_sum", res, p, [])] else [];
      TallyConcat(lib, hash, data, buckets, sum);
      TallyConcat(lib, hash, data, buckets + sum, [OneSeries(lib, base + "_count", res, p, [])]);
      ProcessLabelled(base + "_bucket", res, p, "le", p.bounds + ["+Inf"]);
      if p.hasSum {
        ProcessSeries(base + "_sum", res, p, []);
      }
      ProcessSeries(base + "_count", res, p, []);
    }

    method ProcessSummaryPoint(base: string, res: Attrs, p: Point)
      modifies this
      ensures data == Tally(lib, hash, old(data), PointSeries(lib, Summary, base, res, p))
    {
      var quantiles := LabelledSeries(lib, base, res, p, "quantile", p.quantiles);
      var sum, count := OneSeries(lib, base + "_sum", res, p, []), OneSeries(lib, base + "_count", res, p, []);
      TallyConcat(lib, hash, data, quantiles, [sum, count]);
      TallyConcat(lib, hash, Tally(lib, hash, data, quantiles), [sum], [count]);
      assert [sum] + [count] == [sum, count];
      ProcessLabelled(base, res, p, "quantile", p.quantiles);
      ProcessSeries(base + "_sum", res, p, []);
      ProcessSeries(base + "_count", res, p, []);
    }

    method ProcessPoint(kind: Kind, base: string, res: Attrs, p: Point)
      modifies this
      ensures data == Tally(lib, hash, old(data), PointSeries(lib, kind, base, res, p))
    {
      match kind {
        case Unset =>
        case Histogram => ProcessHistogramPoint(base, res, p);
        case Summary => ProcessSummaryPoint(base, res, p);
        case _ => ProcessSeries(base, res, p, []);
      }
    }

    method ProcessMetric(res: Attrs, m: Metric)
      modifies this
      ensures data == Tally(lib, hash, old(data), PointsSeries(lib, m.kind, m.base, res, m.points))
    {
      for i := 0 to |m.points|
        invariant data == Tally(lib, hash, old(data), PointsSeries(lib, m.kind, m.base, res, m.points[..i]))
      {
        assert m.points[..i + 1][..i] == m.points[..i];
        TallyConcat(lib, hash, old(data), PointsSeries(lib, m.kind, m.base, res, m.points[..i]),
                    PointSeries(lib, m.kind, m.base, res, m.points[i]));
        ProcessPoint(m.kind, m.base, res, m.points[i]);
      }
      assert m.points[..|m.points|] == m.points;
    }

    method ProcessMetrics(res: Attrs, metrics: seq<Metric>)
      modifies this
      ensures data == Tally(lib, hash, old(data), MetricsSeries(lib, res, metrics))
    {
      for i := 0 to |metrics|
        invariant data == Tally(lib, hash, old(data), MetricsSeries(lib, res, metrics[..i]))
      {
        assert metrics[..i + 1][..i] == metrics[..i];
        TallyConcat(lib, hash, old(data), MetricsSeries(lib, res, metrics[..i]),
                    PointsSeries(lib, metrics[i].kind, metrics[i].base, res, metrics[i].points));
        ProcessMetric(res, metrics[i]);
      }
      assert metrics[..|metrics|] == metrics;
    }

    method ProcessScopes(res: Attrs, scopes: seq<Scope>)
      modifies this
      ensures data == Tally(lib, hash, old(data), ScopesSeries(lib, res, scopes))
    {
      for i := 0 to |scopes|
        invariant data == Tally(lib, hash, old(data), ScopesSeries(lib, res, scopes[..i]))
      {
        assert scopes[..i + 1][..i] == scopes[..i];
        TallyConcat(lib, hash, old(data), ScopesSeries(lib, res, scopes[..i]), MetricsSeries(lib, res, scopes[i].metrics));
        ProcessMetrics(res, scopes[i].metrics);
      }
      assert scopes[..|scopes|] == scopes;
    }

    /** trackMetrics: every series of the batch is counted. */
    method TrackMetrics(batch: seq<Resource>)
      modifies this
      ensures data == Tally(lib, hash, old(data), BatchSeries(lib, batch))
    {
      for i := 0 to |batch|
        invariant data == Tally(lib, hash, old(data), BatchSeries(lib, batch[..i]))
      {
        assert batch[..i + 1][..i] == batch[..i];
        TallyConcat(lib, hash, old(data), BatchSeries(lib, batch[..i]), ScopesSeries(lib, batch[i].attrs, batch[i].scopes));
        ProcessScopes(batch[i].attrs, batch[i].scopes);
      }
      assert batch[..|batch|] == batch;
    }
  }

  // ----- what the tally says -----

  function Occurrences(all: seq<Series>, s: Series): nat {
    if all == [] then 0
    else Occurrences(all[..|all| - 1], s) + if all[|all| - 1] == s then 1 else 0
  }

  /** Names that fingerprints keep apart, and no hash collision among the batch's fingerprints. */
  ghost predicate Distinguishable(lib: Library, hash: string -> HashKey, all: seq<Series>) {
    && (forall s | s in all :: '{' !in s.name && forall n | n in s.labels :: '=' !in n)
    && (forall s, t | s in all && t in all && KeyOf(lib, hash, s) == KeyOf(lib, hash, t) ::
          FingerprintText(lib, s.name, s.labels) == FingerprintText(lib, t.name, t.labels))
  }

  lemma {:induction false} OneSeriesPerKey(lib: Library, hash: string -> HashKey, all: seq<Series>, s: Series,
                                           t: Series)
    requires Distinguishable(lib, hash, all) && s in all && t in all && KeyOf(lib, hash, s) == KeyOf(lib, hash, t)
    ensures s == t
  {
    FingerprintInjective(lib, s.name, s.labels, t.name, t.labels);
  }

  /** The tracker's batch holds exactly the series exported, each with its own name, its sorted labels and the number of
      times it occurred. */
  lemma {:induction false} TallyExact(lib: Library, hash: string -> HashKey, all: seq<Series>, s: Series)
    requires Distinguishable(lib, hash, all + [s])
    ensures var data := Tally(lib, hash, map[], all);
            var k := KeyOf(lib, hash, s);
            && (k in data <==> s in all)
            && (k in data ==> data[k] == Entry(s.name, SortedPairs(s.labels), Occurrences(all, s)))
  {
    if all != [] {
      var front, last := all[..|all| - 1], all[|all| - 1];
      assert all == front + [last];
      assert forall t :: t in front + [s] ==> t in all + [s];
      TallyExact(lib, hash, front, s);
      TallyNext(lib, hash, map[], front, last);
      if KeyOf(lib, hash, s) == KeyOf(lib, hash, last) {
        assert s in all + [s] && last in all + [s];
        OneSeriesPerKey(lib, hash, all + [s], s, last);
      }
      NotOccurring(front, s);
    }
  }

  lemma {:induction false} NotOccurring(all: seq<Series>, s: Series)
    ensures Occurrences(all, s) == 0 <==> s !in all
  {
    if all != [] {
      NotOccurring(all[..|all| - 1], s);
      assert all == all[..|all| - 1] + [all[|all| - 1]];
    }
  }

  /** No series is keyed but one that occurred. */
  lemma {:induction false} TallyKeys(lib: Library, hash: string -> HashKey, all: seq<Series>, k: HashKey)
    ensures k in Tally(lib, hash, map[], all) <==> exists s | s in all :: KeyOf(lib, hash, s) == k
  {
    if all != [] {
      var front, last := all[..|all| - 1], all[|all| - 1];
      TallyKeys(lib, hash, front, k);
      assert all == front + [last];
      TallyNext(lib, hash, map[], front, last);
    }
  }
}
