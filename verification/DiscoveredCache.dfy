/** The cache of series not yet reported to the backend, and the batches cut from it. */
module DiscoveredCache {
  import opened Text
  import opened Fingerprint
  import opened Tracker

  /** A series as it is queued for sending: hex key, name, labels flattened to [k1, v1, k2, v2, ...]. */
  datatype Item = Item(hashKey: string, name: string, labels: seq<string>)

  /** A series on the wire. */
  datatype WireSeries = WireSeries(fingerprint: HashKey, metricName: string, labels: Pairs)

  function FlattenPairs(pairs: Pairs): seq<string> {
    if pairs == [] then [] else FlattenPairs(pairs[..|pairs| - 1]) + [pairs[|pairs| - 1].0, pairs[|pairs| - 1].1]
  }

  function PairUp(flat: seq<string>): Pairs {
    if |flat| < 2 then [] else [(flat[0], flat[1])] + PairUp(flat[2..])
  }

  function ItemOf(key: HashKey, entry: Entry): Item {
    Item(HexEncode(key), entry.metricName, FlattenPairs(entry.labels))
  }

  ghost function Min(a: int, b: int): int {
    if a < b then a else b
  }

  ghost predicate Distinct(keys: seq<HashKey>) {
    forall i, j | 0 <= i < j < |keys| :: keys[i] != keys[j]
  }

  class Cache {
    var data: Data

    constructor ()
      ensures data == map[]
    {
      data := map[];
    }

    method Add(key: HashKey, entry: Entry)
      modifies this
      ensures data == old(data)[key := entry]
    {
      data := data[key := entry];
    }

    /** Any `batchSize` entries, or all of them if there are fewer. */
    method GetBatch(batchSize: nat) returns (items: seq<Item>, keys: seq<HashKey>)
      ensures |items| == |keys| == Min(batchSize, |data|)
      ensures Distinct(keys)
      ensures forall i | 0 <= i < |keys| :: keys[i] in data && items[i] == ItemOf(keys[i], data[keys[i]])
    {
      var actualSize := if batchSize < |data| then batchSize else |data|;
      items, keys := [], [];
      var rest := data.Keys;
      while |keys| < actualSize
        invariant |items| == |keys| <= actualSize && rest <= data.Keys && |rest| == |data| - |keys|
        invariant Distinct(keys)
        invariant forall i | 0 <= i < |keys| ::
                    keys[i] in data && keys[i] !in rest && items[i] == ItemOf(keys[i], data[keys[i]])
      {
        var key :| key in rest;
        var labels := FlattenLabels(data[key].labels);
        items := items + [Item(HexEncode(key), data[key].metricName, labels)];
        keys := keys + [key];
        rest := rest - {key};
      }
    }

    method PurgeBatch(keys: seq<HashKey>)
      modifies this
      ensures data == old(data) - set k | k in keys
    {
      for i := 0 to |keys|
        invariant data == old(data) - set k | k in keys[..i]
      {
        data := data - {keys[i]};
        assert keys[..i + 1] == keys[..i] + [keys[i]];
      }
      assert keys[..|keys|] == keys;
    }
  }

  method FlattenLabels(pairs: Pairs) returns (flat: seq<string>)
    ensures flat == FlattenPairs(pairs)
  {
    flat := [];
    for i := 0 to |pairs|
      invariant flat == FlattenPairs(pairs[..i])
    {
      assert pairs[..i + 1][..i] == pairs[..i];
      flat := flat + [pairs[i].0, pairs[i].1];
    }
    assert pairs[..|pairs|] == pairs;
  }

  // ----- building the message -----

  function WireOf(item: Item): Option<WireSeries> {
    match HexDecode(item.hashKey)
    case None => None
    case Some(fp) => Some(WireSeries(fp, item.name, PairUp(item.labels)))
  }

  /** The series of the message: items whose key is not hexadecimal are skipped. */
  function WireSeriesOf(items: seq<Item>): seq<WireSeries> {
    if items == [] then []
    else
      WireSeriesOf(items[..|items| - 1]) +
      match WireOf(items[|items| - 1])
      case None => []
      case Some(w) => [w]
  }

  method BuildIndexCreate(items: seq<Item>) returns (series: seq<WireSeries>)
    ensures series == WireSeriesOf(items)
  {
    series := [];
    for i := 0 to |items|
      invariant series == WireSeriesOf(items[..i])
    {
      assert items[..i + 1][..i] == items[..i];
      var fp := HexDecode(items[i].hashKey);
      if fp.Some? {
        var labels := PairLabels(items[i].labels);
        series := series + [WireSeries(fp.value, items[i].name, labels)];
      }
    }
    assert items[..|items|] == items;
  }

  method PairLabels(flat: seq<string>) returns (labels: Pairs)
    ensures labels == PairUp(flat)
  {
    labels := [];
    var i := 0;
    while i + 1 < |flat|
      invariant 0 <= i <= |flat|
      invariant labels + PairUp(flat[i..]) == PairUp(flat)
      decreases |flat| - i
    {
      assert flat[i..][2..] == flat[i + 2..];
      labels := labels + [(flat[i], flat[i + 1])];
      i := i + 2;
    }
  }

  lemma {:induction false} PairUpAppend(flat: seq<string>, k: string, v: string)
    requires |flat| % 2 == 0
    ensures PairUp(flat + [k, v]) == PairUp(flat) + [(k, v)]
  {
    if flat == [] {
      assert flat + [k, v] == [k, v] && [k, v][2..] == [];
    } else {
      PairUpAppend(flat[2..], k, v);
      assert (flat + [k, v])[2..] == flat[2..] + [k, v];
    }
  }

  lemma {:induction false} FlattenPairsBack(pairs: Pairs)
    ensures |FlattenPairs(pairs)| % 2 == 0 && PairUp(FlattenPairs(pairs)) == pairs
  {
    if pairs != [] {
      var front, last := pairs[..|pairs| - 1], pairs[|pairs| - 1];
      FlattenPairsBack(front);
      PairUpAppend(FlattenPairs(front), last.0, last.1);
      assert pairs == front + [last];
    }
  }

  /** Every queued series is carried: the message holds each key of the batch, in order, with its entry's name and labels,
      and nothing is skipped. */
  lemma {:induction false} MessageCarriesBatch(data: Data, items: seq<Item>, keys: seq<HashKey>)
    requires |items| == |keys|
    requires forall i | 0 <= i < |keys| :: keys[i] in data && items[i] == ItemOf(keys[i], data[keys[i]])
    ensures |WireSeriesOf(items)| == |keys|
    ensures forall i | 0 <= i < |keys| ::
              WireSeriesOf(items)[i] == WireSeries(keys[i], data[keys[i]].metricName, data[keys[i]].labels)
  {
    if items != [] {
      var n := |items| - 1;
      MessageCarriesBatch(data, items[..n], keys[..n]);
      HexRoundTrip(keys[n]);
      FlattenPairsBack(data[keys[n]].labels);
    }
  }

  // ----- draining the cache -----

  const DISCOVERED_BATCH_SIZE := 5000

  /** One acknowledged round without arrivals: some full batch, or the whole rest, is purged. */
  ghost predicate Round(before: set<HashKey>, after: set<HashKey>) {
    exists batch: set<HashKey> ::
      batch <= before && |batch| == Min(DISCOVERED_BATCH_SIZE, |before|) && after == before - batch
  }

  /** One round of the processor: a batch is taken, sent, and purged once it is acknowledged. The message holds exactly
      the series that are purged. */
  method RunRound(cache: Cache) returns (series: seq<WireSeries>)
    modifies cache
    ensures Round(old(cache.data.Keys), cache.data.Keys)
    ensures |series| == Min(DISCOVERED_BATCH_SIZE, |old(cache.data)|)
    ensures forall k :: k in old(cache.data) && k !in cache.data <==> k in Fingerprints(series)
    ensures forall k | k in cache.data :: k in old(cache.data) && cache.data[k] == old(cache.data)[k]
    ensures forall w | w in series :: w.fingerprint in old(cache.data) && Carries(w, old(cache.data)[w.fingerprint])
  {
    var items, keys := cache.GetBatch(DISCOVERED_BATCH_SIZE);
    series := BuildIndexCreate(items);
    ghost var data := cache.data;
    MessageCarriesBatch(data, items, keys);
    cache.PurgeBatch(keys);
    BatchIsRound(data, cache.data, keys);
    SeriesKeys(data, series, keys);
  }

  ghost function Fingerprints(series: seq<WireSeries>): set<HashKey> {
    set w | w in series :: w.fingerprint
  }

  predicate Carries(w: WireSeries, entry: Entry) {
    w.metricName == entry.metricName && w.labels == entry.labels
  }

  lemma {:induction false} SeriesKeys(data: Data, series: seq<WireSeries>, keys: seq<HashKey>)
    requires |series| == |keys|
    requires forall i | 0 <= i < |keys| ::
               keys[i] in data && series[i] == WireSeries(keys[i], data[keys[i]].metricName, data[keys[i]].labels)
    ensures Fingerprints(series) == set k | k in keys
    ensures forall w | w in series :: w.fingerprint in data && Carries(w, data[w.fingerprint])
  {
    forall k | k in keys ensures k in Fingerprints(series) {
      var i :| 0 <= i < |keys| && keys[i] == k;
      assert series[i] in series;
    }
  }

  lemma {:induction false} DistinctSize(keys: seq<HashKey>)
    requires Distinct(keys)
    ensures |set k | k in keys| == |keys|
  {
    if keys != [] {
      var front, last := keys[..|keys| - 1], keys[|keys| - 1];
      DistinctSize(front);
      assert keys == front + [last];
      assert (set k | k in keys) == (set k | k in front) + {last};
    }
  }

  lemma {:induction false} BatchIsRound(before: Data, after: Data, keys: seq<HashKey>)
    requires Distinct(keys) && |keys| == Min(DISCOVERED_BATCH_SIZE, |before|)
    requires (forall k | k in keys :: k in before) && after == before - set k | k in keys
    ensures Round(before.Keys, after.Keys)
  {
    var batch := set k | k in keys;
    DistinctSize(keys);
    assert batch <= before.Keys && after.Keys == before.Keys - batch;
    assert |before.Keys| == |before|;
  }

  lemma {:induction false} RoundShrinks(before: set<HashKey>, after: set<HashKey>)
    requires Round(before, after)
    ensures |after| == |before| - Min(DISCOVERED_BATCH_SIZE, |before|)
  {
    var batch :| batch <= before && |batch| == Min(DISCOVERED_BATCH_SIZE, |before|) && after == before - batch;
    assert before == batch + after && batch !! after;
  }

  /** With no arrivals and every round acknowledged, n queued series are gone after ceil(n / 5000) rounds, not sooner. */
  lemma {:induction false} DrainsInCeilRounds(states: seq<set<HashKey>>, i: nat)
    requires i < |states| && forall j | 0 <= j < |states| - 1 :: Round(states[j], states[j + 1])
    ensures var n := |states[0]|;
            && |states[i]| == n - Min(n, i * 5000)
            && (states[i] == {} <==> i >= (n + 4999) / 5000)
  {
    if i > 0 {
      DrainsInCeilRounds(states, i - 1);
      RoundShrinks(states[i - 1], states[i]);
    }
  }
}
