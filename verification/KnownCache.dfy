/** The cache of known series: one mutable entry per key, each with its ring of hourly sample counts. */
module KnownCache {
  import opened Text
  import opened SampleRing
  import opened Tracker

  /** What an entry says, as a value. */
  datatype Known = Known(metricName: string, lastUpdate: int, lastSync: int, ring: Ring)

  type View = map<HashKey, Known>

  class KnownEntry {
    const metricName: string
    var lastUpdate: int
    var lastSync: int
    var lastHour: int
    var head: int
    const samples: array<int>

    ghost predicate Valid()
      reads this, samples
    {
      samples.Length == HOURS_LOG && head == lastHour % HOURS_LOG
    }

    ghost function RingValue(): Ring
      reads this, samples
    {
      Ring(lastHour, head, samples[..])
    }

    ghost function Value(): Known
      reads this, samples
    {
      Known(metricName, lastUpdate, lastSync, RingValue())
    }

    constructor (metricName: string, now: nat, n: int)
      ensures Valid() && fresh(samples)
      ensures Value() == Known(metricName, now, 0, Created(HourOf(now), n))
    {
      var hour := now / 3600;
      this.metricName, lastUpdate, lastSync, lastHour, head := metricName, now, 0, hour, hour % HOURS_LOG;
      var slots := new int[HOURS_LOG](i => 0);
      slots[hour % HOURS_LOG] := n;
      samples := slots;
    }

    /** One hour forward: the head moves on and its slot is emptied. */
    method StepHour(ghost hour: int)
      requires samples.Length == HOURS_LOG && head == hour % HOURS_LOG
      modifies this`head, samples
      ensures head == (hour + 1) % HOURS_LOG
      ensures forall i | 0 <= i < HOURS_LOG :: samples[i] == if i == head then 0 else old(samples[i])
    {
      head := (head + 1) % HOURS_LOG;
      samples[head] := 0;
    }

    method AdvanceRingBuffer(currentHour: int)
      requires Valid()
      modifies this`lastHour, this`head, samples
      ensures Valid() && RingValue() == Advance(old(RingValue()), currentHour)
    {
      if currentHour <= lastHour {
        return;
      }
      var hoursPassed := currentHour - lastHour;
      ghost var was := samples[..];
      if hoursPassed >= HOURS_LOG {
        for i := 0 to samples.Length
          invariant lastHour == old(lastHour) && forall j | 0 <= j < i :: samples[j] == 0
        {
          samples[i] := 0;
        }
        head := currentHour % HOURS_LOG;
        forall i | 0 <= i < HOURS_LOG ensures SlotHour(currentHour, i) > lastHour {
          SlotUnique(SlotHour(currentHour, i), currentHour, i);
        }
      } else {
        for i := 0 to hoursPassed
          invariant samples.Length == HOURS_LOG && head == (lastHour + i) % HOURS_LOG
          invariant lastHour == old(lastHour)
          invariant forall j | 0 <= j < HOURS_LOG :: samples[j] == if SlotHour(lastHour + i, j) > lastHour then 0 else was[j]
        {
          StepHour(lastHour + i);
          forall j | 0 <= j < HOURS_LOG
            ensures samples[j] == if SlotHour(lastHour + (i + 1), j) > lastHour then 0 else was[j]
          {
            SlotStep(lastHour + i, j);
          }
        }
      }
      lastHour := currentHour;
    }

    method SumSamples() returns (total: int)
      requires Valid()
      ensures total == Sum(samples[..])
    {
      total := 0;
      for i := 0 to samples.Length
        invariant total == Sum(samples[..i])
      {
        assert samples[..i + 1][..i] == samples[..i];
        total := total + samples[i];
      }
      assert samples[..samples.Length] == samples[..];
    }

    method AddSamples(now: nat, n: int)
      requires Valid()
      modifies this, samples
      ensures Valid()
      ensures Value() == old(Value()).(lastUpdate := now, ring := Record(old(RingValue()), HourOf(now), n))
    {
      AdvanceRingBuffer(now / 3600);
      samples[head] := samples[head] + n;
      lastUpdate := now;
    }
  }

  // ----- what the operations do to the whole cache -----

  function Updated(view: View, key: HashKey, metricName: string, n: int, now: nat): View
    requires forall k | k in view :: Shaped(view[k].ring)
  {
    view[key := if key in view then view[key].(lastUpdate := now, ring := Record(view[key].ring, HourOf(now), n))
                else Known(metricName, now, 0, Created(HourOf(now), n))]
  }

  function Deleted(view: View, keys: seq<HashKey>): View {
    view - set k | k in keys
  }

  function MarkedSynced(view: View, keys: seq<HashKey>, now: int): View {
    map k | k in view :: if k in keys then view[k].(lastSync := now) else view[k]
  }

  /** A batch read brings the entries it visits forward to the current hour and changes nothing else. */
  ghost predicate Visited(before: View, after: View, hour: int, visited: set<HashKey>) {
    && before.Keys == after.Keys
    && forall k | k in before ::
         |before[k].ring.samples| == HOURS_LOG &&
         after[k] == if k in visited then before[k].(ring := Advance(before[k].ring, hour)) else before[k]
  }

  lemma {:induction false} VisitedOneMore(before: View, after: View, hour: int, visited: set<HashKey>, key: HashKey)
    requires Visited(before, after, hour, visited) && key in before && key !in visited
    ensures after[key] == before[key]
    ensures Visited(before, after[key := after[key].(ring := Advance(after[key].ring, hour))], hour, visited + {key})
  {
  }

  function TotalAt(known: Known, hour: int): int
    requires |known.ring.samples| == HOURS_LOG
  {
    Sum(Advance(known.ring, hour).samples)
  }

  datatype ActiveItem = ActiveItem(key: HashKey, totalSamples: int, lastUpdateMs: int)

  /** Due for a sync, and with samples in its window. */
  ghost predicate Due(known: Known, olderThan: int, hour: int) {
    |known.ring.samples| == HOURS_LOG && known.lastSync < olderThan && TotalAt(known, hour) != 0
  }

  ghost function DueAmong(view: View, keys: set<HashKey>, olderThan: int, hour: int): set<HashKey> {
    set k | k in keys && k in view && Due(view[k], olderThan, hour)
  }

  ghost predicate Reports(view: View, hour: int, item: ActiveItem) {
    && item.key in view && |view[item.key].ring.samples| == HOURS_LOG
    && item.totalSamples == TotalAt(view[item.key], hour)
    && item.lastUpdateMs == view[item.key].lastUpdate * 1000
  }

  /** The items report each of `keys` once. */
  ghost predicate ReportsEach(view: View, hour: int, items: seq<ActiveItem>, keys: set<HashKey>) {
    && (forall i, j | 0 <= i < j < |items| :: items[i].key != items[j].key)
    && (forall i | 0 <= i < |items| :: items[i].key in keys && Reports(view, hour, items[i]))
    && (forall k | k in keys :: exists i | 0 <= i < |items| :: items[i].key == k)
  }

  lemma {:induction false} ReportsOneMore(view: View, hour: int, items: seq<ActiveItem>, keys: set<HashKey>,
                                          item: ActiveItem)
    requires ReportsEach(view, hour, items, keys) && Reports(view, hour, item) && item.key !in keys
    ensures ReportsEach(view, hour, items + [item], keys + {item.key})
  {
    var more := items + [item];
    forall k | k in keys + {item.key} ensures exists i | 0 <= i < |more| :: more[i].key == k {
      if k == item.key {
        assert more[|items|].key == k;
      } else {
        var i :| 0 <= i < |items| && items[i].key == k;
        assert more[i].key == k;
      }
    }
  }

  /** Where the search for active entries stands after visiting some of them. */
  ghost predicate ActiveSoFar(view: View, current: View, hour: int, olderThan: int, visited: set<HashKey>,
                              items: seq<ActiveItem>)
  {
    Visited(view, current, hour, visited) && ReportsEach(view, hour, items, DueAmong(view, visited, olderThan, hour))
  }

  lemma {:induction false} ActiveStart(view: View, hour: int, olderThan: int)
    requires forall k | k in view :: |view[k].ring.samples| == HOURS_LOG
    ensures ActiveSoFar(view, view, hour, olderThan, {}, [])
  {
    assert DueAmong(view, {}, olderThan, hour) == {};
  }

  lemma {:induction false} ActiveStep(view: View, current: View, hour: int, olderThan: int, visited: set<HashKey>,
                                      items: seq<ActiveItem>, key: HashKey)
    requires ActiveSoFar(view, current, hour, olderThan, visited, items) && key in view && key !in visited
    ensures current[key] == view[key]
    ensures var known := view[key];
            var next := current[key := known.(ring := Advance(known.ring, hour))];
            var item := ActiveItem(key, TotalAt(known, hour), known.lastUpdate * 1000);
            var more := if Due(known, olderThan, hour) then [item] else [];
            ActiveSoFar(view, next, hour, olderThan, visited + {key}, items + more)
  {
    VisitedOneMore(view, current, hour, visited, key);
    var due := DueAmong(view, visited, olderThan, hour);
    if Due(view[key], olderThan, hour) {
      ReportsOneMore(view, hour, items, due, ActiveItem(key, TotalAt(view[key], hour), view[key].lastUpdate * 1000));
      assert DueAmong(view, visited + {key}, olderThan, hour) == due + {key};
    } else {
      assert DueAmong(view, visited + {key}, olderThan, hour) == due;
      assert items + [] == items;
    }
  }

  /** Where the search for inactive entries stands after visiting some of them. */
  ghost predicate InactiveSoFar(view: View, current: View, hour: int, visited: set<HashKey>, keys: seq<HashKey>) {
    && Visited(view, current, hour, visited) && visited <= view.Keys
    && (forall i, j | 0 <= i < j < |keys| :: keys[i] != keys[j])
    && (forall k :: k in keys <==> k in visited && TotalAt(view[k], hour) == 0)
  }

  lemma {:induction false} InactiveStep(view: View, current: View, hour: int, visited: set<HashKey>,
                                        keys: seq<HashKey>, key: HashKey)
    requires InactiveSoFar(view, current, hour, visited, keys) && key in view && key !in visited
    ensures current[key] == view[key]
    ensures var known := view[key];
            var next := current[key := known.(ring := Advance(known.ring, hour))];
            InactiveSoFar(view, next, hour, visited + {key}, keys + if TotalAt(known, hour) == 0 then [key] else [])
  {
    VisitedOneMore(view, current, hour, visited, key);
  }

  class Cache {
    var data: map<HashKey, KnownEntry>

    ghost function Repr(): set<object>
      reads this
    {
      (set k | k in data :: data[k]) + (set k | k in data :: data[k].samples)
    }

    ghost predicate Valid()
      reads this, Repr()
    {
      && this !in Repr()
      && (forall k | k in data :: data[k].Valid())
      && (forall k, l | k in data && l in data && k != l :: data[k] != data[l] && data[k].samples != data[l].samples)
    }

    ghost function Contents(): View
      reads this, Repr()
    {
      map k | k in data :: data[k].Value()
    }

    /** A change to one entry is a change to one value. */
    twostate lemma OneEntryChanged(key: HashKey)
      requires old(Valid()) && data == old(data) && key in data && key in old(data)
      requires data[key].Valid() && data[key].samples == old(data[key].samples)
      requires forall k | k in data && k != key :: unchanged(data[k]) && unchanged(data[k].samples)
      ensures Valid() && Contents() == old(Contents())[key := data[key].Value()]
    {
      forall k | k in data && k != key ensures data[k].Value() == old(data[k].Value()) && data[k].Valid() {
      }
    }

    constructor ()
      ensures Valid() && Contents() == map[] && fresh(Repr())
    {
      data := map[];
    }

    method IsTimeseriesKnown(key: HashKey) returns (known: bool)
      ensures known <==> key in Contents()
    {
      known := key in data;
    }

    method UpdateTimeseries(key: HashKey, metricName: string, n: int, now: nat)
      requires Valid()
      modifies this, Repr()
      ensures Valid() && fresh(Repr() - old(Repr()))
      ensures Contents() == Updated(old(Contents()), key, metricName, n, now)
    {
      if key !in data {
        CreateEntry(key, metricName, n, now);
      } else {
        AddToEntry(key, n, now);
      }
    }

    method CreateEntry(key: HashKey, metricName: string, n: int, now: nat)
      requires Valid() && key !in data
      modifies this
      ensures Valid() && fresh(Repr() - old(Repr()))
      ensures Contents() == old(Contents())[key := Known(metricName, now, 0, Created(HourOf(now), n))]
    {
      var entry := new KnownEntry(metricName, now, n);
      data := data[key := entry];
    }

    method AddToEntry(key: HashKey, n: int, now: nat)
      requires Valid() && key in data
      modifies data[key], data[key].samples
      ensures Valid()
      ensures var was := old(Contents())[key];
              Contents() == old(Contents())[key := was.(lastUpdate := now, ring := Record(was.ring, HourOf(now), n))]
    {
      data[key].AddSamples(now, n);
      OneEntryChanged(key);
    }

    method DeleteBatch(keys: seq<HashKey>)
      requires Valid()
      modifies this
      ensures Valid() && Repr() <= old(Repr()) && Contents() == Deleted(old(Contents()), keys)
    {
      for i := 0 to |keys|
        invariant data == old(data) - set k | k in keys[..i]
      {
        data := data - {keys[i]};
        assert keys[..i + 1] == keys[..i] + [keys[i]];
      }
      assert keys[..|keys|] == keys;
    }
  
    method MarkSynced(key: HashKey, now: int)
      requires Valid()
      modifies Repr()
      ensures Valid() && Contents() == MarkedSynced(old(Contents()), [key], now)
    {
      if key in data {
        data[key].lastSync := now;
      }
    }

    method MarkSyncedBatch(keys: seq<HashKey>, now: int)
      requires Valid()
      modifies Repr()
      ensures Valid() && Contents() == MarkedSynced(old(Contents()), keys, now)
    {
      for i := 0 to |keys|
        invariant Valid() && Contents() == MarkedSynced(old(Contents()), keys[..i], now)
      {
        MarkSynced(keys[i], now);
        assert keys[..i + 1] == keys[..i] + [keys[i]];
      }
      assert keys[..|keys|] == keys;
    }

    /** Brings one entry forward to the current hour and adds up its samples. */
    method Visit(key: HashKey, hour: int) returns (total: int, known: Known)
      requires Valid() && key in data
      modifies data[key], data[key].samples
      ensures Valid() && known == old(Contents())[key] && total == TotalAt(known, hour)
      ensures Contents() == old(Contents())[key := known.(ring := Advance(known.ring, hour))]
    {
      var entry := data[key];
      known := Known(entry.metricName, entry.lastUpdate, entry.lastSync, Ring(entry.lastHour, entry.head, entry.samples[..]));
      entry.AdvanceRingBuffer(hour);
      OneEntryChanged(key);
      total := entry.SumSamples();
    }

    method VisitActive(key: HashKey, hour: int, olderThan: int, items: seq<ActiveItem>, ghost view: View,
                       ghost visited: set<HashKey>)
      returns (more: seq<ActiveItem>)
      requires Valid() && key in data && key !in visited
      requires ActiveSoFar(view, Contents(), hour, olderThan, visited, items)
      modifies data[key], data[key].samples
      ensures Valid() && ActiveSoFar(view, Contents(), hour, olderThan, visited + {key}, more)
      ensures |more| <= |items| + 1
    {
      ActiveStep(view, Contents(), hour, olderThan, visited, items, key);
      var total, known := Visit(key, hour);
      if known.lastSync < olderThan && total != 0 {
        more := items + [ActiveItem(key, total, known.lastUpdate * 1000)];
      } else {
        more := items;
        assert items + [] == items;
      }
    }

    /** Visits entries in any order until the batch is full or none is left. */
    method ScanActive(hour: int, olderThan: int, batchSize: int)
      returns (items: seq<ActiveItem>, ghost visited: set<HashKey>)
      requires Valid() && batchSize > 0
      modifies Repr()
      ensures Valid() && ActiveSoFar(old(Contents()), Contents(), hour, olderThan, visited, items)
      ensures |items| <= batchSize && (|items| < batchSize ==> visited == old(Contents()).Keys)
    {
      items, visited := [], {};
      ghost var view := Contents();
      ActiveStart(view, hour, olderThan);
      var rest := data.Keys;
      while rest != {} && |items| < batchSize
        invariant Valid() && data == old(data) && rest <= data.Keys && |items| <= batchSize
        invariant visited == data.Keys - rest && ActiveSoFar(view, Contents(), hour, olderThan, visited, items)
        decreases rest
      {
        var key :| key in rest;
        items := VisitActive(key, hour, olderThan, items, view, visited);
        rest, visited := rest - {key}, visited + {key};
      }
    }

    /** Up to `batchSize` entries that are due for a sync and have samples in their window. */
    method GetActiveTimeseriesBatch(olderThan: int, batchSize: int, now: nat)
      returns (items: seq<ActiveItem>, ghost visited: set<HashKey>)
      requires Valid()
      modifies Repr()
      ensures Valid() && Visited(old(Contents()), Contents(), HourOf(now), visited)
      ensures |items| <= if batchSize <= 0 then 0 else batchSize
      ensures ReportsEach(old(Contents()), HourOf(now), items,
                          DueAmong(old(Contents()), visited, olderThan, HourOf(now)))
      ensures |items| < batchSize ==> visited == old(Contents()).Keys
    {
      if batchSize <= 0 {
        ActiveStart(Contents(), HourOf(now), olderThan);
        return [], {};
      }
      items, visited := ScanActive(now / 3600, olderThan, batchSize);
    }

    /** Up to `batchSize` keys without a sample in their window. */
    method GetInactiveTimeseriesBatch(batchSize: int, now: nat) returns (keys: seq<HashKey>,
                                      ghost visited: set<HashKey>)
      requires Valid()
      modifies Repr()
      ensures Valid() && Visited(old(Contents()), Contents(), HourOf(now), visited)
      ensures |keys| <= if batchSize <= 0 then 0 else batchSize
      ensures forall i, j | 0 <= i < j < |keys| :: keys[i] != keys[j]
      ensures forall k | k in keys :: k in old(Contents()) && TotalAt(old(Contents())[k], HourOf(now)) == 0
      ensures |keys| < batchSize ==>
                && visited == old(Contents()).Keys
                && forall k | k in old(Contents()) && TotalAt(old(Contents())[k], HourOf(now)) == 0 :: k in keys
    {
      keys, visited := [], {};
      if batchSize <= 0 {
        return;
      }
      var hour := now / 3600;
      ghost var view := Contents();
      var rest := data.Keys;
      while rest != {} && |keys| < batchSize
        invariant Valid() && data == old(data) && rest <= data.Keys && |keys| <= batchSize
        invariant visited == data.Keys - rest && InactiveSoFar(view, Contents(), hour, visited, keys)
        decreases rest
      {
        var key :| key in rest;
        InactiveStep(view, Contents(), hour, visited, keys, key);
        var total, _ := Visit(key, hour);
        rest, visited := rest - {key}, visited + {key};
        keys := keys + if total == 0 then [key] else [];
      }
    }
  }
}
