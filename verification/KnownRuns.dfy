/** What any sequence of cache operations leaves in the known cache. */
module KnownRuns {
  import opened Text
  import opened SampleRing
  import opened Tracker
  import opened KnownCache

  /** The operations of the cache, each one critical section. A read carries the entries it visited. */
  datatype Op =
    | Receive(key: HashKey, metricName: string, n: int, now: nat)
    | ReadBatch(hour: int, visited: set<HashKey>)
    | Sync(synced: seq<HashKey>, at: int)
    | Delete(deleted: seq<HashKey>)

  ghost predicate AllShaped(view: View) {
    forall k | k in view :: Shaped(view[k].ring)
  }

  function Apply(view: View, op: Op): View
    requires AllShaped(view)
  {
    match op
    case Receive(key, name, n, now) => Updated(view, key, name, n, now)
    case ReadBatch(hour, visited) =>
      map k | k in view :: if k in visited then view[k].(ring := Advance(view[k].ring, hour)) else view[k]
    case Sync(keys, at) => MarkedSynced(view, keys, at)
    case Delete(keys) => Deleted(view, keys)
  }

  /** A visit as the batch reads specify it is the read operation. */
  lemma {:induction false} VisitedIsRead(before: View, after: View, hour: int, visited: set<HashKey>)
    requires AllShaped(before)
    ensures Visited(before, after, hour, visited) <==> after == Apply(before, ReadBatch(hour, visited))
  {
  }

  function Run(ops: seq<Op>): (view: View)
    ensures AllShaped(view)
  {
    if ops == [] then map[] else Apply(Run(ops[..|ops| - 1]), ops[|ops| - 1])
  }

  /** Non-negative clock readings. */
  ghost predicate ClockSane(ops: seq<Op>) {
    forall i | 0 <= i < |ops| && ops[i].ReadBatch? :: ops[i].hour >= 0
  }

  /** What an operation adds to the events of a key: [] when the key is not in the cache. */
  function EventsAfter(before: seq<Event>, op: Op, k: HashKey): seq<Event>
    requires op.ReadBatch? ==> op.hour >= 0
  {
    match op
    case Receive(key, _, n, now) => if key == k then before + [Event.Update(now, n)] else before
    case ReadBatch(hour, visited) => if before != [] && k in visited then before + [Event.Visit(hour * 3600)] else before
    case Sync(_, _) => before
    case Delete(keys) => if k in keys then [] else before
  }

  /** What happened to one key since it was last created. */
  function EventsFor(ops: seq<Op>, k: HashKey): seq<Event>
    requires ClockSane(ops)
  {
    if ops == [] then [] else EventsAfter(EventsFor(ops[..|ops| - 1], k), ops[|ops| - 1], k)
  }

  /** The key is known exactly when it has events, and then its ring is the one they build. */
  ghost predicate Follows(view: View, events: seq<Event>, k: HashKey) {
    && (k in view <==> events != [])
    && (events != [] ==> events[0].Update? && view[k].ring == RingAfter(events))
  }

  lemma {:induction false} StepFollows(view: View, events: seq<Event>, op: Op, k: HashKey)
    requires AllShaped(view) && Follows(view, events, k) && (op.ReadBatch? ==> op.hour >= 0)
    ensures Follows(Apply(view, op), EventsAfter(events, op, k), k)
  {
    var more := EventsAfter(events, op, k);
    if |more| == |events| + 1 {
      assert more[..|events|] == events;
    }
  }

  /** Over any run a key is known exactly when it was received since its last deletion, and then its ring is the one
      those events build. */
  lemma {:induction false} RunFollowsEvents(ops: seq<Op>, k: HashKey)
    requires ClockSane(ops)
    ensures Follows(Run(ops), EventsFor(ops, k), k)
  {
    if ops != [] {
      var front := ops[..|ops| - 1];
      RunFollowsEvents(front, k);
      StepFollows(Run(front), EventsFor(front, k), ops[|ops| - 1], k);
    }
  }

  // ----- the other fields of an entry -----

  /** When the key was last received, if it was since its last deletion. */
  function LastReceived(ops: seq<Op>, k: HashKey): Option<nat> {
    if ops == [] then None
    else
      var front := ops[..|ops| - 1];
      match ops[|ops| - 1]
      case Receive(key, _, _, now) => if key == k then Some(now) else LastReceived(front, k)
      case Delete(keys) => if k in keys then None else LastReceived(front, k)
      case _ => LastReceived(front, k)
  }

  /** When the key was last marked synced since it came in, 0 if it was not. */
  function LastSynced(ops: seq<Op>, k: HashKey): int {
    if ops == [] || LastReceived(ops, k).None? then 0
    else
      var front := ops[..|ops| - 1];
      match ops[|ops| - 1]
      case Sync(keys, at) => if k in keys then at else LastSynced(front, k)
      case _ => LastSynced(front, k)
  }

  /** The name the key came in with. */
  function FirstName(ops: seq<Op>, k: HashKey): string {
    if ops == [] then ""
    else
      var front := ops[..|ops| - 1];
      match ops[|ops| - 1]
      case Receive(key, name, _, _) =>
        if key == k && LastReceived(front, k).None? then name else FirstName(front, k)
      case _ => FirstName(front, k)
  }

  /** Over any run an entry carries the name it came in with, the time it was last received and the time it was last
      synced. */
  lemma {:induction false} EntryFollowsRun(ops: seq<Op>, k: HashKey)
    ensures k in Run(ops) <==> LastReceived(ops, k).Some?
    ensures k in Run(ops) ==>
              && Run(ops)[k].lastUpdate == LastReceived(ops, k).value
              && Run(ops)[k].lastSync == LastSynced(ops, k)
              && Run(ops)[k].metricName == FirstName(ops, k)
  {
    if ops != [] {
      EntryFollowsRun(ops[..|ops| - 1], k);
    }
  }

  /** Over any run, at any times and even if the clock is set back, the total a batch read reports for a key is the sum
      of the samples charged to the eight hours that end now or, if later, with the latest hour seen. */
  lemma {:induction false} TotalIsWindow(ops: seq<Op>, k: HashKey, now: nat)
    requires ClockSane(ops) && k in Run(ops)
    ensures var events := EventsFor(ops, k) + [Event.Visit(now)];
            && EventsFor(ops, k) != []
            && TotalAt(Run(ops)[k], HourOf(now)) == WindowSum(HistoryOf(events), LatestHour(events))
  {
    RunFollowsEvents(ops, k);
    var events := EventsFor(ops, k) + [Event.Visit(now)];
    assert events[..|events| - 1] == EventsFor(ops, k);
    RingRefinesHistory(events);
  }

  lemma {:induction false} CountsStayNatural(ops: seq<Op>, k: HashKey)
    requires ClockSane(ops) && forall i | 0 <= i < |ops| && ops[i].Receive? :: ops[i].n >= 0
    ensures forall i | 0 <= i < |EventsFor(ops, k)| && EventsFor(ops, k)[i].Update? :: EventsFor(ops, k)[i].n >= 0
  {
    if ops != [] {
      CountsStayNatural(ops[..|ops| - 1], k);
    }
  }

  lemma {:induction false} HistoryNatural(events: seq<Event>)
    requires forall i | 0 <= i < |events| && events[i].Update? :: events[i].n >= 0
    ensures forall i | 0 <= i < |HistoryOf(events)| :: HistoryOf(events)[i].n >= 0
  {
    if events != [] {
      HistoryNatural(events[..|events| - 1]);
    }
  }

  /** A key reported inactive has no sample left in its window. */
  lemma {:induction false} InactiveHasNoSample(ops: seq<Op>, k: HashKey, now: nat)
    requires ClockSane(ops) && forall i | 0 <= i < |ops| && ops[i].Receive? :: ops[i].n >= 0
    requires k in Run(ops) && TotalAt(Run(ops)[k], HourOf(now)) == 0
    ensures var events := EventsFor(ops, k) + [Event.Visit(now)];
            var last := LatestHour(events);
            forall i | 0 <= i < |HistoryOf(events)| && last - 8 < HistoryOf(events)[i].hour <= last ::
              HistoryOf(events)[i].n == 0
  {
    var events := EventsFor(ops, k) + [Event.Visit(now)];
    TotalIsWindow(ops, k, now);
    CountsStayNatural(ops, k);
    assert forall i | 0 <= i < |events| - 1 :: events[i] == EventsFor(ops, k)[i];
    HistoryNatural(events);
    InactiveMeansNoSample(HistoryOf(events), LatestHour(events));
  }

  /** A key is selected for an update exactly when it was not synced since the threshold and its window is not empty. */
  lemma {:induction false} DueIff(ops: seq<Op>, k: HashKey, now: nat, olderThan: int)
    requires ClockSane(ops) && k in Run(ops)
    ensures var events := EventsFor(ops, k) + [Event.Visit(now)];
            Due(Run(ops)[k], olderThan, now / 3600) <==>
              LastSynced(ops, k) < olderThan && WindowSum(HistoryOf(events), LatestHour(events)) != 0
  {
    EntryFollowsRun(ops, k);
    TotalIsWindow(ops, k, now);
  }

  /** The processor selects active keys and then inactive keys. Within one hour no key is in both selections, although
      the first read brought rings forward before the second looked at them. */
  lemma {:induction false} ActiveThenInactiveDisjoint(view: View, olderThan: int, hour: int, visited: set<HashKey>,
                                                      k: HashKey)
    requires AllShaped(view) && k in view && Due(view[k], olderThan, hour)
    ensures var after := Apply(view, ReadBatch(hour, visited));
            k in after && TotalAt(after[k], hour) == TotalAt(view[k], hour) != 0
  {
    assert Advance(Advance(view[k].ring, hour), hour) == Advance(view[k].ring, hour);
  }

  // ----- how soon a key is synced again -----

  ghost predicate Keeps(ops: seq<Op>, k: HashKey) {
    forall i | 0 <= i < |ops| && ops[i].Delete? :: k !in ops[i].deleted
  }

  /** Every sync of the run happens at `t` or later. */
  ghost predicate SyncsFrom(ops: seq<Op>, t: int) {
    forall i | 0 <= i < |ops| && ops[i].Sync? :: ops[i].at >= t
  }

  lemma {:induction false} SyncTimeKept(before: seq<Op>, after: seq<Op>, k: HashKey, t: int)
    requires k in Run(before) && Run(before)[k].lastSync >= t
    requires Keeps(after, k) && SyncsFrom(after, t)
    ensures k in Run(before + after) && Run(before + after)[k].lastSync >= t
  {
    if after == [] {
      assert before + after == before;
    } else {
      var front := after[..|after| - 1];
      assert forall i | 0 <= i < |front| :: front[i] == after[i];
      SyncTimeKept(before, front, k, t);
      assert (before + after)[..|before + after| - 1] == before + front;
    }
  }

  const SYNC_THRESHOLD_SECONDS := 60

  /** A key marked synced at time t is not due again until more than sixty seconds later, whatever happens in between
      short of deleting it. The threshold is computed from a clock reading no later than the selection. */
  lemma {:induction false} SyncedNotSoonDue(before: seq<Op>, keys: seq<HashKey>, t: int, after: seq<Op>, k: HashKey,
                                            now: nat, olderThan: int)
    requires k in Run(before) && k in keys
    requires Keeps(after, k) && SyncsFrom(after, t)
    requires olderThan <= now - SYNC_THRESHOLD_SECONDS
    ensures var view := Run(before + [Sync(keys, t)] + after);
            k in view && (Due(view[k], olderThan, HourOf(now)) ==> now > t + 60)
  {
    var synced := before + [Sync(keys, t)];
    assert synced[..|synced| - 1] == before;
    SyncTimeKept(synced, after, k, t);
  }
}
