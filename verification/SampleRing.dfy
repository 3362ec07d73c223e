/** Hourly sample counts: an eight-slot ring, proved to hold the last eight hours of an unbounded history. */
module SampleRing {

  const HOURS_LOG := 8

  datatype Ring = Ring(lastHour: int, head: int, samples: seq<int>)

  ghost predicate Shaped(r: Ring) {
    |r.samples| == HOURS_LOG && r.head == r.lastHour % HOURS_LOG
  }

  /** The hour slot `i` stands for: the latest hour up to `lastHour` that is `i` modulo eight. */
  function SlotHour(lastHour: int, i: int): int {
    lastHour - (lastHour - i) % HOURS_LOG
  }

  function Created(hour: int, n: int): Ring {
    Ring(hour, hour % HOURS_LOG, seq(HOURS_LOG, i => if i == hour % HOURS_LOG then n else 0))
  }

  /** The ring brought forward to `hour`: slots that now stand for an hour not seen before are empty. */
  function Advance(r: Ring, hour: int): Ring
    requires |r.samples| == HOURS_LOG
  {
    if hour <= r.lastHour then r
    else
      Ring(hour, hour % HOURS_LOG,
           seq(HOURS_LOG, i requires 0 <= i < HOURS_LOG => if SlotHour(hour, i) > r.lastHour then 0 else r.samples[i]))
  }

  function Record(r: Ring, hour: int, n: int): Ring
    requires Shaped(r)
  {
    var a := Advance(r, hour);
    a.(samples := a.samples[a.head := a.samples[a.head] + n])
  }

  function Sum(s: seq<int>): int {
    if s == [] then 0 else Sum(s[..|s| - 1]) + s[|s| - 1]
  }

  // ----- the history a ring stands for -----

  /** One recorded sample count, charged to an hour. */
  datatype Charge = Charge(hour: int, n: int)

  function ChargedTo(history: seq<Charge>, hour: int): int {
    if history == [] then 0
    else
      var c := history[|history| - 1];
      ChargedTo(history[..|history| - 1], hour) + if c.hour == hour then c.n else 0
  }

  /** All samples charged to the eight hours that end with `last`. */
  function WindowSum(history: seq<Charge>, last: int): int {
    if history == [] then 0
    else
      var c := history[|history| - 1];
      WindowSum(history[..|history| - 1], last) + if last - 8 < c.hour <= last then c.n else 0
  }

  ghost predicate Refines(r: Ring, history: seq<Charge>) {
    && Shaped(r)
    && (forall i | 0 <= i < |history| :: history[i].hour <= r.lastHour)
    && (forall i | 0 <= i < HOURS_LOG :: r.samples[i] == ChargedTo(history, SlotHour(r.lastHour, i)))
  }

  lemma {:induction false} SlotUnique(hour: int, last: int, i: int)
    requires 0 <= i < HOURS_LOG
    ensures SlotHour(last, i) == hour <==> last - HOURS_LOG < hour <= last && hour % HOURS_LOG == i
  {
  }

  lemma {:induction false} SlotStep(last: int, i: int)
    requires 0 <= i < HOURS_LOG
    ensures SlotHour(last + 1, i) == if i == (last + 1) % HOURS_LOG then last + 1 else SlotHour(last, i)
  {
    SlotUnique(last + 1, last + 1, i);
    SlotUnique(SlotHour(last, i), last + 1, i);
    SlotUnique(SlotHour(last, i), last, i);
  }

  lemma {:induction false} NothingCharged(history: seq<Charge>, hour: int)
    requires forall i | 0 <= i < |history| :: history[i].hour < hour
    ensures ChargedTo(history, hour) == 0
  {
    if history != [] {
      NothingCharged(history[..|history| - 1], hour);
    }
  }

  lemma {:induction false} AdvanceRefines(r: Ring, history: seq<Charge>, hour: int)
    requires Refines(r, history)
    ensures Refines(Advance(r, hour), history)
  {
    if hour > r.lastHour {
      forall i | 0 <= i < HOURS_LOG ensures Advance(r, hour).samples[i] == ChargedTo(history, SlotHour(hour, i)) {
        SlotUnique(SlotHour(hour, i), hour, i);
        SlotUnique(SlotHour(hour, i), r.lastHour, i);
        if SlotHour(hour, i) > r.lastHour {
          NothingCharged(history, SlotHour(hour, i));
        }
      }
    }
  }

  lemma {:induction false} RecordRefines(r: Ring, history: seq<Charge>, hour: int, n: int)
    requires Refines(r, history)
    ensures var a := Advance(r, hour); Refines(Record(r, hour, n), history + [Charge(a.lastHour, n)])
  {
    AdvanceRefines(r, history, hour);
    var a := Advance(r, hour);
    var h := history + [Charge(a.lastHour, n)];
    assert h[..|h| - 1] == history;
    forall i | 0 <= i < HOURS_LOG ensures Record(r, hour, n).samples[i] == ChargedTo(h, SlotHour(a.lastHour, i)) {
      SlotUnique(a.lastHour, a.lastHour, i);
    }
  }

  lemma {:induction false} CreatedRefines(hour: int, n: int)
    ensures Refines(Created(hour, n), [Charge(hour, n)])
  {
    var h := [Charge(hour, n)];
    assert h[..0] == [];
    forall i | 0 <= i < HOURS_LOG ensures Created(hour, n).samples[i] == ChargedTo(h, SlotHour(hour, i)) {
      SlotUnique(hour, hour, i);
    }
  }

  lemma {:induction false} SumOfEight(s: seq<int>)
    requires |s| == 8
    ensures Sum(s) == s[0] + s[1] + s[2] + s[3] + s[4] + s[5] + s[6] + s[7]
  {
    assert s[..7][..6] == s[..6] && s[..6][..5] == s[..5] && s[..5][..4] == s[..4];
    assert s[..4][..3] == s[..3] && s[..3][..2] == s[..2] && s[..2][..1] == s[..1] && s[..1][..0] == [];
    assert Sum(s[..1]) == s[0] && Sum(s[..2]) == s[0] + s[1] && Sum(s[..3]) == s[0] + s[1] + s[2];
    assert Sum(s[..4]) == s[0] + s[1] + s[2] + s[3] && Sum(s[..5]) == s[0] + s[1] + s[2] + s[3] + s[4];
    assert Sum(s[..6]) == s[0] + s[1] + s[2] + s[3] + s[4] + s[5];
    assert Sum(s[..7]) == s[0] + s[1] + s[2] + s[3] + s[4] + s[5] + s[6];
  }

  function Slots(history: seq<Charge>, last: int): seq<int> {
    seq(HOURS_LOG, i => ChargedTo(history, SlotHour(last, i)))
  }

  /** Added up over the eight slots, a history gives its window. */
  lemma {:induction false} SlotsAreWindow(history: seq<Charge>, last: int)
    ensures Sum(Slots(history, last)) == WindowSum(history, last)
  {
    SumOfEight(Slots(history, last));
    if history != [] {
      var front, c := history[..|history| - 1], history[|history| - 1];
      SlotsAreWindow(front, last);
      SumOfEight(Slots(front, last));
      forall i | 0 <= i < HOURS_LOG
        ensures Slots(history, last)[i] ==
                Slots(front, last)[i] +
                if last - HOURS_LOG < c.hour <= last && c.hour % HOURS_LOG == i then c.n else 0
      {
        SlotUnique(c.hour, last, i);
      }
    }
  }

  /** The ring's sum is the sum of all samples charged to the last eight hours. */
  lemma {:induction false} RingSumIsWindow(r: Ring, history: seq<Charge>)
    requires Refines(r, history)
    ensures Sum(r.samples) == WindowSum(history, r.lastHour)
  {
    SlotsAreWindow(history, r.lastHour);
    assert r.samples == Slots(history, r.lastHour);
  }

  // ----- any run of updates and reads -----

  /** What happens to one entry: samples arrive, or a batch read visits it. */
  datatype Event = Update(time: nat, n: int) | Visit(time: nat)

  function HourOf(time: nat): int {
    time / 3600
  }

  /** The latest hour the clock has shown, even if it was set back since. */
  function LatestHour(events: seq<Event>): int
    requires events != []
  {
    var h := HourOf(events[|events| - 1].time);
    if |events| == 1 then h
    else
      var before := LatestHour(events[..|events| - 1]);
      if h > before then h else before
  }

  /** The history of a run: each update is charged to the latest hour seen. */
  function HistoryOf(events: seq<Event>): seq<Charge> {
    if events == [] then []
    else
      HistoryOf(events[..|events| - 1]) +
      match events[|events| - 1]
      case Update(_, n) => [Charge(LatestHour(events), n)]
      case Visit(_) => []
  }

  function RingAfter(events: seq<Event>): Ring
    requires events != [] && events[0].Update?
    ensures |RingAfter(events).samples| == HOURS_LOG
    ensures RingAfter(events).head == RingAfter(events).lastHour % HOURS_LOG
  {
    if |events| == 1 then Created(HourOf(events[0].time), events[0].n)
    else
      var r := RingAfter(events[..|events| - 1]);
      match events[|events| - 1]
      case Update(t, n) => Record(r, HourOf(t), n)
      case Visit(t) => Advance(r, HourOf(t))
  }

  /** After any run, at any times, the ring stands at the latest hour seen and its sum is the last eight hours of the
      full history. */
  lemma {:induction false} RingRefinesHistory(events: seq<Event>)
    requires events != [] && events[0].Update?
    ensures var r := RingAfter(events);
            && r.lastHour == LatestHour(events) && r.head == LatestHour(events) % HOURS_LOG
            && Refines(r, HistoryOf(events))
            && Sum(r.samples) == WindowSum(HistoryOf(events), LatestHour(events))
  {
    if |events| == 1 {
      assert events[..0] == [];
      assert HistoryOf(events) == [Charge(HourOf(events[0].time), events[0].n)];
      CreatedRefines(HourOf(events[0].time), events[0].n);
    } else {
      var front := events[..|events| - 1];
      RingRefinesHistory(front);
      match events[|events| - 1]
      case Update(t, n) => RecordRefines(RingAfter(front), HistoryOf(front), HourOf(t), n);
      case Visit(t) =>
        AdvanceRefines(RingAfter(front), HistoryOf(front), HourOf(t));
        assert HistoryOf(front) + [] == HistoryOf(front);
    }
    RingSumIsWindow(RingAfter(events), HistoryOf(events));
  }

  /** A ring that sums to zero has no sample left in its window, when sample counts are not negative. */
  lemma {:induction false} InactiveMeansNoSample(history: seq<Charge>, last: int)
    requires forall i | 0 <= i < |history| :: history[i].n >= 0
    ensures WindowSum(history, last) >= 0
    ensures WindowSum(history, last) == 0 <==>
            forall i | 0 <= i < |history| && last - HOURS_LOG < history[i].hour <= last :: history[i].n == 0
  {
    if history != [] {
      var front := history[..|history| - 1];
      InactiveMeansNoSample(front, last);
      assert forall i | 0 <= i < |front| :: front[i] == history[i];
    }
  }
}
