/** The ingest backoff valve: after a 403 pushes are suppressed, except one probe per retry interval. */
module IngestBackoff {
  import opened Text

  const FORBIDDEN := 403

  /** Times are clock readings in nanoseconds. */
  datatype Valve = Valve(paused: bool, holdUntil: int)

  function Open(): Valve {
    Valve(false, 0)
  }

  predicate Passes(v: Valve, now: int) {
    !v.paused || now >= v.holdUntil
  }

  function AfterAttempt(v: Valve, interval: int, now: int): Valve {
    if v.paused && now >= v.holdUntil then v.(holdUntil := now + interval) else v
  }

  function AfterResponse(v: Valve, interval: int, now: int, status: int): Valve {
    if status == FORBIDDEN then Valve(true, now + interval) else v.(paused := false)
  }

  class Backoff {
    const interval: int
    var paused: bool
    var holdUntil: int

    ghost function State(): Valve
      reads this
    {
      Valve(paused, holdUntil)
    }

    constructor (interval: int)
      requires interval > 0
      ensures this.interval == interval && State() == Open()
    {
      this.interval, paused, holdUntil := interval, false, 0;
    }

    method Allow(now: int) returns (ok: bool)
      modifies this
      ensures ok == Passes(old(State()), now)
      ensures State() == AfterAttempt(old(State()), interval, now)
    {
      if !paused {
        return true;
      }
      if now < holdUntil {
        return false;
      }
      holdUntil := now + interval;
      return true;
    }

    method Observe(status: int, now: int)
      modifies this
      ensures State() == AfterResponse(old(State()), interval, now, status)
    {
      if status == FORBIDDEN {
        holdUntil := now + interval;
        if !paused {
          paused := true;
        }
        return;
      }
      if paused {
        paused := false;
      }
    }

    /** One push: suppressed with a 403 of the agent's own, which is not observed; or sent, and then answered at time
        `later` or lost to a transport error, which leaves the valve alone. */
    method RoundTrip(now: int, reply: Option<int>, later: int) returns (sent: bool, status: Option<int>)
      modifies this
      ensures sent == Passes(old(State()), now)
      ensures !sent ==> status == Some(FORBIDDEN) && State() == old(State())
      ensures sent ==> status == reply
      ensures sent && reply.None? ==> State() == AfterAttempt(old(State()), interval, now)
      ensures sent && reply.Some? ==>
                State() == AfterResponse(AfterAttempt(old(State()), interval, now), interval, later, reply.value)
    {
      sent := Allow(now);
      if !sent {
        return false, Some(FORBIDDEN);
      }
      status := reply;
      if status.Some? {
        Observe(status.value, later);
      }
    }
  }

  // ----- all interleavings of attempts and responses -----

  /** Attempts and the responses of those let through come in any order; a transport error is no event. */
  datatype Event = Attempt(time: int) | Response(time: int, status: int)

  function Run(v: Valve, interval: int, events: seq<Event>): Valve {
    if events == [] then v
    else
      var before := Run(v, interval, events[..|events| - 1]);
      match events[|events| - 1]
      case Attempt(t) => AfterAttempt(before, interval, t)
      case Response(t, status) => AfterResponse(before, interval, t, status)
  }

  /** The times of the attempts that were let through. */
  function Through(v: Valve, interval: int, events: seq<Event>): seq<int> {
    if events == [] then []
    else
      var front, last := events[..|events| - 1], events[|events| - 1];
      Through(v, interval, front) +
      if last.Attempt? && Passes(Run(v, interval, front), last.time) then [last.time] else []
  }

  /** The clock does not go back. */
  ghost predicate Ordered(from: int, events: seq<Event>) {
    && (forall i | 0 <= i < |events| :: from <= events[i].time)
    && (forall i, j | 0 <= i < j < |events| :: events[i].time <= events[j].time)
  }

  function LastTime(from: int, events: seq<Event>): int {
    if events == [] then from else events[|events| - 1].time
  }

  /** The status of the last response, if there was one. */
  function LastStatus(events: seq<Event>): Option<int> {
    if events == [] then None
    else match events[|events| - 1]
         case Response(_, status) => Some(status)
         case Attempt(_) => LastStatus(events[..|events| - 1])
  }

  /** The valve is closed exactly when the last real response was a 403. */
  lemma {:induction false} PausedIffLastForbidden(interval: int, events: seq<Event>)
    ensures Run(Open(), interval, events).paused <==> LastStatus(events) == Some(FORBIDDEN)
  {
    if events != [] {
      PausedIffLastForbidden(interval, events[..|events| - 1]);
    }
  }

  /** The law of the valve, told from the history alone: an attempt at time t may go out if the last response was no
      403, or if t is an interval after the last 403 and after the last attempt that went out since. */
  predicate MayPass(interval: int, events: seq<Event>, t: int)
    decreases |events|, 1
  {
    LastStatus(events) != Some(FORBIDDEN) || t >= LastSign(interval, events) + interval
  }

  /** When the last 403 came or, if later, the last attempt went out after one. */
  function LastSign(interval: int, events: seq<Event>): int
    decreases |events|, 0
  {
    if events == [] then 0
    else
      var front, last := events[..|events| - 1], events[|events| - 1];
      match last
      case Response(t, status) => if status == FORBIDDEN then t else LastSign(interval, front)
      case Attempt(t) =>
        if LastStatus(front) == Some(FORBIDDEN) && MayPass(interval, front, t) then t else LastSign(interval, front)
  }

  lemma {:induction false} HoldFromHistory(interval: int, events: seq<Event>)
    ensures var v := Run(Open(), interval, events);
            && (v.paused <==> LastStatus(events) == Some(FORBIDDEN))
            && (v.paused ==> v.holdUntil == LastSign(interval, events) + interval)
  {
    if events != [] {
      HoldFromHistory(interval, events[..|events| - 1]);
    }
  }

  /** In every run of a new valve, with the clock going as it likes, an attempt is let through exactly when the history
      allows it. */
  lemma {:induction false} PassesIff(interval: int, events: seq<Event>, t: int)
    ensures Passes(Run(Open(), interval, events), t) <==> MayPass(interval, events, t)
    ensures Through(Open(), interval, events + [Attempt(t)]) ==
            Through(Open(), interval, events) + if MayPass(interval, events, t) then [t] else []
  {
    HoldFromHistory(interval, events);
    assert (events + [Attempt(t)])[..|events|] == events;
  }

  /** So a valve that saw no 403, or saw anything else after it, holds nothing back. */
  lemma {:induction false} OpenLetsThrough(interval: int, before: seq<Event>, status: int, at: int, after: seq<Event>,
                                           t: int)
    requires status != FORBIDDEN && forall i | 0 <= i < |after| :: after[i].Attempt?
    ensures Passes(Run(Open(), interval, after), t)
    ensures Passes(Run(Open(), interval, before + [Response(at, status)] + after), t)
  {
    AttemptsKeepStatus([], after);
    assert [] + after == after;
    PassesIff(interval, after, t);
    var start := before + [Response(at, status)];
    AttemptsKeepStatus(start, after);
    assert start[|start| - 1] == Response(at, status);
    PassesIff(interval, start + after, t);
  }

  lemma {:induction false} AttemptsKeepStatus(start: seq<Event>, after: seq<Event>)
    requires forall i | 0 <= i < |after| :: after[i].Attempt?
    ensures LastStatus(start + after) == LastStatus(start)
  {
    if after == [] {
      assert start + after == start;
    } else {
      AttemptsKeepStatus(start, after[..|after| - 1]);
      assert (start + after)[..|start + after| - 1] == start + after[..|after| - 1];
    }
  }

  /** While the pause lasts, no response is anything but a 403. */
  ghost predicate Unbroken(events: seq<Event>) {
    forall i | 0 <= i < |events| && events[i].Response? :: events[i].status == FORBIDDEN
  }

  /** Spaced at least `gap` apart, in order. */
  ghost predicate Spaced(times: seq<int>, gap: int) {
    forall i, j | 0 <= i < j < |times| :: times[j] >= times[i] + gap
  }

  /** What holds throughout an unbroken pause armed at time `a`. */
  ghost predicate PauseInv(a: int, interval: int, events: seq<Event>) {
    var armed := Valve(true, a + interval);
    var now := Run(armed, interval, events);
    var through := Through(armed, interval, events);
    && now.paused
    && now.holdUntil <= LastTime(a, events) + interval
    && now.holdUntil >= a + (|through| + 1) * interval
    && (forall i | 0 <= i < |through| :: a + interval <= through[i] && through[i] + interval <= now.holdUntil)
    && (forall i | 0 <= i < |events| && events[i].Response? :: events[i].time + interval <= now.holdUntil)
    && Spaced(through, interval)
  }

  lemma {:induction false} PauseKept(a: int, interval: int, events: seq<Event>)
    requires interval > 0 && Ordered(a, events) && Unbroken(events)
    ensures PauseInv(a, interval, events)
  {
    if events != [] {
      var front := events[..|events| - 1];
      PauseKept(a, interval, front);
      PauseStep(a, interval, events);
    }
  }

  lemma {:induction false} OneMore(n: nat, interval: int)
    ensures (n + 1) * interval == n * interval + interval
  {
  }

  lemma {:induction false} PauseStep(a: int, interval: int, events: seq<Event>)
    requires interval > 0 && Ordered(a, events) && Unbroken(events) && events != []
    requires PauseInv(a, interval, events[..|events| - 1])
    ensures PauseInv(a, interval, events)
  {
    var front, last := events[..|events| - 1], events[|events| - 1];
    var armed := Valve(true, a + interval);
    var before := Run(armed, interval, front);
    var through := Through(armed, interval, front);
    assert forall i | 0 <= i < |front| :: front[i] == events[i];
    assert LastTime(a, front) <= last.time;
    if last.Attempt? && last.time >= before.holdUntil {
      assert Through(armed, interval, events) == through + [last.time];
      OneMore(|through| + 1, interval);
    } else {
      assert Through(armed, interval, events) == through;
    }
  }

  /** Whatever came before it, a 403 arms the valve: the run goes on as from a valve armed at that time, and so do the
      attempts let through. */
  lemma {:induction false} ForbiddenArms(v: Valve, interval: int, before: seq<Event>, a: int, after: seq<Event>)
    ensures var armed := Valve(true, a + interval);
            var start := before + [Response(a, FORBIDDEN)];
            && Run(v, interval, start + after) == Run(armed, interval, after)
            && Through(v, interval, start + after) == Through(v, interval, before) + Through(armed, interval, after)
  {
    var start := before + [Response(a, FORBIDDEN)];
    if after == [] {
      assert start + after == start && start[..|start| - 1] == before;
    } else {
      var front := after[..|after| - 1];
      ForbiddenArms(v, interval, before, a, front);
      assert (start + after)[..|start + after| - 1] == start + front;
    }
  }

  /** In any run, from a 403 observed at time a and for as long as the pause is unbroken, with any number of attempts in
      flight: by the time of the last event at most (t - a) / interval attempts were let through; they are at least an
      interval apart, and none comes sooner than an interval after the 403. */
  lemma {:induction false} ProbeRate(v: Valve, interval: int, before: seq<Event>, a: int, after: seq<Event>)
    requires interval > 0 && Ordered(a, after) && Unbroken(after)
    ensures var start := before + [Response(a, FORBIDDEN)];
            var through := Through(Run(v, interval, start), interval, after);
            && Through(v, interval, start + after) == Through(v, interval, start) + through
            && |through| * interval <= LastTime(a, after) - a
            && Spaced(through, interval)
            && forall i | 0 <= i < |through| :: through[i] >= a + interval
  {
    var start := before + [Response(a, FORBIDDEN)];
    ForbiddenArms(v, interval, before, a, after);
    ForbiddenArms(v, interval, before, a, []);
    assert start + [] == start;
    PauseKept(a, interval, after);
    var n := |Through(Valve(true, a + interval), interval, after)|;
    assert (n + 1) * interval == n * interval + interval;
  }

  /** In any run, no attempt is let through sooner than an interval after a 403 observed before it in the same pause. */
  lemma {:induction false} ProbeAfterForbidden(v: Valve, interval: int, events: seq<Event>, i: nat, j: nat)
    requires interval > 0 && i < j < |events|
    requires events[i].Response? && events[i].status == FORBIDDEN && events[j].Attempt?
    requires Ordered(events[i].time, events[i + 1..j]) && Unbroken(events[i + 1..j])
    requires Passes(Run(v, interval, events[..j]), events[j].time)
    ensures events[j].time >= events[i].time + interval
  {
    var a, after := events[i].time, events[i + 1..j];
    assert events[..j] == events[..i] + [Response(a, FORBIDDEN)] + after;
    ForbiddenArms(v, interval, events[..i], a, after);
    PauseKept(a, interval, after);
    var n := |Through(Valve(true, a + interval), interval, after)|;
    assert (n + 1) * interval == n * interval + interval && n * interval >= 0;
  }

  /** In any run, a suppressed attempt is never more than an interval before the end of the hold, so a probe is always
      near. */
  lemma {:induction false} HoldIsNear(v: Valve, interval: int, before: seq<Event>, a: int, after: seq<Event>, now: int)
    requires interval > 0 && Ordered(a, after) && Unbroken(after) && LastTime(a, after) <= now
    ensures var w := Run(v, interval, before + [Response(a, FORBIDDEN)] + after);
            && (!Passes(w, now) ==> now < w.holdUntil <= now + interval)
            && (now >= LastTime(a, after) + interval ==> Passes(w, now))
  {
    ForbiddenArms(v, interval, before, a, after);
    PauseKept(a, interval, after);
  }
}
