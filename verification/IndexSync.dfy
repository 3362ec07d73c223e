/** The index-sync protocol: receivers put new series in the discovered and known caches, processors report them to the
    backend and purge, delete or mark what was acknowledged. Every critical section is one step; receivers, processors,
    timeouts and the server interleave freely. */
module IndexSync {
  import opened Text
  import opened Tracker
  import C = Correlation

  /** A message by the keys it carries; that an IndexCreate carries exactly the keys selected, and that these are the
      ones purged, is shown for the caches themselves (DiscoveredCache.RunRound). */
  datatype Msg =
    | IndexCreate(keys: set<HashKey>)
    | IndexDelete(keys: set<HashKey>)
    | IndexUpdate(keys: set<HashKey>)

  /** Where a processor loop stands: resting, with active keys chosen, waiting for the answer to a message, or with the
      answer in hand and the caches not yet changed. */
  datatype Phase =
    | Resting
    | Chosen(active: set<HashKey>)
    | Calling(msg: Msg, active: set<HashKey>)
    | Answered(msg: Msg, id: C.Id, active: set<HashKey>)

  /** Where a receiver stands with one series of its batch. */
  datatype Receiver = Free | SawKnown(key: HashKey) | SawUnknown(key: HashKey) | Added(key: HashKey)

  /** `ever` records every key put in either cache; `created` and `deleted` when a create or delete of the key was last
      acknowledged, by the step counter `clock`. */
  datatype State = State(
    corr: C.State<Msg>,
    known: set<HashKey>,
    discovered: set<HashKey>,
    procs: map<nat, Phase>,
    receivers: map<nat, Receiver>,
    ever: set<HashKey>,
    clock: nat,
    created: map<HashKey, nat>,
    deleted: map<HashKey, nat>)
  {
    function PhaseOf(p: nat): Phase {
      if p in procs then procs[p] else Resting
    }

    function ReceiverOf(r: nat): Receiver {
      if r in receivers then receivers[r] else Free
    }
  }

  function Init(): State {
    State(C.Init(), {}, {}, map[], map[], {}, 0, map[], map[])
  }

  datatype Step =
    | Check(r: nat, key: HashKey)             // IsTimeseriesKnown
    | AddDiscovered(r: nat)                   // discovered.Add
    | UpdateKnown(r: nat)                     // known.UpdateTimeseries
    | Receive(key: HashKey)                   // the three of them as one step
    | SelectDiscovered(p: nat, keys: set<HashKey>)
    | SelectActive(p: nat, active: set<HashKey>)
    | SelectInactive(p: nat, inactive: set<HashKey>)
    | Call(p: nat, call: C.Step<Msg>)         // a step of the processor's own sendAndWaitAck
    | Wire(step: C.Step<Msg>)                 // an Ack arrives, or is written to its channel
    | Apply(p: nat, stop: bool)               // PurgeBatch, DeleteBatch or MarkSyncedBatch

  /** The call steps a processor takes for the message it is sending. */
  predicate OwnStep(p: nat, msg: Msg, step: C.Step<Msg>) {
    match step
    case TakeId(t, m) => t == p && m == msg
    case Register(t) => t == p
    case Send(t, _) => t == p
    case TakeAck(t) => t == p
    case TimeOut(t) => t == p
    case CleanUp(t) => t == p
    case _ => false
  }

  predicate Enabled(s: State, step: Step) {
    match step
    case Check(r, _) => s.ReceiverOf(r).Free?
    case AddDiscovered(r) => s.ReceiverOf(r).SawUnknown?
    case UpdateKnown(r) => s.ReceiverOf(r).SawKnown? || s.ReceiverOf(r).Added?
    case Receive(_) => true
    case SelectDiscovered(p, keys) => s.PhaseOf(p).Resting? && keys != {} && keys <= s.discovered
    case SelectActive(p, active) => s.PhaseOf(p).Resting? && active <= s.known
    case SelectInactive(p, inactive) => s.PhaseOf(p).Chosen? && inactive <= s.known
    case Call(p, call) => s.PhaseOf(p).Calling? && OwnStep(p, s.PhaseOf(p).msg, call) && C.Enabled(s.corr, call)
    case Wire(step) => (step.Resolve? || step.Deliver?) && C.Enabled(s.corr, step)
    case Apply(p, _) => s.PhaseOf(p).Answered?
  }

  function Stamp(log: map<HashKey, nat>, keys: set<HashKey>, at: nat): map<HashKey, nat> {
    map k | k in log.Keys + keys :: if k in keys then at else log[k]
  }

  /** A call ends: without an Ack the processor rests (and tries again later); with one, whatever its success flag, the
      caches will be changed. */
  function EndCall(s: State, p: nat, phase: Phase, ended: C.Sender): State
    requires phase.Calling? && ended.Returning?
  {
    if ended.result.None? then s.(procs := s.procs[p := Resting])
    else
      var s1 := s.(procs := s.procs[p := Answered(phase.msg, ended.id, phase.active)], clock := s.clock + 1);
      match phase.msg
      case IndexCreate(keys) => s1.(created := Stamp(s.created, keys, s.clock + 1))
      case IndexDelete(keys) => s1.(deleted := Stamp(s.deleted, keys, s.clock + 1))
      case IndexUpdate(_) => s1
  }

  function Do(s: State, step: Step): State
    requires Enabled(s, step)
  {
    match step
    case Check(r, key) => s.(receivers := s.receivers[r := if key in s.known then SawKnown(key) else SawUnknown(key)])
    case AddDiscovered(r) =>
      var key := s.ReceiverOf(r).key;
      s.(receivers := s.receivers[r := Added(key)], discovered := s.discovered + {key}, ever := s.ever + {key})
    case UpdateKnown(r) =>
      var key := s.ReceiverOf(r).key;
      s.(receivers := s.receivers[r := Free], known := s.known + {key}, ever := s.ever + {key})
    case Receive(key) =>
      if key in s.known then s
      else s.(discovered := s.discovered + {key}, known := s.known + {key}, ever := s.ever + {key})
    case SelectDiscovered(p, keys) => s.(procs := s.procs[p := Calling(IndexCreate(keys), {})])
    case SelectActive(p, active) => s.(procs := s.procs[p := Chosen(active)])
    case SelectInactive(p, inactive) =>
      var active := s.PhaseOf(p).active;
      s.(procs := s.procs[p := if inactive != {} then Calling(IndexDelete(inactive), active) else UpdateOrRest(active)])
    case Call(p, call) =>
      var s1 := s.(corr := C.Do(s.corr, call));
      if call.CleanUp? then EndCall(s1, p, s.PhaseOf(p), s.corr.SenderOf(p)) else s1
    case Wire(step) => s.(corr := C.Do(s.corr, step))
    case Apply(p, stop) =>
      var phase := s.PhaseOf(p);
      match phase.msg
      case IndexCreate(keys) => s.(discovered := s.discovered - keys, procs := s.procs[p := Resting])
      case IndexDelete(keys) =>
        s.(known := s.known - keys, procs := s.procs[p := if stop then Resting else UpdateOrRest(phase.active)])
      case IndexUpdate(_) => s.(procs := s.procs[p := Resting])
  }

  function UpdateOrRest(active: set<HashKey>): Phase {
    if active != {} then Calling(IndexUpdate(active), {}) else Resting
  }

  ghost predicate IsRun(states: seq<State>, steps: seq<Step>) {
    && |states| == |steps| + 1 && states[0] == Init()
    && forall i | 0 <= i < |steps| :: Enabled(states[i], steps[i]) && states[i + 1] == Do(states[i], steps[i])
  }

  // ----- no series is forgotten -----

  /** The key was carried in an IndexCreate whose own id was answered by an Ack. */
  ghost predicate CreateAcked(s: State, k: HashKey) {
    exists id | id in s.corr.acked && id in s.corr.msgs :: s.corr.msgs[id].IndexCreate? && k in s.corr.msgs[id].keys
  }

  /** A processor's call carries the message of its phase, and an answer in hand answers that message. */
  ghost predicate ProcOk(s: State, p: nat) {
    var c := s.corr.SenderOf(p);
    match s.PhaseOf(p)
    case Calling(msg, _) => !c.Idle? ==> c.id in s.corr.msgs && s.corr.msgs[c.id] == msg
    case Answered(msg, id, _) => c.Idle? && id in s.corr.acked && id in s.corr.msgs && s.corr.msgs[id] == msg
    case _ => c.Idle?
  }

  ghost predicate ReceiverOk(s: State, r: nat) {
    match s.ReceiverOf(r)
    case SawKnown(key) => key in s.ever
    case Added(key) => key in s.ever
    case _ => true
  }

  ghost predicate NothingForgotten(s: State) {
    forall k | k in s.ever :: k in s.discovered || CreateAcked(s, k)
  }

  ghost predicate Inv(s: State) {
    && C.Inv(s.corr)
    && (forall p :: ProcOk(s, p))
    && (forall r :: ReceiverOk(s, r))
    && s.known <= s.ever && s.discovered <= s.ever
    && NothingForgotten(s)
  }

  /** Messages keep their ids and answers are never taken back. */
  lemma {:induction false} CorrGrows(c: C.State<Msg>, step: C.Step<Msg>)
    requires C.Inv(c) && C.Enabled(c, step) && C.Do(c, step).issued < C.ID_SPACE
    ensures c.acked <= C.Do(c, step).acked
    ensures forall id | id in c.msgs :: id in C.Do(c, step).msgs && C.Do(c, step).msgs[id] == c.msgs[id]
  {
  }

  lemma {:induction false} CorrOtherSenders(c: C.State<Msg>, p: nat, msg: Msg, step: C.Step<Msg>, q: nat)
    requires C.Enabled(c, step) && ((OwnStep(p, msg, step) && q != p) || step.Resolve? || step.Deliver?)
    ensures C.Do(c, step).SenderOf(q) == c.SenderOf(q)
  {
  }

  ghost predicate FewIds(s: State, step: Step)
    requires Enabled(s, step)
  {
    Do(s, step).corr.issued < C.ID_SPACE
  }

  lemma {:induction false} CallKeepsProc(s: State, p: nat, call: C.Step<Msg>)
    requires Inv(s) && Enabled(s, Call(p, call)) && FewIds(s, Call(p, call))
    ensures ProcOk(Do(s, Call(p, call)), p)
  {
    CorrGrows(s.corr, call);
    assert ProcOk(s, p);
    assert C.SenderOk(s.corr, s.corr.SenderOf(p));
  }

  /** A processor that does not move stays in order while messages and answers only grow. */
  lemma {:induction false} ProcUnmoved(s: State, s': State, q: nat)
    requires ProcOk(s, q) && s'.PhaseOf(q) == s.PhaseOf(q) && s'.corr.SenderOf(q) == s.corr.SenderOf(q)
    requires s.corr.acked <= s'.corr.acked
    requires forall id | id in s.corr.msgs :: id in s'.corr.msgs && s'.corr.msgs[id] == s.corr.msgs[id]
    ensures ProcOk(s', q)
  {
  }

  lemma {:induction false} CallKeepsOtherProc(s: State, p: nat, call: C.Step<Msg>, q: nat)
    requires Inv(s) && Enabled(s, Call(p, call)) && FewIds(s, Call(p, call)) && p != q
    ensures ProcOk(Do(s, Call(p, call)), q)
  {
    assert ProcOk(s, q);
    CorrGrows(s.corr, call);
    CorrOtherSenders(s.corr, p, s.PhaseOf(p).msg, call, q);
    ProcUnmoved(s, Do(s, Call(p, call)), q);
  }

  lemma {:induction false} WireKeepsProc(s: State, w: C.Step<Msg>, q: nat)
    requires Inv(s) && Enabled(s, Wire(w)) && FewIds(s, Wire(w))
    ensures ProcOk(Do(s, Wire(w)), q)
  {
    assert ProcOk(s, q);
    CorrGrows(s.corr, w);
    CorrOtherSenders(s.corr, q, IndexUpdate({}), w, q);
    ProcUnmoved(s, Do(s, Wire(w)), q);
  }

  lemma {:induction false} LocalStepKeepsProc(s: State, step: Step, q: nat)
    requires Inv(s) && Enabled(s, step) && !step.Call? && !step.Wire?
    ensures ProcOk(Do(s, step), q)
  {
    assert ProcOk(s, q);
    assert Do(s, step).corr == s.corr;
  }

  lemma {:induction false} StepKeepsProc(s: State, step: Step, q: nat)
    requires Inv(s) && Enabled(s, step) && FewIds(s, step)
    ensures ProcOk(Do(s, step), q)
  {
    if step.Call? {
      if step.p == q {
        CallKeepsProc(s, q, step.call);
      } else {
        CallKeepsOtherProc(s, step.p, step.call, q);
      }
    } else if step.Wire? {
      WireKeepsProc(s, step.step, q);
    } else {
      LocalStepKeepsProc(s, step, q);
    }
  }

  lemma {:induction false} StepKeepsCorr(s: State, step: Step)
    requires Inv(s) && Enabled(s, step) && FewIds(s, step)
    ensures C.Inv(Do(s, step).corr)
    ensures s.corr.acked <= Do(s, step).corr.acked
    ensures forall id | id in s.corr.msgs :: id in Do(s, step).corr.msgs && Do(s, step).corr.msgs[id] == s.corr.msgs[id]
  {
    match step
    case Call(p, call) =>
      C.StepKeepsInv(s.corr, call);
      CorrGrows(s.corr, call);
    case Wire(w) =>
      C.StepKeepsInv(s.corr, w);
      CorrGrows(s.corr, w);
    case _ =>
  }

  lemma {:induction false} StepKeepsCaches(s: State, step: Step)
    requires Inv(s) && Enabled(s, step)
    ensures var s' := Do(s, step); s'.known <= s'.ever && s'.discovered <= s'.ever && s.ever <= s'.ever
    ensures forall r :: ReceiverOk(Do(s, step), r)
  {
    forall r ensures ReceiverOk(Do(s, step), r) {
      assert ReceiverOk(s, r);
    }
  }

  lemma {:induction false} StepForgetsNothing(s: State, step: Step)
    requires Inv(s) && Enabled(s, step) && FewIds(s, step)
    ensures NothingForgotten(Do(s, step))
  {
    var s' := Do(s, step);
    StepKeepsCorr(s, step);
    forall k | k in s'.ever ensures k in s'.discovered || CreateAcked(s', k) {
      if k in s.ever && CreateAcked(s, k) {
        var id :| id in s.corr.acked && id in s.corr.msgs && s.corr.msgs[id].IndexCreate? && k in s.corr.msgs[id].keys;
        assert id in s'.corr.acked && id in s'.corr.msgs;
      } else {
        match step
        case Apply(p, _) =>
          assert ProcOk(s, p);
        case UpdateKnown(r) =>
          assert ReceiverOk(s, r);
        case _ =>
      }
    }
  }

  lemma {:induction false} StepKeepsInv(s: State, step: Step)
    requires Inv(s) && Enabled(s, step) && FewIds(s, step)
    ensures Inv(Do(s, step))
  {
    StepKeepsCorr(s, step);
    StepKeepsCaches(s, step);
    StepForgetsNothing(s, step);
    forall p ensures ProcOk(Do(s, step), p) {
      StepKeepsProc(s, step, p);
    }
  }

  lemma {:induction false} IssuedGrows(states: seq<State>, steps: seq<Step>, i: nat)
    requires IsRun(states, steps) && i < |states|
    ensures states[i].corr.issued <= states[|states| - 1].corr.issued
    decreases |states| - i
  {
    if i < |steps| {
      IssuedGrows(states, steps, i + 1);
      assert states[i + 1] == Do(states[i], steps[i]);
    }
  }

  lemma {:induction false} RunKeepsInv(states: seq<State>, steps: seq<Step>, i: nat)
    requires IsRun(states, steps) && i < |states| && states[|states| - 1].corr.issued < C.ID_SPACE
    ensures Inv(states[i])
  {
    if i > 0 {
      RunKeepsInv(states, steps, i - 1);
      IssuedGrows(states, steps, i);
      assert states[i] == Do(states[i - 1], steps[i - 1]);
      StepKeepsInv(states[i - 1], steps[i - 1]);
    }
  }

  /** In every interleaving of any number of receivers and processors, with timeouts, failed sends, and late, repeated
      or unasked-for Acks: each key ever put in either cache is still in discovered, or was carried in an IndexCreate
      whose own id the server answered. */
  lemma {:induction false} NoSeriesForgotten(states: seq<State>, steps: seq<Step>, i: nat, k: HashKey)
    requires IsRun(states, steps) && i < |states| && states[|states| - 1].corr.issued < C.ID_SPACE
    requires k in states[i].ever
    ensures k in states[i].discovered || CreateAcked(states[i], k)
    ensures forall key | key in states[i].known || key in states[i].discovered :: key in states[i].ever
  {
    RunKeepsInv(states, steps, i);
  }

  /** The server answers only what it was sent. */
  predicate Honest(s: State, step: Step) {
    step.Wire? && step.step.Resolve? ==> step.step.ack.id in s.corr.wire
  }

  lemma {:induction false} HonestStep(s: State, step: Step)
    requires Enabled(s, step) && Honest(s, step) && s.corr.acked <= s.corr.wire
    ensures Do(s, step).corr.acked <= Do(s, step).corr.wire
  {
  }

  lemma {:induction false} HonestRun(states: seq<State>, steps: seq<Step>, i: nat)
    requires IsRun(states, steps) && i < |states| && forall j | 0 <= j < |steps| :: Honest(states[j], steps[j])
    ensures states[i].corr.acked <= states[i].corr.wire
  {
    if i > 0 {
      HonestRun(states, steps, i - 1);
      assert Honest(states[i - 1], steps[i - 1]) && states[i] == Do(states[i - 1], steps[i - 1]);
      HonestStep(states[i - 1], steps[i - 1]);
    }
  }

  /** With a server that answers only what it was sent, the message that carried the key did go out. */
  lemma {:induction false} NoSeriesUnsent(states: seq<State>, steps: seq<Step>, i: nat, k: HashKey)
    requires IsRun(states, steps) && i < |states| && states[|states| - 1].corr.issued < C.ID_SPACE
    requires forall j | 0 <= j < |steps| :: Honest(states[j], steps[j])
    requires k in states[i].ever && k !in states[i].discovered
    ensures var c := states[i].corr;
            exists id | id in c.acked && id in c.wire && id in c.msgs :: c.msgs[id].IndexCreate? && k in c.msgs[id].keys
  {
    NoSeriesForgotten(states, steps, i, k);
    HonestRun(states, steps, i);
  }

  // ----- one processor -----

  /** Only one processor loop runs; receivers are as many as they like. */
  predicate OneProcessor(step: Step) {
    match step
    case SelectDiscovered(p, _) => p == 0
    case SelectActive(p, _) => p == 0
    case SelectInactive(p, _) => p == 0
    case Call(p, _) => p == 0
    case Apply(p, _) => p == 0
    case _ => true
  }

  /** The backend was last told to create the key, not to delete it. */
  predicate Indexed(s: State, k: HashKey) {
    k in s.created && (k in s.deleted ==> s.deleted[k] < s.created[k])
  }

  /** The key is in a delete round that was acknowledged and is now being completed. */
  predicate BeingDropped(s: State, k: HashKey) {
    var phase := s.PhaseOf(0);
    phase.Answered? && phase.msg.IndexDelete? && k in phase.msg.keys
  }

  predicate Accounted(s: State, k: HashKey) {
    k in s.discovered || Indexed(s, k) || BeingDropped(s, k)
  }

  /** The law: every known key is accounted for. */
  ghost predicate KnownIsIndexed(s: State) {
    forall k | k in s.known :: Accounted(s, k)
  }

  /** The receiver is about to put the key in the known cache. */
  predicate Holds(s: State, r: nat, k: HashKey) {
    var c := s.ReceiverOf(r);
    (c.SawKnown? || c.Added?) && c.key == k
  }

  /** A receiver's key too is accounted for. */
  ghost predicate HeldIsIndexed(s: State) {
    forall r, k | Holds(s, r, k) :: Accounted(s, k)
  }

  /** Stamps lie in the past, and an answer in hand is the last word on its keys. */
  ghost predicate StampsOk(s: State) {
    && (forall k | k in s.created :: s.created[k] <= s.clock)
    && (forall k | k in s.deleted :: s.deleted[k] <= s.clock)
    && (var phase := s.PhaseOf(0);
        && (phase.Answered? && phase.msg.IndexCreate? ==> forall k | k in phase.msg.keys :: Indexed(s, k))
        && (phase.Answered? && phase.msg.IndexDelete? ==> forall k | k in phase.msg.keys :: !Indexed(s, k)))
  }

  ghost predicate Lawful(s: State) {
    StampsOk(s) && KnownIsIndexed(s) && HeldIsIndexed(s)
  }

  /** The one step to be avoided: completing a delete round while a receiver holds one of its keys, unless the key is
      queued again. */
  ghost predicate Orderly(s: State, step: Step) {
    step.Apply? && s.PhaseOf(0).Answered? && s.PhaseOf(0).msg.IndexDelete? ==>
      forall r, k | Holds(s, r, k) && k in s.PhaseOf(0).msg.keys :: k in s.discovered
  }

  lemma {:induction false} CallKeepsStamps(s: State, call: C.Step<Msg>)
    requires StampsOk(s) && Enabled(s, Call(0, call))
    ensures StampsOk(Do(s, Call(0, call)))
  {
  }

  /** An acknowledged call stamps what it created or deleted, and what it deleted is being dropped. */
  lemma {:induction false} CallKeepsAccount(s: State, call: C.Step<Msg>, k: HashKey)
    requires StampsOk(s) && Enabled(s, Call(0, call)) && Accounted(s, k)
    ensures Accounted(Do(s, Call(0, call)), k)
  {
  }

  lemma {:induction false} ApplyKeepsAccount(s: State, stop: bool, k: HashKey)
    requires StampsOk(s) && Enabled(s, Apply(0, stop)) && Accounted(s, k)
    requires s.PhaseOf(0).msg.IndexDelete? && k in s.PhaseOf(0).msg.keys ==> k in s.discovered
    ensures Accounted(Do(s, Apply(0, stop)), k)
  {
  }

  lemma {:induction false} LocalKeepsAccount(s: State, step: Step, k: HashKey)
    requires Enabled(s, step) && OneProcessor(step) && !step.Call? && !step.Apply? && Accounted(s, k)
    ensures Accounted(Do(s, step), k)
  {
    var s' := Do(s, step);
    assert s'.created == s.created && s'.deleted == s.deleted && s.discovered <= s'.discovered;
  }

  lemma {:induction false} StepKeepsStamps(s: State, step: Step)
    requires StampsOk(s) && Enabled(s, step) && OneProcessor(step)
    ensures StampsOk(Do(s, step))
  {
    if step.Call? {
      CallKeepsStamps(s, step.call);
    } else {
      var s' := Do(s, step);
      assert s'.created == s.created && s'.deleted == s.deleted && s'.clock == s.clock;
    }
  }

  lemma {:induction false} StepKeepsAccount(s: State, step: Step, k: HashKey)
    requires StampsOk(s) && Enabled(s, step) && OneProcessor(step) && Accounted(s, k)
    requires step.Apply? && s.PhaseOf(0).msg.IndexDelete? && k in s.PhaseOf(0).msg.keys ==> k in s.discovered
    ensures Accounted(Do(s, step), k)
  {
    if step.Call? {
      CallKeepsAccount(s, step.call, k);
    } else if step.Apply? {
      ApplyKeepsAccount(s, step.stop, k);
    } else {
      LocalKeepsAccount(s, step, k);
    }
  }

  /** A key that is known after a step was known before, or was held by a receiver, or is queued by the step. */
  lemma {:induction false} KnownBefore(s: State, step: Step, k: HashKey)
    requires Enabled(s, step) && k in Do(s, step).known
    ensures k in s.known || (exists r :: Holds(s, r, k)) || k in Do(s, step).discovered
    ensures step.Apply? && s.PhaseOf(step.p).msg.IndexDelete? ==> k !in s.PhaseOf(step.p).msg.keys
  {
    if step.UpdateKnown? && k !in s.known {
      assert Holds(s, step.r, k);
    }
  }

  lemma {:induction false} HeldBefore(s: State, step: Step, r: nat, k: HashKey)
    requires Enabled(s, step) && Holds(Do(s, step), r, k)
    ensures Holds(s, r, k) || k in s.known || k in Do(s, step).discovered
    ensures step.Apply? ==> Holds(s, r, k)
  {
  }

  lemma {:induction false} OrderlyStepKeeps(s: State, step: Step)
    requires Lawful(s) && Enabled(s, step) && OneProcessor(step) && Orderly(s, step)
    ensures Lawful(Do(s, step))
  {
    var s' := Do(s, step);
    StepKeepsStamps(s, step);
    forall k | k in s'.known ensures Accounted(s', k) {
      KnownBefore(s, step, k);
      if k !in s'.discovered {
        StepKeepsAccount(s, step, k);
      }
    }
    forall r, k | Holds(s', r, k) ensures Accounted(s', k) {
      HeldBefore(s, step, r, k);
      if k !in s'.discovered {
        StepKeepsAccount(s, step, k);
      }
    }
  }

  /** With one processor and any number of receivers, each lock taken on its own: in every run that completes no delete
      round while a receiver holds one of its keys, every known key is at all times queued in discovered, or its last
      acknowledged create is newer than its last acknowledged delete, or it is in the delete round being completed. */
  lemma {:induction false} KnownKeysIndexed(states: seq<State>, steps: seq<Step>, i: nat)
    requires IsRun(states, steps) && i < |states|
    requires forall j | 0 <= j < |steps| :: OneProcessor(steps[j]) && Orderly(states[j], steps[j])
    ensures Lawful(states[i]) && KnownIsIndexed(states[i])
  {
    if i > 0 {
      KnownKeysIndexed(states, steps, i - 1);
      assert OneProcessor(steps[i - 1]) && states[i] == Do(states[i - 1], steps[i - 1]);
      OrderlyStepKeeps(states[i - 1], steps[i - 1]);
    }
  }

  /** And only in those: completing a delete round while a receiver holds one of its keys, its next update keeps the law
      exactly when the key is queued again. */
  lemma {:induction false} LateUpdateLawfulIff(s: State, stop: bool, r: nat, k: HashKey)
    requires Lawful(s) && Enabled(s, Apply(0, stop)) && BeingDropped(s, k) && Holds(s, r, k)
    ensures var dropped := Do(s, Apply(0, stop));
            && Enabled(dropped, UpdateKnown(r))
            && (KnownIsIndexed(Do(dropped, UpdateKnown(r))) <==> k in s.discovered)
  {
    var dropped := Do(s, Apply(0, stop));
    var after := Do(dropped, UpdateKnown(r));
    assert k in after.known && !BeingDropped(after, k) && !Indexed(after, k);
    forall l | l in after.known && l != k ensures Accounted(after, l) {
      assert l in s.known && Accounted(s, l);
    }
  }

  /** A series received in one step. */
  predicate OneStepReceive(step: Step) {
    !step.Check? && !step.AddDiscovered? && !step.UpdateKnown?
  }

  /** If every series is received in one step, all runs of one processor are of that kind. */
  lemma {:induction false} OneStepReceivesAreOrderly(states: seq<State>, steps: seq<Step>, i: nat)
    requires IsRun(states, steps) && i < |states|
    requires forall j | 0 <= j < |steps| :: OneStepReceive(steps[j])
    ensures states[i].receivers == map[] && (i < |steps| ==> Orderly(states[i], steps[i]))
  {
    if i > 0 {
      OneStepReceivesAreOrderly(states, steps, i - 1);
      assert OneStepReceive(steps[i - 1]) && states[i] == Do(states[i - 1], steps[i - 1]);
    }
  }
}
