/** Requests over the control stream: correlation ids, the table of pending requests, one-slot answer channels.
    Each critical section and each channel operation is one step; any number of senders run at once. */
module Correlation {
  import opened Text

  type Id = nat

  /** Ids are 64-bit unsigned. */
  const ID_SPACE := 0x1_0000_0000_0000_0000

  datatype Ack = Ack(id: Id, success: bool)

  /** Where one sendAndWaitAck call stands. */
  datatype Sender =
    | Idle
    | HasId(id: Id)
    | Registered(id: Id)
    | Waiting(id: Id)
    | Returning(id: Id, result: Option<Ack>)

  datatype SendOutcome = Sent | NoStream | Failed

  /** `pending`, `slots` and `delivering` are the running state; the sets below record what happened.
      A request is in `delivering` between being taken from the table and being written to its channel. */
  datatype State<M> = State(
    issued: nat,
    senders: map<nat, Sender>,
    pending: set<Id>,
    slots: map<Id, Option<Ack>>,
    delivering: map<Id, Ack>,
    msgs: map<Id, M>,
    wire: set<Id>,
    acked: set<Id>,
    registered: set<Id>,
    resolved: set<Id>,
    written: set<Id>,
    returned: set<Id>)
  {
    function SenderOf(t: nat): Sender {
      if t in senders then senders[t] else Idle
    }

    /** corrSeq after the next increment. */
    function NextId(): Id {
      (issued + 1) % ID_SPACE
    }
  }

  function Init<M>(): State<M> {
    State(0, map[], {}, map[], map[], map[], {}, {}, {}, {}, {}, {})
  }

  datatype Step<M> =
    | TakeId(t: nat, msg: M)
    | Register(t: nat)
    | Send(t: nat, outcome: SendOutcome)
    | TakeAck(t: nat)
    | TimeOut(t: nat)
    | CleanUp(t: nat)
    | Resolve(ack: Ack)   // an Ack arrives from the server, at any time, with any id
    | Deliver(id: Id)

  predicate Enabled<M>(s: State<M>, step: Step<M>) {
    match step
    case TakeId(t, _) => s.SenderOf(t).Idle?
    case Register(t) => s.SenderOf(t).HasId?
    case Send(t, _) => s.SenderOf(t).Registered?
    case TakeAck(t) =>
      var c := s.SenderOf(t);
      c.Waiting? && c.id in s.slots && s.slots[c.id].Some?
    case TimeOut(t) => s.SenderOf(t).Waiting?
    case CleanUp(t) => s.SenderOf(t).Returning?
    case Resolve(_) => true
    case Deliver(id) => id in s.delivering && id in s.slots && s.slots[id].None?   // a full slot would block
  }

  function Do<M>(s: State<M>, step: Step<M>): State<M>
    requires Enabled(s, step)
  {
    match step
    case TakeId(t, msg) =>
      var id := s.NextId();
      s.(issued := s.issued + 1, senders := s.senders[t := HasId(id)], msgs := s.msgs[id := msg])
    case Register(t) =>
      var id := s.SenderOf(t).id;
      s.(senders := s.senders[t := Registered(id)], pending := s.pending + {id}, slots := s.slots[id := None],
         registered := s.registered + {id})
    case Send(t, outcome) =>
      var id := s.SenderOf(t).id;
      s.(senders := s.senders[t := if outcome.Failed? then Returning(id, None) else Waiting(id)],
         wire := if outcome.Sent? then s.wire + {id} else s.wire)
    case TakeAck(t) =>
      var id := s.SenderOf(t).id;
      s.(senders := s.senders[t := Returning(id, s.slots[id])], slots := s.slots[id := None])
    case TimeOut(t) => s.(senders := s.senders[t := Returning(s.SenderOf(t).id, None)])
    case CleanUp(t) =>
      var id := s.SenderOf(t).id;
      s.(senders := s.senders[t := Idle], pending := s.pending - {id}, returned := s.returned + {id})
    case Resolve(ack) =>
      if ack.id == 0 || ack.id !in s.pending then s.(acked := s.acked + {ack.id})
      else
        s.(acked := s.acked + {ack.id}, pending := s.pending - {ack.id}, delivering := s.delivering[ack.id := ack],
           resolved := s.resolved + {ack.id})
    case Deliver(id) =>
      s.(slots := s.slots[id := Some(s.delivering[id])], delivering := s.delivering - {id}, written := s.written + {id})
  }

  // ----- what every step keeps -----

  ghost predicate SenderOk<M>(s: State<M>, c: Sender) {
    c.Idle? ||
    (1 <= c.id <= s.issued && c.id in s.msgs && c.id !in s.returned && (c.id in s.registered <==> !c.HasId?))
  }

  /** No two calls share an id. */
  ghost predicate OwnIds<M>(s: State<M>) {
    forall t, u | t != u && !s.SenderOf(t).Idle? && !s.SenderOf(u).Idle? :: s.SenderOf(t).id != s.SenderOf(u).id
  }

  ghost predicate TableOk<M>(s: State<M>) {
    && s.issued < ID_SPACE
    && (forall id | id in s.registered :: 1 <= id <= s.issued)
    && (forall id | id in s.msgs :: 1 <= id <= s.issued)
    && s.returned <= s.registered && s.resolved <= s.registered && s.registered <= s.msgs.Keys
    && s.wire <= s.registered
    && s.pending == s.registered - s.resolved - s.returned
  }

  ghost predicate ChannelsOk<M>(s: State<M>) {
    && s.slots.Keys == s.registered
    && s.resolved == s.delivering.Keys + s.written && s.delivering.Keys !! s.written
    && (forall id | id in s.slots && s.slots[id].Some? :: id in s.written && s.slots[id].value.id == id)
    && (forall id | id in s.delivering :: s.delivering[id].id == id)
    && s.resolved <= s.acked
  }

  /** A call about to return an Ack returns its own. */
  ghost predicate AnswersOk<M>(s: State<M>) {
    forall t | t in s.senders && s.senders[t].Returning? && s.senders[t].result.Some? ::
      s.senders[t].result.value.id == s.senders[t].id && s.senders[t].id in s.acked
  }

  ghost predicate Inv<M>(s: State<M>) {
    (forall t :: SenderOk(s, s.SenderOf(t))) && OwnIds(s) && TableOk(s) && ChannelsOk(s) && AnswersOk(s)
  }

  lemma {:induction false} StepKeepsSender<M>(s: State<M>, step: Step<M>, t: nat)
    requires Inv(s) && Enabled(s, step) && Do(s, step).issued < ID_SPACE
    ensures SenderOk(Do(s, step), Do(s, step).SenderOf(t))
  {
    assert SenderOk(s, s.SenderOf(t));
    match step
    case TakeId(u, _) => assert SenderOk(s, s.SenderOf(u));
    case Register(u) => assert SenderOk(s, s.SenderOf(u));
    case CleanUp(u) => assert SenderOk(s, s.SenderOf(u));
    case _ =>
  }

  lemma {:induction false} StepKeepsOwnIds<M>(s: State<M>, step: Step<M>)
    requires Inv(s) && Enabled(s, step) && Do(s, step).issued < ID_SPACE
    ensures OwnIds(Do(s, step))
  {
    var s' := Do(s, step);
    forall t, u | t != u && !s'.SenderOf(t).Idle? && !s'.SenderOf(u).Idle?
      ensures s'.SenderOf(t).id != s'.SenderOf(u).id
    {
      assert SenderOk(s, s.SenderOf(t)) && SenderOk(s, s.SenderOf(u));
    }
  }

  lemma {:induction false} StepKeepsTable<M>(s: State<M>, step: Step<M>)
    requires Inv(s) && Enabled(s, step) && Do(s, step).issued < ID_SPACE
    ensures TableOk(Do(s, step))
  {
  }

  lemma {:induction false} StepKeepsChannels<M>(s: State<M>, step: Step<M>)
    requires Inv(s) && Enabled(s, step) && Do(s, step).issued < ID_SPACE
    ensures ChannelsOk(Do(s, step)) && AnswersOk(Do(s, step))
  {
  }

  lemma {:induction false} StepKeepsInv<M>(s: State<M>, step: Step<M>)
    requires Inv(s) && Enabled(s, step) && Do(s, step).issued < ID_SPACE
    ensures Inv(Do(s, step))
  {
    forall t ensures SenderOk(Do(s, step), Do(s, step).SenderOf(t)) {
      StepKeepsSender(s, step, t);
    }
    StepKeepsOwnIds(s, step);
    StepKeepsTable(s, step);
    StepKeepsChannels(s, step);
  }

  // ----- whole runs -----

  /** The states a sequence of steps goes through, if every step is possible when it is taken. */
  ghost predicate IsRun<M>(states: seq<State<M>>, steps: seq<Step<M>>) {
    && |states| == |steps| + 1 && states[0] == Init()
    && forall i | 0 <= i < |steps| :: Enabled(states[i], steps[i]) && states[i + 1] == Do(states[i], steps[i])
  }

  lemma {:induction false} IssuedGrows<M>(states: seq<State<M>>, steps: seq<Step<M>>, i: nat)
    requires IsRun(states, steps) && i < |states|
    ensures states[i].issued <= states[|states| - 1].issued
    decreases |states| - i
  {
    if i < |steps| {
      IssuedGrows(states, steps, i + 1);
      assert states[i + 1] == Do(states[i], steps[i]);
    }
  }

  lemma {:induction false} RunKeepsInv<M>(states: seq<State<M>>, steps: seq<Step<M>>, i: nat)
    requires IsRun(states, steps) && i < |states| && states[|states| - 1].issued < ID_SPACE
    ensures Inv(states[i])
  {
    if i > 0 {
      RunKeepsInv(states, steps, i - 1);
      IssuedGrows(states, steps, i);
      assert states[i] == Do(states[i - 1], steps[i - 1]);
      StepKeepsInv(states[i - 1], steps[i - 1]);
    }
  }

  /** In every run that issues fewer than 2^64 ids: a call returns an Ack only if the Ack carries the call's own id and
      the server sent it; writing an Ack to its channel never blocks; each channel is written at most once; and the table
      holds exactly the requests registered and neither resolved nor returned. */
  lemma {:induction false} RequestsAreSafe<M>(states: seq<State<M>>, steps: seq<Step<M>>, i: nat)
    requires IsRun(states, steps) && i < |states| && states[|states| - 1].issued < ID_SPACE
    ensures var s := states[i];
            && (forall t | t in s.senders && s.senders[t].Returning? && s.senders[t].result.Some? ::
                  s.senders[t].result.value.id == s.senders[t].id && s.senders[t].id in s.acked)
            && (forall id | id in s.delivering :: Enabled(s, Deliver(id)) && id !in s.written)
            && s.pending == s.registered - s.resolved - s.returned
  {
    RunKeepsInv(states, steps, i);
  }

  /** And answers do arrive: in every reachable state an Ack for a pending request can be resolved, delivered and taken at
      once, and the waiting sender returns that very Ack, success flag included. */
  lemma {:induction false} AnswerReturns<M>(s: State<M>, t: nat, success: bool)
    requires Inv(s) && s.SenderOf(t).Waiting? && s.SenderOf(t).id in s.pending
    ensures var ack := Ack(s.SenderOf(t).id, success);
            var s1 := Do(s, Resolve(ack));
            && Enabled(s1, Deliver(ack.id))
            && (var s2 := Do(s1, Deliver(ack.id));
                Enabled(s2, TakeAck(t)) && Do(s2, TakeAck(t)).SenderOf(t) == Returning(ack.id, Some(ack)))
  {
    assert SenderOk(s, s.SenderOf(t));
    assert s.SenderOf(t).id !in s.written;
  }

  /** A request that nobody waits for is answered into the void: an Ack with an unknown id changes no request. */
  lemma {:induction false} StrayAckIgnored<M>(s: State<M>, ack: Ack)
    requires ack.id !in s.pending
    ensures var s' := Do(s, Resolve(ack));
            s'.pending == s.pending && s'.slots == s.slots && s'.delivering == s.delivering && s'.senders == s.senders
  {
  }
}
