/** Runs that the sync protocol can take: an acknowledged round, and the race that its law about known keys has to
    exclude, in which a delete round is completed while a receiver holds one of its keys and the receiver's late update
    brings back what the backend was just told to delete. */
module SyncRuns {
  import opened Text
  import opened Tracker
  import opened IndexSync
  import C = Correlation

  /** The steps lead from one state to the other. */
  ghost predicate Reaches(s: State, steps: seq<Step>, t: State)
    decreases |steps|
  {
    if steps == [] then s == t else Enabled(s, steps[0]) && Reaches(Do(s, steps[0]), steps[1..], t)
  }

  lemma {:induction false} OneStep(s: State, step: Step)
    requires Enabled(s, step)
    ensures Reaches(s, [step], Do(s, step))
  {
    assert [step][1..] == [];
  }

  lemma {:induction false} Then(s: State, a: seq<Step>, t: State, b: seq<Step>, u: State)
    requires Reaches(s, a, t) && Reaches(t, b, u)
    ensures Reaches(s, a + b, u)
    decreases |a|
  {
    if a == [] {
      assert a + b == b;
    } else {
      assert (a + b)[0] == a[0] && (a + b)[1..] == a[1..] + b;
      Then(Do(s, a[0]), a[1..], t, b, u);
    }
  }

  /** A processor about to send can be answered: what one answered call changes. */
  ghost predicate AnsweredFrom(s: State, t: State, p: nat) {
    && s.PhaseOf(p).Calling? && t.PhaseOf(p).Answered?
    && t.PhaseOf(p).msg == s.PhaseOf(p).msg && t.PhaseOf(p).active == s.PhaseOf(p).active
    && t.known == s.known && t.discovered == s.discovered && t.receivers == s.receivers
    && t.clock == s.clock + 1 && t.corr.SenderOf(p).Idle?
    && (s.PhaseOf(p).msg.IndexDelete? ==>
          t.created == s.created && t.deleted == Stamp(s.deleted, s.PhaseOf(p).msg.keys, t.clock))
    && (s.PhaseOf(p).msg.IndexCreate? ==> t.created == Stamp(s.created, s.PhaseOf(p).msg.keys, t.clock))
  }

  /** The call up to the point where the message is out. */
  lemma {:induction false} CallGoesOut(s: State, p: nat) returns (t: State, steps: seq<Step>)
    requires s.PhaseOf(p).Calling? && s.corr.SenderOf(p).Idle? && s.corr.issued + 1 < C.ID_SPACE
    ensures Reaches(s, steps, t)
    ensures t == s.(corr := t.corr) && t.corr.issued == s.corr.issued + 1
    ensures var id := t.corr.issued;
            && t.corr.SenderOf(p) == C.Waiting(id) && id in t.corr.pending && id in t.corr.slots
            && t.corr.slots[id].None? && t.corr.msgs == s.corr.msgs[id := s.PhaseOf(p).msg]
  {
    var msg := s.PhaseOf(p).msg;
    var a, b, c := Call(p, C.TakeId(p, msg)), Call(p, C.Register(p)), Call(p, C.Send(p, C.Sent));
    var s1 := Do(s, a);
    OneStep(s, a);
    assert s1.corr.SenderOf(p) == C.HasId(s.corr.issued + 1) && s1.PhaseOf(p) == s.PhaseOf(p);
    var s2 := Do(s1, b);
    OneStep(s1, b);
    Then(s, [a], s1, [b], s2);
    assert s2.corr.SenderOf(p) == C.Registered(s.corr.issued + 1) && s2.PhaseOf(p) == s.PhaseOf(p);
    t := Do(s2, c);
    OneStep(s2, c);
    steps := [a] + [b] + [c];
    Then(s, [a] + [b], s2, [c], t);
  }

  /** The answer arrives and is put in the sender's channel. */
  lemma {:induction false} AnswerArrives(s: State, id: C.Id) returns (t: State, steps: seq<Step>)
    requires id != 0 && id in s.corr.pending && id in s.corr.slots && s.corr.slots[id].None?
    ensures Reaches(s, steps, t)
    ensures t == s.(corr := t.corr) && t.corr.issued == s.corr.issued && t.corr.senders == s.corr.senders
    ensures t.corr.msgs == s.corr.msgs
    ensures id in t.corr.slots && t.corr.slots[id] == Some(C.Ack(id, true))
  {
    var a, b := Wire(C.Resolve(C.Ack(id, true))), Wire(C.Deliver(id));
    var s1 := Do(s, a);
    OneStep(s, a);
    assert id in s1.corr.delivering && s1.corr.slots == s.corr.slots;
    t := Do(s1, b);
    OneStep(s1, b);
    steps := [a] + [b];
    Then(s, [a], s1, [b], t);
  }

  lemma {:induction false} SenderReturns(s: State, p: nat) returns (t: State, steps: seq<Step>)
    requires s.PhaseOf(p).Calling? && s.corr.SenderOf(p).Waiting?
    requires var id := s.corr.SenderOf(p).id; id in s.corr.slots && s.corr.slots[id].Some?
    ensures Reaches(s, steps, t)
    ensures t.corr.issued == s.corr.issued && t.corr.msgs == s.corr.msgs && AnsweredFrom(s, t, p)
  {
    var a, b := Call(p, C.TakeAck(p)), Call(p, C.CleanUp(p));
    var s1 := Do(s, a);
    OneStep(s, a);
    assert s1.corr.SenderOf(p).Returning? && s1.corr.SenderOf(p).result.Some? && s1.PhaseOf(p) == s.PhaseOf(p);
    t := Do(s1, b);
    OneStep(s1, b);
    steps := [a] + [b];
    Then(s, [a], s1, [b], t);
  }

  /** A whole call: sent, answered, and the answer in hand. */
  lemma {:induction false} CallCompletes(s: State, p: nat) returns (t: State, steps: seq<Step>)
    requires s.PhaseOf(p).Calling? && s.corr.SenderOf(p).Idle? && s.corr.issued + 1 < C.ID_SPACE
    ensures Reaches(s, steps, t) && AnsweredFrom(s, t, p) && t.corr.issued == s.corr.issued + 1
    ensures t.corr.msgs == s.corr.msgs[t.corr.issued := s.PhaseOf(p).msg]
  {
    var s1, a := CallGoesOut(s, p);
    var s2, b := AnswerArrives(s1, s1.corr.issued);
    Then(s, a, s1, b, s2);
    var c;
    t, c := SenderReturns(s2, p);
    Then(s, a + b, s2, c, t);
    steps := a + b + c;
  }

  /** The processor rests and no call of it is open. */
  predicate Quiet(s: State) {
    s.PhaseOf(0).Resting? && s.corr.SenderOf(0).Idle?
  }

  predicate CreatesInPast(s: State) {
    forall k | k in s.created :: s.created[k] <= s.clock
  }

  /** The processor reports a discovered key. */
  lemma {:induction false} ReportsKey(s: State, k: HashKey) returns (t: State, steps: seq<Step>)
    requires Quiet(s) && CreatesInPast(s) && k in s.discovered && s.corr.issued + 1 < C.ID_SPACE
    ensures Reaches(s, steps, t) && Quiet(t) && CreatesInPast(t) && t.corr.issued == s.corr.issued + 1
    ensures t.known == s.known && t.receivers == s.receivers && k !in t.discovered
  {
    var choose := SelectDiscovered(0, {k});
    var s1 := Do(s, choose);
    OneStep(s, choose);
    var s2, call := CallCompletes(s1, 0);
    Then(s, [choose], s1, call, s2);
    var apply := Apply(0, false);
    t := Do(s2, apply);
    OneStep(s2, apply);
    steps := [choose] + call + [apply];
    Then(s, [choose] + call, s2, [apply], t);
  }

  /** The processor finds the key inactive, has its deletion acknowledged, and drops it. */
  lemma {:induction false} DeletesKey(s: State, k: HashKey) returns (t: State, steps: seq<Step>)
    requires Quiet(s) && k in s.known && s.corr.issued + 1 < C.ID_SPACE
    ensures Reaches(s, steps, t) && Quiet(t) && t.receivers == s.receivers && t.discovered == s.discovered
    ensures t.created == s.created && k in t.deleted && t.deleted[k] == s.clock + 1
  {
    var look, choose := SelectActive(0, {}), SelectInactive(0, {k});
    var s1 := Do(s, look);
    OneStep(s, look);
    var s2 := Do(s1, choose);
    OneStep(s1, choose);
    Then(s, [look], s1, [choose], s2);
    var s3, call := CallCompletes(s2, 0);
    Then(s, [look] + [choose], s2, call, s3);
    var apply := Apply(0, true);
    t := Do(s3, apply);
    OneStep(s3, apply);
    steps := [look] + [choose] + call + [apply];
    Then(s, [look] + [choose] + call, s3, [apply], t);
  }

  // ----- a whole round -----

  /** From `s` to the quiet state `t` the given messages went out, in this order, with consecutive ids. */
  ghost predicate Told(s: State, t: State, messages: seq<Msg>) {
    && Quiet(t) && t.discovered == s.discovered && t.corr.issued == s.corr.issued + |messages|
    && forall i | 0 <= i < |messages| :: SentAs(t, s.corr.issued + 1 + i, messages[i])
  }

  ghost predicate SentAs(t: State, id: C.Id, msg: Msg) {
    id in t.corr.msgs && t.corr.msgs[id] == msg
  }

  /** What a round has to say: first the deletion, then the update, and neither without keys. */
  function Messages(inactive: set<HashKey>, active: set<HashKey>): seq<Msg> {
    (if inactive == {} then [] else [IndexDelete(inactive)]) + (if active == {} then [] else [IndexUpdate(active)])
  }

  lemma {:induction false} UpdateGoesOut(s: State, active: set<HashKey>) returns (t: State, steps: seq<Step>)
    requires s.corr.SenderOf(0).Idle? && s.corr.issued + 1 < C.ID_SPACE && active != {}
    requires s.PhaseOf(0) == Calling(IndexUpdate(active), {})
    ensures Reaches(s, steps, t) && Told(s, t, [IndexUpdate(active)]) && t.known == s.known
    ensures t.corr.msgs == s.corr.msgs[t.corr.issued := IndexUpdate(active)]
  {
    var s1, call := CallCompletes(s, 0);
    var apply := Apply(0, false);
    t := Do(s1, apply);
    OneStep(s1, apply);
    steps := call + [apply];
    Then(s, call, s1, [apply], t);
  }

  /** The deletion is acknowledged and completed; the chosen active keys are next. */
  lemma {:induction false} DeleteGoesOut(s: State, inactive: set<HashKey>, active: set<HashKey>)
    returns (t: State, steps: seq<Step>)
    requires s.corr.SenderOf(0).Idle? && s.corr.issued + 1 < C.ID_SPACE
    requires s.PhaseOf(0) == Calling(IndexDelete(inactive), active)
    ensures Reaches(s, steps, t) && t.known == s.known - inactive && t.discovered == s.discovered
    ensures t.corr.SenderOf(0).Idle? && t.corr.issued == s.corr.issued + 1
    ensures t.corr.msgs == s.corr.msgs[t.corr.issued := IndexDelete(inactive)]
    ensures t.PhaseOf(0) == if active == {} then Resting else Calling(IndexUpdate(active), {})
  {
    var s1, call := CallCompletes(s, 0);
    var apply := Apply(0, false);
    t := Do(s1, apply);
    OneStep(s1, apply);
    steps := call + [apply];
    Then(s, call, s1, [apply], t);
  }

  lemma {:induction false} KeysChosen(s: State, active: set<HashKey>, inactive: set<HashKey>)
    returns (t: State, steps: seq<Step>)
    requires Quiet(s) && active <= s.known && inactive <= s.known
    ensures Reaches(s, steps, t) && t == s.(procs := t.procs)
    ensures t.PhaseOf(0) == if inactive != {} then Calling(IndexDelete(inactive), active)
                            else if active != {} then Calling(IndexUpdate(active), {}) else Resting
  {
    var look, choose := SelectActive(0, active), SelectInactive(0, inactive);
    var s1 := Do(s, look);
    OneStep(s, look);
    t := Do(s1, choose);
    OneStep(s1, choose);
    steps := [look] + [choose];
    Then(s, [look], s1, [choose], t);
  }

  /** What is left of a round once the deletion is out of the way: the update, if there is something to update. */
  lemma {:induction false} RoundEnds(s: State, active: set<HashKey>) returns (t: State, steps: seq<Step>)
    requires s.corr.SenderOf(0).Idle? && s.corr.issued + 1 < C.ID_SPACE
    requires s.PhaseOf(0) == if active == {} then Resting else Calling(IndexUpdate(active), {})
    ensures Reaches(s, steps, t) && Told(s, t, Messages({}, active)) && t.known == s.known
    ensures forall id | id in s.corr.msgs && id <= s.corr.issued :: id in t.corr.msgs && t.corr.msgs[id] == s.corr.msgs[id]
  {
    t, steps := s, [];
    if active != {} {
      t, steps := UpdateGoesOut(s, active);
    }
  }

  /** One message and then others. */
  lemma {:induction false} ToldMore(s: State, m: State, t: State, first: Msg, rest: seq<Msg>)
    requires m.corr.issued == s.corr.issued + 1 && m.corr.msgs == s.corr.msgs[m.corr.issued := first]
    requires m.discovered == s.discovered && Told(m, t, rest)
    requires forall id | id in m.corr.msgs && id <= m.corr.issued :: id in t.corr.msgs && t.corr.msgs[id] == m.corr.msgs[id]
    ensures Told(s, t, [first] + rest)
  {
    var messages := [first] + rest;
    forall i | 0 <= i < |messages| ensures SentAs(t, s.corr.issued + 1 + i, messages[i]) {
      if i > 0 {
        assert SentAs(t, m.corr.issued + 1 + (i - 1), rest[i - 1]);
      }
    }
  }

  /** A round over the known cache that is acknowledged throughout: the backend is told to delete exactly the inactive
      keys and then to update exactly the active ones, neither message is sent empty, and the cache loses exactly the
      inactive keys. */
  lemma {:induction false} RoundCompletes(s: State, active: set<HashKey>, inactive: set<HashKey>)
    returns (t: State, steps: seq<Step>)
    requires Quiet(s) && active <= s.known && inactive <= s.known && s.corr.issued + 2 < C.ID_SPACE
    ensures Reaches(s, steps, t) && t.known == s.known - inactive
    ensures Told(s, t, Messages(inactive, active))
  {
    var s1, a := KeysChosen(s, active, inactive);
    assert s1.corr == s.corr && s1.discovered == s.discovered && s1.known == s.known;
    var c;
    if inactive == {} {
      t, c := RoundEnds(s1, active);
      Then(s, a, s1, c, t);
      steps := a + c;
      ToldFrom(s, s1, t, Messages({}, active));
    } else {
      var s2, b := DeleteGoesOut(s1, inactive, active);
      Then(s, a, s1, b, s2);
      t, c := RoundEnds(s2, active);
      Then(s, a + b, s2, c, t);
      steps := a + b + c;
      ToldMore(s, s2, t, IndexDelete(inactive), Messages({}, active));
      assert Messages(inactive, active) == [IndexDelete(inactive)] + Messages({}, active);
    }
  }

  lemma {:induction false} ToldFrom(s: State, m: State, t: State, messages: seq<Msg>)
    requires m.corr.issued == s.corr.issued && m.discovered == s.discovered && Told(m, t, messages)
    ensures Told(s, t, messages)
  {
  }

  // ----- the race -----

  /** From every quiet state with a known key and a free receiver, the interleaved protocol can reach one in which the
      key is known but neither queued nor indexed: the receiver sees the key known, the processor deletes it, and the
      receiver's update brings it back. */
  lemma {:induction false} LateUpdateStrandsKey(s: State, r: nat, k: HashKey) returns (t: State, steps: seq<Step>)
    requires Quiet(s) && CreatesInPast(s) && k in s.known && s.ReceiverOf(r).Free? && s.corr.issued + 2 < C.ID_SPACE
    ensures Reaches(s, steps, t)
    ensures k in t.known && k !in t.discovered && !Indexed(t, k) && !BeingDropped(t, k)
  {
    var s1, a := s, [];
    if k in s.discovered {
      s1, a := ReportsKey(s, k);
    }
    var see, bring := Check(r, k), UpdateKnown(r);
    var s2 := Do(s1, see);
    OneStep(s1, see);
    Then(s, a, s1, [see], s2);
    var s3, b := DeletesKey(s2, k);
    Then(s, a + [see], s2, b, s3);
    t := Do(s3, bring);
    OneStep(s3, bring);
    steps := a + [see] + b + [bring];
    Then(s, a + [see] + b, s3, [bring], t);
  }

  /** It happens from the very start: a run of the protocol strands a key. */
  lemma {:induction false} SomeRunStrandsKey(r: nat, k: HashKey) returns (t: State, steps: seq<Step>)
    ensures Reaches(Init(), steps, t) && !KnownIsIndexed(t)
  {
    var s := Do(Init(), Receive(k));
    OneStep(Init(), Receive(k));
    var more;
    t, more := LateUpdateStrandsKey(s, r, k);
    Then(Init(), [Receive(k)], s, more, t);
    steps := [Receive(k)] + more;
  }
}
