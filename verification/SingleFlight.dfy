/**
  Fetching an action once for all callers that ask for the same input: the first one to
  register leads and fetches, the others wait for it, and a fetch whose leader was cancelled
  or panicked is repeated by somebody else.
 */
module SingleFlight {
  import opened Options

  /** What a fetch came to; a leader that panics leaves none. */
  type Outcome = nat

  datatype Phase =
    | Looping                                 // about to look at its context
    | Trying                                  // about to load or store the call
    | Leading(call: nat)                      // running the fetch
    | Fetched(call: nat)                      // the result is written
    | Recorded(call: nat)                     // so is whether to retry
    | Panicking(call: nat)
    | Deleted(call: nat, panicked: bool)      // no longer registered, still to be closed
    | Waiting(call: nat)
    | Returned(call: nat, value: Outcome)
    | ReturnedCtxErr
    | Crashed

  datatype Caller = Caller(input: nat, cancelled: bool, phase: Phase)

  /** `sound` remembers, when retry was decided, that the leader was neither cancelled nor panicking. */
  datatype Call = Call(input: nat, leader: nat, result: Option<Outcome>, retry: bool, closed: bool, sound: bool)

  datatype State = State(callers: map<nat, Caller>, calls: map<nat, Call>, registry: map<nat, nat>)

  datatype Step =
    | Arrive(k: nat, input: nat)
    | Cancel(k: nat)
    | CheckContext(k: nat)
    | LoadOrStore(k: nat, id: nat)
    | FetchEnds(k: nat, value: Outcome)
    | Panic(k: nat)
    | Record(k: nat)
    | Delete(k: nat)
    | Close(k: nat)
    | WakeByDone(k: nat)
    | WakeByContext(k: nat)

  function At(s: State, k: nat, phase: Phase): State
    requires k in s.callers
  {
    s.(callers := s.callers[k := s.callers[k].(phase := phase)])
  }

  ghost predicate Next(s: State, step: Step, s': State) {
    match step
    case Arrive(k, input) =>
      k !in s.callers && s' == s.(callers := s.callers[k := Caller(input, false, Looping)])
    case _ =>
      step.k in s.callers && NextOf(s, step, s.callers[step.k], s')
  }

  ghost predicate NextOf(s: State, step: Step, c: Caller, s': State)
    requires step.k in s.callers && c == s.callers[step.k]
  {
    match step
    case Arrive(_, _) => false
    case Cancel(k) =>
      s' == s.(callers := s.callers[k := c.(cancelled := true)])
    case CheckContext(k) =>
      c.phase.Looping? && s' == At(s, k, if c.cancelled then ReturnedCtxErr else Trying)
    case LoadOrStore(k, id) =>
      && c.phase.Trying?
      && if c.input in s.registry then
           s' == At(s, k, Waiting(s.registry[c.input]))
         else
           && id !in s.calls
           && s' == At(s, k, Leading(id)).(registry := s.registry[c.input := id],
                       calls := s.calls[id := Call(c.input, k, None, true, false, false)])
    case FetchEnds(k, value) =>
      && c.phase.Leading? && c.phase.call in s.calls
      && s' == At(s, k, Fetched(c.phase.call)).(calls := s.calls[c.phase.call := s.calls[c.phase.call].(result := Some(value))])
    case Panic(k) =>
      c.phase.Leading? && s' == At(s, k, Panicking(c.phase.call))
    case Record(k) =>
      && c.phase.Fetched? && c.phase.call in s.calls
      && s' == At(s, k, Recorded(c.phase.call)).(calls :=
                  s.calls[c.phase.call := s.calls[c.phase.call].(retry := c.cancelled, sound := !c.cancelled)])
    case Delete(k) =>
      && (c.phase.Recorded? || c.phase.Panicking?)
      && s' == At(s, k, Deleted(c.phase.call, c.phase.Panicking?)).(registry := s.registry - {c.input})
    case Close(k) =>
      && c.phase.Deleted? && c.phase.call in s.calls
      && var call := s.calls[c.phase.call];
         var next := if c.phase.panicked then Crashed
                     else if call.retry || call.result.None? then Looping
                     else Returned(c.phase.call, call.result.value);
         s' == At(s, k, next).(calls := s.calls[c.phase.call := call.(closed := true)])
    case WakeByDone(k) =>
      && c.phase.Waiting? && c.phase.call in s.calls && s.calls[c.phase.call].closed
      && var call := s.calls[c.phase.call];
         s' == At(s, k, if !call.retry && !c.cancelled && call.result.Some? then Returned(c.phase.call, call.result.value) else Looping)
    case WakeByContext(k) =>
      c.phase.Waiting? && c.cancelled && s' == At(s, k, Looping)
  }

  ghost predicate Init(s: State) {
    s.callers == map[] && s.calls == map[] && s.registry == map[]
  }

  // ---- invariant ----

  /** The caller is between registering its call and deleting it again. */
  predicate Holds(p: Phase) {
    p.Leading? || p.Fetched? || p.Recorded? || p.Panicking?
  }

  /** What a caller's phase says about its call. */
  ghost predicate CallerOk(s: State, k: nat)
    requires k in s.callers
  {
    var c := s.callers[k];
    && (Holds(c.phase) ==>
          && c.input in s.registry && s.registry[c.input] == c.phase.call
          && c.phase.call in s.calls && s.calls[c.phase.call].leader == k && !s.calls[c.phase.call].closed)
    && (c.phase.Leading? || c.phase.Fetched? || c.phase.Panicking? ==> s.calls[c.phase.call].retry)
    && (c.phase.Fetched? || c.phase.Recorded? ==> s.calls[c.phase.call].result.Some?)
    && (c.phase.Deleted? ==>
          && c.phase.call in s.calls && s.calls[c.phase.call].leader == k && !s.calls[c.phase.call].closed
          && (c.phase.panicked ==> s.calls[c.phase.call].retry)
          && (!c.phase.panicked ==> s.calls[c.phase.call].result.Some?))
    && (c.phase.Waiting? ==> c.phase.call in s.calls && s.calls[c.phase.call].input == c.input)
    && (c.phase.Returned? ==>
          && c.phase.call in s.calls && s.calls[c.phase.call].input == c.input
          && s.calls[c.phase.call].closed && !s.calls[c.phase.call].retry
          && s.calls[c.phase.call].result == Some(c.phase.value))
    && (c.phase.ReturnedCtxErr? ==> c.cancelled)
  }

  /** What a call's flags say about its leader. */
  ghost predicate CallOk(s: State, id: nat)
    requires id in s.calls
  {
    var call := s.calls[id];
    && (call.retry <==> !call.sound)
    && (!call.retry ==> call.result.Some?)
    && (call.closed ==> forall i <- s.registry :: s.registry[i] != id)
    // a call still open has a leader that will close it
    && (!call.closed ==> LedBy(s, call.leader, id, call.input))
  }

  /** Caller `k` is still at work on call `id`. */
  ghost predicate LedBy(s: State, k: nat, id: nat, input: nat) {
    && k in s.callers && s.callers[k].input == input
    && (Holds(s.callers[k].phase) || s.callers[k].phase.Deleted?) && s.callers[k].phase.call == id
  }

  /** What is registered is open and its leader has not deleted it. */
  ghost predicate RegistryOk(s: State, i: nat)
    requires i in s.registry
  {
    var id := s.registry[i];
    && id in s.calls && s.calls[id].input == i && !s.calls[id].closed
    && s.calls[id].leader in s.callers && Holds(s.callers[s.calls[id].leader].phase)
  }

  ghost predicate Inv(s: State) {
    && (forall k <- s.callers :: CallerOk(s, k))
    && (forall id <- s.calls :: CallOk(s, id))
    && (forall i <- s.registry :: RegistryOk(s, i))
  }

  /** A caller that registers its call, or finds one registered. */
  lemma {:induction false} JoiningCaller(s: State, k: nat, id: nat, s': State)
    requires Inv(s) && Next(s, LoadOrStore(k, id), s')
    ensures k in s'.callers && CallerOk(s', k)
  {
    assert CallerOk(s, k);
    var c := s.callers[k];
    assert c.input in s.registry ==> RegistryOk(s, c.input);
  }

  /** A caller that leads, up to the moment it is no longer registered. */
  lemma {:induction false} LeadingCaller(s: State, step: Step, s': State)
    requires Inv(s) && Next(s, step, s') && (step.FetchEnds? || step.Panic? || step.Record? || step.Delete?)
    ensures step.k in s'.callers && CallerOk(s', step.k)
  {
    assert CallerOk(s, step.k);
  }

  lemma {:induction false} ClosingCaller(s: State, k: nat, s': State)
    requires Inv(s) && Next(s, Close(k), s')
    ensures k in s'.callers && CallerOk(s', k)
  {
    assert CallerOk(s, k);
    var id := s.callers[k].phase.call;
    assert CallOk(s, id) && LedBy(s, k, id, s.calls[id].input);
  }

  lemma {:induction false} WokenCaller(s: State, k: nat, s': State)
    requires Inv(s) && Next(s, WakeByDone(k), s')
    ensures k in s'.callers && CallerOk(s', k)
  {
    assert CallerOk(s, k);
  }

  /** The caller that takes the step. */
  lemma {:induction false} NextCaller(s: State, step: Step, s': State)
    requires Inv(s) && Next(s, step, s') && step.k in s'.callers
    ensures CallerOk(s', step.k)
  {
    match step {
      case Arrive(_, _) =>
      case LoadOrStore(k, id) => JoiningCaller(s, k, id, s');
      case Close(k) => ClosingCaller(s, k, s');
      case WakeByDone(k) => WokenCaller(s, k, s');
      case FetchEnds(_, _) => LeadingCaller(s, step, s');
      case Panic(_) => LeadingCaller(s, step, s');
      case Record(_) => LeadingCaller(s, step, s');
      case Delete(_) => LeadingCaller(s, step, s');
      case Cancel(k) => assert CallerOk(s, k);
      case CheckContext(k) => assert CallerOk(s, k);
      case WakeByContext(k) => assert CallerOk(s, k);
    }
  }

  /** A call changed by its leader alone, while it is open, concerns no other caller but to wait for it. */
  lemma {:induction false} CallBystander(s: State, step: Step, s': State, j: nat)
    requires Inv(s) && Next(s, step, s') && j in s'.callers && j != step.k
    requires step.FetchEnds? || step.Record? || step.Close?
    ensures CallerOk(s', j)
  {
    assert CallerOk(s, j) && CallerOk(s, step.k);
  }

  /** Two callers at work on one input would be at work on one call, which has one leader. */
  lemma {:induction false} DeleteBystander(s: State, k: nat, s': State, j: nat)
    requires Inv(s) && Next(s, Delete(k), s') && j in s'.callers && j != k
    ensures CallerOk(s', j)
  {
    assert CallerOk(s, j) && CallerOk(s, k);
  }

  lemma {:induction false} JoinBystander(s: State, k: nat, id: nat, s': State, j: nat)
    requires Inv(s) && Next(s, LoadOrStore(k, id), s') && j in s'.callers && j != k
    ensures CallerOk(s', j)
  {
    assert CallerOk(s, j);
  }

  /** The other callers. */
  lemma {:induction false} NextBystander(s: State, step: Step, s': State, j: nat)
    requires Inv(s) && Next(s, step, s') && j in s'.callers && j != step.k
    ensures CallerOk(s', j)
  {
    match step {
      case FetchEnds(_, _) => CallBystander(s, step, s', j);
      case Record(_) => CallBystander(s, step, s', j);
      case Close(_) => CallBystander(s, step, s', j);
      case Delete(k) => DeleteBystander(s, k, s', j);
      case LoadOrStore(k, id) => JoinBystander(s, k, id, s', j);
      case _ =>
        assert s'.calls == s.calls && s'.registry == s.registry && s'.callers[j] == s.callers[j];
        assert CallerOk(s, j);
    }
  }

  /** Steps that register, write or close a call. */
  lemma {:induction false} WrittenCall(s: State, step: Step, s': State, id: nat)
    requires Inv(s) && Next(s, step, s') && id in s'.calls
    requires step.LoadOrStore? || step.FetchEnds? || step.Record? || step.Close?
    ensures CallOk(s', id)
  {
    assert id in s.calls ==> CallOk(s, id);
    assert CallerOk(s, step.k);
  }

  lemma {:induction false} NextCalls(s: State, step: Step, s': State, id: nat)
    requires Inv(s) && Next(s, step, s') && id in s'.calls
    ensures CallOk(s', id)
  {
    match step {
      case LoadOrStore(_, _) => WrittenCall(s, step, s', id);
      case FetchEnds(_, _) => WrittenCall(s, step, s', id);
      case Record(_) => WrittenCall(s, step, s', id);
      case Close(_) => WrittenCall(s, step, s', id);
      case Arrive(_, _) => assert CallOk(s, id);
      case _ =>
        assert CallOk(s, id) && CallerOk(s, step.k);
    }
  }

  lemma {:induction false} NextRegistry(s: State, step: Step, s': State, i: nat)
    requires Inv(s) && Next(s, step, s') && i in s'.registry
    ensures RegistryOk(s', i)
  {
    assert i in s.registry ==> RegistryOk(s, i);
    if step.k in s.callers {
      assert CallerOk(s, step.k);
    }
  }

  lemma {:induction false} NextInv(s: State, step: Step, s': State)
    requires Inv(s) && Next(s, step, s')
    ensures Inv(s')
  {
    forall j <- s'.callers ensures CallerOk(s', j) {
      if j == step.k { NextCaller(s, step, s'); } else { NextBystander(s, step, s', j); }
    }
    forall id <- s'.calls ensures CallOk(s', id) { NextCalls(s, step, s', id); }
    forall i <- s'.registry ensures RegistryOk(s', i) { NextRegistry(s, step, s', i); }
  }

  // ---- whole runs ----

  ghost predicate Linked(s: State, s': State) {
    exists step :: Next(s, step, s')
  }

  ghost predicate Run(states: seq<State>) {
    && states != [] && Init(states[0])
    && forall i :: 0 <= i < |states| - 1 ==> Linked(states[i], states[i + 1])
  }

  lemma {:induction false} RunInv(states: seq<State>, i: nat)
    requires Run(states) && i < |states|
    ensures Inv(states[i])
  {
    if i > 0 {
      RunInv(states, i - 1);
      assert Linked(states[i - 1], states[i - 1 + 1]);
      var step :| Next(states[i - 1], step, states[i]);
      NextInv(states[i - 1], step, states[i]);
    }
  }

  /** At no time do two callers run the fetch of one input. */
  lemma {:induction false} AtMostOneFetch(states: seq<State>, i: nat, j: nat, k: nat)
    requires Run(states) && i < |states| && j in states[i].callers && k in states[i].callers
    requires states[i].callers[j].phase.Leading? && states[i].callers[k].phase.Leading?
    requires states[i].callers[j].input == states[i].callers[k].input
    ensures j == k
  {
    RunInv(states, i);
    assert CallerOk(states[i], j) && CallerOk(states[i], k);
  }

  predicate Joined(p: Phase, id: nat) {
    (Holds(p) || p.Deleted? || p.Waiting? || p.Returned?) && p.call == id
  }

  /** Caller `k`, about to load or store, found call `id` registered or registered it itself. */
  ghost predicate FoundRegistered(states: seq<State>, i: nat, k: nat, id: nat) {
    exists m :: 0 <= m < i < |states| && JoinsAt(states[m], states[m + 1], k, id)
  }

  ghost predicate JoinsAt(s: State, s': State, k: nat, id: nat) {
    && k in s.callers && s.callers[k].phase.Trying?
    && s.callers[k].input in s'.registry && s'.registry[s.callers[k].input] == id
  }

  lemma {:induction false} JoinStep(s: State, step: Step, s': State, k: nat, id: nat)
    requires Next(s, step, s') && k in s'.callers && Joined(s'.callers[k].phase, id)
    ensures (k in s.callers && Joined(s.callers[k].phase, id)) || JoinsAt(s, s', k, id)
  {
  }

  lemma {:induction false} JoinedWasRegistered(states: seq<State>, i: nat, k: nat, id: nat)
    requires Run(states) && i < |states| && k in states[i].callers && Joined(states[i].callers[k].phase, id)
    ensures FoundRegistered(states, i, k, id)
  {
    if i > 0 {
      var s, s' := states[i - 1], states[i];
      assert Linked(s, states[i - 1 + 1]);
      var step :| Next(s, step, s');
      JoinStep(s, step, s', k, id);
      if k in s.callers && Joined(s.callers[k].phase, id) {
        JoinedWasRegistered(states, i - 1, k, id);
        var m :| 0 <= m < i - 1 && JoinsAt(states[m], states[m + 1], k, id);
        assert FoundRegistered(states, i, k, id);
      } else {
        assert JoinsAt(states[i - 1], states[i - 1 + 1], k, id);
      }
    }
  }

  /** The leader of call `id` had its result and was not cancelled when it decided against a retry. */
  ghost predicate LeaderFinished(states: seq<State>, i: nat, id: nat, leader: nat) {
    exists m :: 0 <= m < i < |states| && FinishedAt(states[m], id, leader)
  }

  ghost predicate FinishedAt(s: State, id: nat, leader: nat) {
    leader in s.callers && s.callers[leader].phase == Fetched(id) && !s.callers[leader].cancelled
  }

  lemma {:induction false} SoundWasFinished(states: seq<State>, i: nat, id: nat)
    requires Run(states) && i < |states| && id in states[i].calls && states[i].calls[id].sound
    ensures LeaderFinished(states, i, id, states[i].calls[id].leader)
  {
    if i > 0 {
      var s, s' := states[i - 1], states[i];
      RunInv(states, i - 1);
      assert Linked(s, states[i - 1 + 1]);
      var step :| Next(s, step, s');
      assert step.k in s.callers ==> CallerOk(s, step.k);
      assert id in s.calls && s.calls[id].leader == s'.calls[id].leader;
      if s.calls[id].sound {
        SoundWasFinished(states, i - 1, id);
        var m :| 0 <= m < i - 1 && FinishedAt(states[m], id, s.calls[id].leader);
        assert LeaderFinished(states, i, id, s.calls[id].leader);
      } else {
        assert FinishedAt(states[i - 1], id, s.calls[id].leader);
      }
    }
  }

  /**
    A caller that returns a fetch result has it from a call registered when it arrived, whose
    leader brought the fetch to its end neither cancelled nor panicking.
   */
  lemma {:induction false} ReturnedResultIsSound(states: seq<State>, i: nat, k: nat)
    requires Run(states) && i < |states| && k in states[i].callers && states[i].callers[k].phase.Returned?
    ensures var Returned(id, value) := states[i].callers[k].phase;
            && id in states[i].calls && states[i].calls[id].result == Some(value)
            && states[i].calls[id].input == states[i].callers[k].input
            && FoundRegistered(states, i, k, id)
            && LeaderFinished(states, i, id, states[i].calls[id].leader)
  {
    RunInv(states, i);
    assert CallerOk(states[i], k);
    var id := states[i].callers[k].phase.call;
    assert CallOk(states[i], id);
    JoinedWasRegistered(states, i, k, id);
    SoundWasFinished(states, i, id);
  }

  /** A caller returns a cancellation only for its own context. */
  lemma {:induction false} OwnCancellationOnly(states: seq<State>, i: nat, k: nat)
    requires Run(states) && i < |states| && k in states[i].callers && states[i].callers[k].phase.ReturnedCtxErr?
    ensures states[i].callers[k].cancelled
  {
    RunInv(states, i);
    assert CallerOk(states[i], k);
  }

  /** A caller waits only for a call that is closed or whose leader is still at work on it. */
  lemma {:induction false} NobodyWaitsInVain(states: seq<State>, i: nat, k: nat)
    requires Run(states) && i < |states| && k in states[i].callers && states[i].callers[k].phase.Waiting?
    ensures var id := states[i].callers[k].phase.call;
            id in states[i].calls && (states[i].calls[id].closed
              || LedBy(states[i], states[i].calls[id].leader, id, states[i].callers[k].input))
  {
    RunInv(states, i);
    assert CallerOk(states[i], k);
    assert CallOk(states[i], states[i].callers[k].phase.call);
  }
}
