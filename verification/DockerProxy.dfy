/**
  Admission of requests to a job's docker proxy against its shutdown.  Handlers and the
  close call take turns at one lock; the handlers a wait group counts are waited for.
 */
module DockerProxy {

  datatype Holder = Free | Request(k: nat) | Closer

  datatype Phase =
    | Arrived       // waiting for the admission lock
    | Locked        // holding it
    | Passed        // found the streams alive, still holding it
    | Refused       // found them cancelled, still holding it
    | Counted       // added to the wait group, still holding it
    | Serving       // lock released
    | TurnedAway
    | Finished

  /** `creating` requests outlive the streams and their own client; `cut` means the shutdown cancelled the request. */
  datatype Req = Req(creating: bool, phase: Phase, cut: bool)

  datatype Closing =
    | Open | TakenLock | ListenerClosed | StreamsCancelled | Unlocked | Served
    | ShutDown | CreatesCancelled | ServerClosed | Closed

  datatype State = State(
    lock: Holder,
    streamsCancelled: bool,
    createsCancelled: bool,
    handlers: nat,
    requests: map<nat, Req>,
    closing: Closing)

  datatype Step =
    | Arrive(k: nat, creating: bool)
    | Lock(k: nat)
    | Check(k: nat)
    | Add(k: nat)
    | Unlock(k: nat)
    | Cut(k: nat)
    | Finish(k: nat)
    | Close                          // the next step of the close call

  function To(s: State, k: nat, phase: Phase): State
    requires k in s.requests
  {
    s.(requests := s.requests[k := s.requests[k].(phase := phase)])
  }

  predicate Enabled(s: State, step: Step) {
    match step
    case Arrive(k, _) => k !in s.requests
    case Lock(k) => k in s.requests && s.requests[k].phase.Arrived? && s.lock.Free?
    case Check(k) => k in s.requests && s.requests[k].phase.Locked?
    case Add(k) => k in s.requests && s.requests[k].phase.Passed?
    case Unlock(k) => k in s.requests && (s.requests[k].phase.Refused? || s.requests[k].phase.Counted?)
    case Cut(k) =>
      && k in s.requests && s.requests[k].phase.Serving?
      && (if s.requests[k].creating then s.createsCancelled else s.streamsCancelled)
    case Finish(k) => k in s.requests && s.requests[k].phase.Serving? && s.handlers > 0
    case Close =>
      match s.closing
      case Open => s.lock.Free?
      case ServerClosed => s.handlers == 0
      case Closed => false
      case _ => true
  }

  function After(s: State, step: Step): State
    requires Enabled(s, step)
  {
    match step
    case Arrive(k, creating) => s.(requests := s.requests[k := Req(creating, Arrived, false)])
    case Lock(k) => To(s, k, Locked).(lock := Request(k))
    case Check(k) => To(s, k, if s.streamsCancelled then Refused else Passed)
    case Add(k) => To(s, k, Counted).(handlers := s.handlers + 1)
    case Unlock(k) => To(s, k, if s.requests[k].phase.Refused? then TurnedAway else Serving).(lock := Free)
    case Cut(k) => s.(requests := s.requests[k := s.requests[k].(cut := true)])
    case Finish(k) => To(s, k, Finished).(handlers := s.handlers - 1)
    case Close =>
      match s.closing
      case Open => s.(closing := TakenLock, lock := Closer)
      case TakenLock => s.(closing := ListenerClosed)
      case ListenerClosed => s.(closing := StreamsCancelled, streamsCancelled := true)
      case StreamsCancelled => s.(closing := Unlocked, lock := Free)
      case Unlocked => s.(closing := Served)
      case Served => s.(closing := ShutDown)
      case ShutDown => s.(closing := CreatesCancelled, createsCancelled := true)
      case CreatesCancelled => s.(closing := ServerClosed)
      case ServerClosed => s.(closing := Closed)
      case Closed => s
  }

  ghost predicate Next(s: State, step: Step, s': State) {
    Enabled(s, step) && s' == After(s, step)
  }

  ghost predicate Init(s: State) {
    s == State(Free, false, false, 0, map[], Open)
  }

  // ---- invariant ----

  predicate HoldsLock(p: Phase) {
    p.Locked? || p.Passed? || p.Refused? || p.Counted?
  }

  /** Requests the wait group counts. */
  function Active(requests: map<nat, Req>): set<nat> {
    set k | k in requests && (requests[k].phase.Counted? || requests[k].phase.Serving?)
  }

  predicate ClosedBefore(c: Closing) {
    c.Open? || c.TakenLock? || c.ListenerClosed?
  }

  predicate ShutdownReturned(c: Closing) {
    c.ShutDown? || c.CreatesCancelled? || c.ServerClosed? || c.Closed?
  }

  ghost predicate RequestOk(s: State, k: nat)
    requires k in s.requests
  {
    var r := s.requests[k];
    && (HoldsLock(r.phase) <==> s.lock == Request(k))
    && (r.phase.Passed? ==> !s.streamsCancelled)
    && (r.creating && r.cut ==> s.createsCancelled)
  }

  /** Who holds the lock, and what the close call has cancelled by now. */
  ghost predicate LockOk(s: State) {
    && (s.lock.Request? ==> s.lock.k in s.requests)
    && (s.lock.Closer? <==> s.closing.TakenLock? || s.closing.ListenerClosed? || s.closing.StreamsCancelled?)
    && (s.streamsCancelled <==> !ClosedBefore(s.closing))
    && (s.createsCancelled ==> ShutdownReturned(s.closing))
  }

  ghost predicate CountOk(s: State) {
    && s.handlers == |Active(s.requests)|
    && (s.closing.Closed? ==> Active(s.requests) == {})
  }

  ghost predicate Inv(s: State) {
    (forall k <- s.requests :: RequestOk(s, k)) && LockOk(s) && CountOk(s)
  }

  lemma {:induction false} ActiveChange(requests: map<nat, Req>, k: nat, r: Req)
    ensures var now := r.phase.Counted? || r.phase.Serving?;
            Active(requests[k := r]) == if now then Active(requests) + {k} else Active(requests) - {k}
  {
  }

  lemma {:induction false} NextRequest(s: State, step: Step, s': State, j: nat)
    requires Inv(s) && Next(s, step, s') && j in s'.requests
    ensures RequestOk(s', j)
  {
    assert j in s.requests ==> RequestOk(s, j);
    assert !step.Close? && step.k in s.requests ==> RequestOk(s, step.k);
  }

  lemma {:induction false} NextActive(s: State, step: Step, s': State)
    requires Inv(s) && Next(s, step, s')
    ensures Active(s'.requests) == match step
              case Add(k) => Active(s.requests) + {k}
              case Finish(k) => Active(s.requests) - {k}
              case _ => Active(s.requests)
    ensures step.Add? ==> step.k !in Active(s.requests)
    ensures step.Finish? ==> step.k in Active(s.requests)
  {
    if !step.Close? {
      ActiveChange(s.requests, step.k, s'.requests[step.k]);
    }
  }

  lemma {:induction false} NextCount(s: State, step: Step, s': State)
    requires Inv(s) && Next(s, step, s')
    ensures CountOk(s')
  {
    NextActive(s, step, s');
    var active := Active(s.requests);
    match step {
      case Add(k) =>
        assert RequestOk(s, k);
        assert |active + {k}| == |active| + 1;
      case Finish(k) =>
        assert |active - {k}| == |active| - 1;
      case Close =>
        assert s.handlers == 0 ==> active == {};
      case _ =>
    }
  }

  lemma {:induction false} NextInv(s: State, step: Step, s': State)
    requires Inv(s) && Next(s, step, s')
    ensures Inv(s')
  {
    forall j <- s'.requests ensures RequestOk(s', j) { NextRequest(s, step, s', j); }
    NextCount(s, step, s');
  }

  // ---- whole runs ----

  ghost predicate Linked(s: State, s': State) {
    exists step :: Next(s, step, s')
  }

  ghost predicate Run(states: seq<State>) {
    && states != [] && Init(states[0])
    && forall i :: 0 <= i < |states| - 1 ==> Linked(states[i], states[i + 1])
  }

  lemma {:induction false} RunInv(states: seq<State>, i: nat)
    requires Run(states) && i < |states|
    ensures Inv(states[i])
  {
    if i > 0 {
      RunInv(states, i - 1);
      assert Linked(states[i - 1], states[i - 1 + 1]);
      var step :| Next(states[i - 1], step, states[i]);
      NextInv(states[i - 1], step, states[i]);
    }
  }

  lemma {:induction false} AdmittedByAdd(s: State, step: Step, s': State, k: nat)
    requires Inv(s) && Next(s, step, s') && k !in Active(s.requests) && k in Active(s'.requests)
    ensures step == Add(k)
  {
    NextActive(s, step, s');
  }

  /** No request joins the wait group once the streams are cancelled. */
  lemma {:induction false} NoneAdmittedAfterCancel(states: seq<State>, i: nat, k: nat)
    requires Run(states) && i + 1 < |states| && Linked(states[i], states[i + 1])
    requires k !in Active(states[i].requests) && k in Active(states[i + 1].requests)
    ensures !states[i].streamsCancelled && !states[i + 1].streamsCancelled
  {
    RunInv(states, i);
    var step :| Next(states[i], step, states[i + 1]);
    AdmittedByAdd(states[i], step, states[i + 1], k);
    assert RequestOk(states[i], k);
  }

  /** When the close call has returned, every admitted handler has finished, and none is ever admitted again. */
  lemma {:induction false} ClosedMeansFinished(states: seq<State>, i: nat, j: nat, k: nat)
    requires Run(states) && i <= j < |states| && states[i].closing.Closed? && k in states[j].requests
    ensures states[j].closing.Closed? && k !in Active(states[j].requests)
  {
    RunInv(states, j);
    StaysClosed(states, i, j);
  }

  lemma {:induction false} StaysClosed(states: seq<State>, i: nat, j: nat)
    requires Run(states) && i <= j < |states| && states[i].closing.Closed?
    ensures states[j].closing.Closed?
    decreases j
  {
    if i < j {
      StaysClosed(states, i, j - 1);
      assert Linked(states[j - 1], states[j - 1 + 1]);
      var step :| Next(states[j - 1], step, states[j]);
    }
  }

  /** The shutdown cancels an admitted create request only once Shutdown has returned. */
  lemma {:induction false} CreatesCutOnlyAfterShutdown(states: seq<State>, i: nat, k: nat)
    requires Run(states) && i < |states| && k in states[i].requests
    requires states[i].requests[k].creating && states[i].requests[k].cut
    ensures ShutdownReturned(states[i].closing)
  {
    RunInv(states, i);
    assert RequestOk(states[i], k);
  }

  /** A step of the close call, of the request holding the lock it waits for, or of a handler it waits for. */
  ghost predicate BringsCloseOn(s: State, step: Step) {
    match step
    case Close => true
    case Check(k) => s.closing.Open? && s.lock == Request(k)
    case Add(k) => s.closing.Open? && s.lock == Request(k)
    case Unlock(k) => (s.closing.Open? && s.lock == Request(k)) || (s.closing.ServerClosed? && k in Active(s.requests))
    case Finish(k) => s.closing.ServerClosed? && k in Active(s.requests)
    case _ => false
  }

  /** The close call is never stuck: it can move on, or a request it waits for can. */
  lemma {:induction false} CloseNeverStuck(states: seq<State>, i: nat)
    requires Run(states) && i < |states| && !states[i].closing.Closed?
    ensures exists step: Step :: BringsCloseOn(states[i], step) && Enabled(states[i], step)
  {
    RunInv(states, i);
    var s := states[i];
    if s.closing.Open? && s.lock.Request? {
      var k := s.lock.k;
      assert RequestOk(s, k);
      var p := s.requests[k].phase;
      var step := if p.Locked? then Check(k) else if p.Passed? then Add(k) else Unlock(k);
      assert BringsCloseOn(s, step) && Enabled(s, step);
    } else if s.closing.ServerClosed? && s.handlers > 0 {
      assert Active(s.requests) != {};
      var k :| k in Active(s.requests);
      assert RequestOk(s, k);
      var step := if s.requests[k].phase.Counted? then Unlock(k) else Finish(k);
      assert BringsCloseOn(s, step) && Enabled(s, step);
    } else {
      assert BringsCloseOn(s, Close) && Enabled(s, Close);
    }
  }

  /** Steps the close call has still to take. */
  function StagesLeft(c: Closing): nat {
    match c
    case Open => 9
    case TakenLock => 8
    case ListenerClosed => 7
    case StreamsCancelled => 6
    case Unlocked => 5
    case Served => 4
    case ShutDown => 3
    case CreatesCancelled => 2
    case ServerClosed => 1
    case Closed => 0
  }

  /** What the close call has still to wait for: its own steps and the handlers at work. */
  function CloseLeft(s: State): nat {
    StagesLeft(s.closing) + s.handlers
  }

  lemma {:induction false} NextCloser(s: State, step: Step, s': State)
    requires Inv(s) && s.streamsCancelled && Next(s, step, s')
    ensures s'.streamsCancelled
    ensures CloseLeft(s') == CloseLeft(s) - if step.Close? || step.Finish? then 1 else 0
  {
    assert !step.Close? && step.k in s.requests ==> RequestOk(s, step.k);
  }

  /** Once the streams are cancelled, no step adds to what is left, and each step of the close call and each handler that ends takes one off. */
  lemma {:induction false} CloseComesCloser(states: seq<State>, i: nat, step: Step)
    requires Run(states) && i + 1 < |states| && states[i].streamsCancelled && Next(states[i], step, states[i + 1])
    ensures states[i + 1].streamsCancelled
    ensures CloseLeft(states[i + 1]) == CloseLeft(states[i]) - if step.Close? || step.Finish? then 1 else 0
  {
    RunInv(states, i);
    NextCloser(states[i], step, states[i + 1]);
  }

  /** How many of the first `n` steps are the close call's or end a handler. */
  function Progress(steps: seq<Step>, n: nat): nat
    requires n <= |steps|
  {
    if n == 0 then 0 else Progress(steps, n - 1) + if steps[n - 1].Close? || steps[n - 1].Finish? then 1 else 0
  }

  /** The steps the run takes from state `i` on. */
  ghost predicate Taken(states: seq<State>, i: nat, steps: seq<Step>) {
    i + |steps| < |states| && forall k: nat :: k < |steps| ==> TakenAt(states, i, steps, k)
  }

  ghost predicate TakenAt(states: seq<State>, i: nat, steps: seq<Step>, k: nat) {
    k < |steps| && i + k + 1 < |states| && Next(states[i + k], steps[k], states[i + k + 1])
  }

  /** Over every run from there on they are as many as what is left went down by, so never more than were left. */
  lemma {:induction false} CloseIsBounded(states: seq<State>, i: nat, steps: seq<Step>, n: nat)
    requires Run(states) && Taken(states, i, steps) && n <= |steps| && states[i].streamsCancelled
    ensures states[i + n].streamsCancelled
    ensures Progress(steps, n) == CloseLeft(states[i]) - CloseLeft(states[i + n])
  {
    if n > 0 {
      CloseIsBounded(states, i, steps, n - 1);
      assert TakenAt(states, i, steps, n - 1);
      CloseComesCloser(states, i + n - 1, steps[n - 1]);
    }
  }
}
