/**
  The worker pool: the caller queues every executor, workers take them in turn, and the
  caller collects as many errors as there are executors.  Any interleaving is possible, and
  the context may be cancelled at any point.
 */
module ParallelExecutor {
  import opened Options

  /** An error value, or None for nil. */
  type Error = Option<nat>

  datatype Worker = Idle | Running(task: nat) | Exited

  datatype Caller = Sending | Receiving | Returned(err: Error)

  /** Where a taken executor is: on a worker, or done as the k-th to complete. */
  datatype Place = On(worker: nat) | Done(k: nat)

  datatype State = State(
    sent: nat,                    // executors put on the work channel
    queue: seq<nat>,              // the work channel
    workers: seq<Worker>,
    errs: seq<Error>,             // the error channel
    received: nat,
    firstErr: Error,
    ctxErr: Error,
    caller: Caller,
    done: seq<(nat, Error)>,      // history: what completed, in completion order
    place: map<nat, Place>)       // history: where each taken executor is

  datatype Step = Send | Close | Take(w: nat) | Exit(w: nat) | Finish(w: nat, err: Error) | Receive | Cancel(cause: nat) | Return

  function Workers(parallel: int): nat {
    if 1 > parallel then 1 else parallel
  }

  /** Both channels have room for `n` values; a send on a full one would block. */
  predicate Enabled(n: nat, s: State, step: Step) {
    match step
    case Send => s.caller.Sending? && s.sent < n && |s.queue| < n
    case Close => s.caller.Sending? && s.sent == n
    case Take(w) => w < |s.workers| && s.workers[w].Idle? && s.queue != []
    case Exit(w) => w < |s.workers| && s.workers[w].Idle? && s.queue == [] && !s.caller.Sending?
    case Finish(w, _) => w < |s.workers| && s.workers[w].Running? && |s.errs| < n
    case Receive => s.caller.Receiving? && s.received < n && s.errs != []
    case Cancel(_) => s.ctxErr.None?
    case Return => s.caller.Receiving? && s.received == n
  }

  function After(n: nat, s: State, step: Step): State
    requires Enabled(n, s, step)
  {
    match step
    case Send => s.(queue := s.queue + [s.sent], sent := s.sent + 1)
    case Close => s.(caller := Receiving)
    case Take(w) =>
      var task := s.queue[0];
      s.(workers := s.workers[w := Running(task)], queue := s.queue[1..], place := s.place[task := On(w)])
    case Exit(w) => s.(workers := s.workers[w := Exited])
    case Finish(w, err) =>
      var task := s.workers[w].task;
      s.(workers := s.workers[w := Idle], errs := s.errs + [err],
         done := s.done + [(task, err)], place := s.place[task := Done(|s.done|)])
    case Receive =>
      s.(received := s.received + 1, errs := s.errs[1..], firstErr := if s.firstErr.None? then s.errs[0] else s.firstErr)
    case Cancel(err) => s.(ctxErr := Some(err))
    case Return => s.(caller := Returned(if s.ctxErr.Some? then s.ctxErr else s.firstErr))
  }

  ghost predicate Next(n: nat, s: State, step: Step, s': State) {
    Enabled(n, s, step) && s' == After(n, s, step)
  }

  ghost predicate Init(parallel: int, s: State) {
    && s.sent == 0 && s.queue == [] && |s.workers| == Workers(parallel) && (forall w :: 0 <= w < |s.workers| ==> s.workers[w].Idle?)
    && s.errs == [] && s.received == 0 && s.firstErr.None? && s.caller.Sending?
    && s.done == [] && s.place == map[]
  }

  function Busy(workers: seq<Worker>): nat {
    if workers == [] then 0
    else Busy(workers[..|workers| - 1]) + if workers[|workers| - 1].Running? then 1 else 0
  }

  lemma {:induction false} BusyUpdate(workers: seq<Worker>, w: nat, x: Worker)
    requires w < |workers|
    ensures Busy(workers[w := x]) + (if workers[w].Running? then 1 else 0) == Busy(workers) + (if x.Running? then 1 else 0)
  {
    var n := |workers| - 1;
    if w == n {
      assert workers[w := x][..n] == workers[..n];
    } else {
      assert workers[w := x][..n] == workers[..n][w := x];
      BusyUpdate(workers[..n], w, x);
    }
  }

  lemma {:induction false} BusyBounds(workers: seq<Worker>)
    ensures Busy(workers) <= |workers|
    ensures Busy(workers) == 0 <==> forall w :: 0 <= w < |workers| ==> !workers[w].Running?
  {
    if workers != [] {
      var init := workers[..|workers| - 1];
      assert workers == init + [workers[|workers| - 1]];
      BusyBounds(init);
    }
  }

  function FirstError(done: seq<(nat, Error)>): Error {
    if done == [] then None
    else
      var before := FirstError(done[..|done| - 1]);
      if before.Some? then before else done[|done| - 1].1
  }

  /** The `k`-th to finish is the first one that failed. */
  ghost predicate FailedFirst(done: seq<(nat, Error)>, k: int) {
    0 <= k < |done| && done[k].1.Some? && forall j :: 0 <= j < k ==> done[j].1.None?
  }

  lemma {:induction false} FirstErrorSpread(done: seq<(nat, Error)>, d: (nat, Error))
    ensures FirstError(done + [d]) == if FirstError(done).Some? then FirstError(done) else d.1
  {
    assert (done + [d])[..|done|] == done;
  }

  /** The first in completion order, nil only when all were. */
  lemma {:induction false} FirstErrorMeaning(done: seq<(nat, Error)>)
    ensures FirstError(done).None? <==> forall k :: 0 <= k < |done| ==> done[k].1.None?
    ensures FirstError(done).Some? ==> exists k :: FailedFirst(done, k) && done[k].1 == FirstError(done)
  {
    if done != [] {
      var init, d := done[..|done| - 1], done[|done| - 1];
      assert done == init + [d];
      FirstErrorSpread(init, d);
      FirstErrorMeaning(init);
      if FirstError(init).Some? {
        var k :| FailedFirst(init, k) && init[k].1 == FirstError(init);
        assert FailedFirst(done, k);
      } else if d.1.Some? {
        assert FailedFirst(done, |init|);
      }
    }
  }

  // ---- invariant ----

  function Taken(s: State): int {
    s.sent - |s.queue|
  }

  /** Every executor taken is in one place, and every place holds the executor it should. */
  ghost predicate Placed(s: State) {
    && (forall t :: t in s.place <==> 0 <= t < Taken(s))
    && (forall t <- s.place :: s.place[t].On? ==> s.place[t].worker < |s.workers| && s.workers[s.place[t].worker] == Running(t))
    && (forall t <- s.place :: s.place[t].Done? ==> s.place[t].k < |s.done| && s.done[s.place[t].k].0 == t)
    && (forall w :: 0 <= w < |s.workers| && s.workers[w].Running? ==>
          s.workers[w].task in s.place && s.place[s.workers[w].task] == On(w))
    && (forall k :: 0 <= k < |s.done| ==> s.done[k].0 in s.place && s.place[s.done[k].0] == Done(k))
  }

  /** What is queued is what was sent and not yet taken, in order. */
  ghost predicate Queued(n: nat, s: State) {
    && |s.queue| <= s.sent <= n
    && (forall i :: 0 <= i < |s.queue| ==> s.queue[i] == Taken(s) + i)
    && (!s.caller.Sending? ==> s.sent == n)
    && (forall w :: 0 <= w < |s.workers| && s.workers[w].Exited? ==> s.queue == [] && !s.caller.Sending?)
  }

  /** The error channel holds what completed and was not yet received, in order. */
  ghost predicate Reported(s: State) {
    && s.received <= |s.done| && |s.errs| == |s.done| - s.received
    && (forall i :: 0 <= i < |s.errs| ==> s.errs[i] == s.done[s.received + i].1)
    && s.firstErr == FirstError(s.done[..s.received])
  }

  /** What was taken is running or done. */
  ghost predicate Balanced(s: State) {
    Taken(s) == |s.done| + Busy(s.workers)
  }

  ghost predicate Counted(n: nat, s: State) {
    Queued(n, s) && Reported(s) && Balanced(s)
  }

  ghost predicate Inv(n: nat, s: State) {
    && Placed(s) && Counted(n, s)
    && (s.caller.Returned? ==> s.received == n)
  }

  lemma {:induction false} InitInv(n: nat, parallel: int, s: State)
    requires Init(parallel, s)
    ensures Inv(n, s)
  {
    BusyBounds(s.workers);
  }

  lemma {:induction false} TakePlaced(n: nat, s: State, w: nat)
    requires Inv(n, s) && Enabled(n, s, Take(w))
    ensures Placed(After(n, s, Take(w)))
  {
    assert s.queue[0] == Taken(s) && s.queue[0] !in s.place;
  }

  lemma {:induction false} FinishPlaced(n: nat, s: State, w: nat, err: Error)
    requires Inv(n, s) && Enabled(n, s, Finish(w, err))
    ensures Placed(After(n, s, Finish(w, err)))
  {
    var task := s.workers[w].task;
    assert task in s.place && s.place[task] == On(w);
  }

  lemma {:induction false} ExitPlaced(n: nat, s: State, w: nat)
    requires Inv(n, s) && Enabled(n, s, Exit(w))
    ensures Placed(After(n, s, Exit(w)))
  {
  }

  lemma {:induction false} NextPlaced(n: nat, s: State, step: Step, s': State)
    requires Inv(n, s) && Next(n, s, step, s')
    ensures Placed(s')
  {
    match step {
      case Take(w) => TakePlaced(n, s, w);
      case Finish(w, err) => FinishPlaced(n, s, w, err);
      case Exit(w) => ExitPlaced(n, s, w);
      case _ => assert s'.place == s.place && s'.workers == s.workers && s'.done == s.done && Taken(s') == Taken(s);
    }
  }

  lemma {:induction false} NextQueued(n: nat, s: State, step: Step, s': State)
    requires Queued(n, s) && Next(n, s, step, s')
    ensures Queued(n, s')
  {
    if step.Take? {
      forall i | 0 <= i < |s'.queue| ensures s'.queue[i] == Taken(s') + i {
        assert s'.queue[i] == s.queue[i + 1];
      }
    }
  }

  lemma {:induction false} NextReported(n: nat, s: State, step: Step, s': State)
    requires Reported(s) && Next(n, s, step, s')
    ensures Reported(s')
  {
    match step {
      case Finish(_, _) => assert s'.done[..s.received] == s.done[..s.received];
      case Receive =>
        assert s.done[..s.received + 1][..s.received] == s.done[..s.received];
        assert s.errs[0] == s.done[s.received].1;
      case _ =>
    }
  }

  lemma {:induction false} NextBalanced(n: nat, s: State, step: Step, s': State)
    requires Balanced(s) && Next(n, s, step, s')
    ensures Balanced(s')
  {
    match step {
      case Take(w) => BusyUpdate(s.workers, w, Running(s.queue[0]));
      case Exit(w) => BusyUpdate(s.workers, w, Exited);
      case Finish(w, err) => BusyUpdate(s.workers, w, Idle);
      case _ =>
    }
  }

  lemma {:induction false} NextCounted(n: nat, s: State, step: Step, s': State)
    requires Inv(n, s) && Next(n, s, step, s')
    ensures Counted(n, s') && (s'.caller.Returned? ==> s'.received == n)
  {
    NextQueued(n, s, step, s');
    NextReported(n, s, step, s');
    NextBalanced(n, s, step, s');
  }

  // ---- what holds of every reachable state ----

  ghost predicate Linked(n: nat, s: State, s': State) {
    exists step :: Next(n, s, step, s')
  }

  ghost predicate Run(n: nat, parallel: int, states: seq<State>) {
    && states != [] && Init(parallel, states[0])
    && forall i :: 0 <= i < |states| - 1 ==> Linked(n, states[i], states[i + 1])
  }

  lemma {:induction false} RunInv(n: nat, parallel: int, states: seq<State>, i: nat)
    requires Run(n, parallel, states) && i < |states|
    ensures Inv(n, states[i]) && |states[i].workers| == Workers(parallel)
  {
    if i == 0 {
      InitInv(n, parallel, states[0]);
    } else {
      RunInv(n, parallel, states, i - 1);
      assert Linked(n, states[i - 1], states[i - 1 + 1]);
      var step :| Next(n, states[i - 1], step, states[i]);
      NextPlaced(n, states[i - 1], step, states[i]);
      NextCounted(n, states[i - 1], step, states[i]);
    }
  }

  /** At most max(parallel, 1) executors run at a time. */
  lemma BoundedParallelism(n: nat, parallel: int, states: seq<State>, i: nat)
    requires Run(n, parallel, states) && i < |states|
    ensures Busy(states[i].workers) <= if parallel > 1 then parallel else 1
  {
    RunInv(n, parallel, states, i);
    BusyBounds(states[i].workers);
  }

  /** Executor `t` completed, and only once. */
  ghost predicate DoneOnce(done: seq<(nat, Error)>, t: nat) {
    exists k :: 0 <= k < |done| && done[k].0 == t && forall j :: 0 <= j < |done| && done[j].0 == t ==> j == k
  }

  /** The caller returns only when every executor is done, each exactly once, and no worker is running any. */
  lemma {:induction false} ReturnedMeansAllDone(n: nat, parallel: int, states: seq<State>, i: nat)
    requires Run(n, parallel, states) && i < |states| && states[i].caller.Returned?
    ensures |states[i].done| == n && forall w :: 0 <= w < |states[i].workers| ==> !states[i].workers[w].Running?
    ensures forall t: nat :: t < n ==> DoneOnce(states[i].done, t)
  {
    RunInv(n, parallel, states, i);
    var s := states[i];
    BusyBounds(s.workers);
    assert Taken(s) == n == |s.done|;
    forall t: nat | t < n ensures DoneOnce(s.done, t) {
      assert t in s.place;
      assert s.place[t].Done?;
      assert s.done[s.place[t].k].0 == t;
    }
  }

  /** What is returned is the context's error once cancelled, else the first error to complete. */
  lemma {:induction false} ReturnedError(n: nat, parallel: int, states: seq<State>, i: nat, step: Step)
    requires Run(n, parallel, states) && i + 1 < |states| && Next(n, states[i], step, states[i + 1]) && step.Return?
    ensures states[i + 1].caller == Returned(if states[i].ctxErr.Some? then states[i].ctxErr else FirstError(states[i].done))
  {
    RunInv(n, parallel, states, i);
    var s := states[i];
    BusyBounds(s.workers);
    assert s.done[..s.received] == s.done;
  }

  /** No deadlock: until the caller has returned, something other than a cancellation can happen. */
  lemma {:induction false} NoDeadlock(n: nat, parallel: int, states: seq<State>, i: nat)
    requires Run(n, parallel, states) && i < |states| && !states[i].caller.Returned?
    ensures exists step: Step :: !step.Cancel? && Enabled(n, states[i], step)
  {
    RunInv(n, parallel, states, i);
    var s := states[i];
    BusyBounds(s.workers);
    if s.caller.Sending? {
      assert Enabled(n, s, if s.sent < n then Send else Close);
    } else if s.received == n {
      assert Enabled(n, s, Return);
    } else if s.errs != [] {
      assert Enabled(n, s, Receive);
    } else if w :| 0 <= w < |s.workers| && s.workers[w].Running? {
      assert Enabled(n, s, Finish(w, None));
    } else {
      assert Busy(s.workers) == 0;
      assert Enabled(n, s, Take(0));
    }
  }

  /** Steps still to come, cancellations aside. */
  function Remaining(n: nat, s: State): int {
    (n - s.sent) + (n - Taken(s)) + (n - |s.done|) + (n - s.received)
    + (|s.workers| - ExitedCount(s.workers))
    + (match s.caller case Sending => 2 case Receiving => 1 case Returned(_) => 0)
  }

  function ExitedCount(workers: seq<Worker>): (k: nat)
    ensures k <= |workers|
  {
    if workers == [] then 0
    else ExitedCount(workers[..|workers| - 1]) + if workers[|workers| - 1].Exited? then 1 else 0
  }

  lemma {:induction false} ExitedUpdate(workers: seq<Worker>, w: nat, x: Worker)
    requires w < |workers|
    ensures ExitedCount(workers[w := x]) + (if workers[w].Exited? then 1 else 0) == ExitedCount(workers) + (if x.Exited? then 1 else 0)
  {
    var n := |workers| - 1;
    if w == n {
      assert workers[w := x][..n] == workers[..n];
    } else {
      assert workers[w := x][..n] == workers[..n][w := x];
      ExitedUpdate(workers[..n], w, x);
    }
  }

  lemma {:induction false} RemainingBounds(n: nat, s: State)
    requires Counted(n, s)
    ensures Remaining(n, s) >= 0
  {
    BusyBounds(s.workers);
  }

  lemma {:induction false} StepCounts(n: nat, s: State, step: Step, s': State)
    requires Next(n, s, step, s')
    ensures Remaining(n, s') == Remaining(n, s) - if step.Cancel? then 0 else 1
  {
    match step {
      case Take(w) => ExitedUpdate(s.workers, w, Running(s.queue[0]));
      case Exit(w) => ExitedUpdate(s.workers, w, Exited);
      case Finish(w, _) => ExitedUpdate(s.workers, w, Idle);
      case _ =>
    }
  }

  /** Every run ends: each step but a cancellation brings the end one step closer. */
  lemma {:induction false} Terminates(n: nat, s: State, step: Step, s': State)
    requires Inv(n, s) && Next(n, s, step, s')
    ensures 0 <= Remaining(n, s') <= Remaining(n, s)
    ensures !step.Cancel? ==> Remaining(n, s') == Remaining(n, s) - 1
  {
    NextCounted(n, s, step, s');
    RemainingBounds(n, s');
    StepCounts(n, s, step, s');
  }
}
