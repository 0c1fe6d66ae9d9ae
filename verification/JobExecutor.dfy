/**
  Running one job: setup steps, main steps, post steps and teardown, under an environment
  that chooses every step's outcome and the moment the job context is cancelled or times out.
 */
module JobExecutor {
  import opened Options

  // ---- executors ----

  datatype Act =
    | StartContainer
    | LogMatrix | EvaluateEnv | StartedHook | PrepareActions | LogJobName
    | StepPre(i: nat) | StepMain(i: nat) | StepPost(i: nat)
    | CompletedHook | Outputs | Teardown
    | CloseContainer

  datatype Executor =
    | Succeed
    | Run(act: Act)
    | Then(first: Executor, second: Executor)
    | Finally(main: Executor, last: Executor)

  /** Everything an executor invokes when nothing stops it, in order. */
  function Acts(e: Executor): seq<Act> {
    match e
    case Succeed => []
    case Run(a) => [a]
    case Then(a, b) => Acts(a) + Acts(b)
    case Finally(a, b) => Acts(a) + Acts(b)
  }

  predicate OnlyFinally(e: Executor) {
    match e
    case Succeed => true
    case Run(_) => true
    case Then(_, _) => false
    case Finally(a, b) => OnlyFinally(a) && OnlyFinally(b)
  }

  predicate OnlyThen(e: Executor) {
    match e
    case Succeed => true
    case Run(_) => true
    case Then(a, b) => OnlyThen(a) && OnlyThen(b)
    case Finally(_, _) => false
  }

  predicate IsSetup(act: Act) {
    match act
    case LogMatrix | EvaluateEnv | StartedHook | PrepareActions | LogJobName | StepPre(_) => true
    case _ => false
  }

  /** A pipeline of executors of the setup. */
  predicate Setups(e: Executor) {
    match e
    case Succeed => true
    case Run(a) => IsSetup(a)
    case Then(a, b) => Setups(a) && Setups(b)
    case Finally(_, _) => false
  }

  /** The teardown is what the executor runs last, whatever fails. */
  predicate EndsInTeardown(e: Executor) {
    match e
    case Run(a) => a == Teardown
    case Finally(_, b) => EndsInTeardown(b)
    case _ => false
  }

  /** How often the teardown occurs in an executor. */
  function Teardowns(e: Executor): nat {
    match e
    case Succeed => 0
    case Run(a) => if a == Teardown then 1 else 0
    case Then(a, b) => Teardowns(a) + Teardowns(b)
    case Finally(a, b) => Teardowns(a) + Teardowns(b)
  }

  /** `t` is what one run of `e` may invoke, ending without an error if `ok`. */
  ghost predicate Invokes(e: Executor, t: seq<Act>, ok: bool)
    decreases e, 1
  {
    match e
    case Succeed => t == [] && ok
    case Run(a) => t == [a]
    case Then(a, b) => (!ok && (Invokes(a, t, false) || Invokes(a, t, true))) || InvokesBoth(e, t, true, ok)
    case Finally(a, b) => exists oka, okb :: ok == (oka && okb) && InvokesBoth(e, t, oka, okb)
  }

  /** Both halves of `e` ran, one after the other. */
  ghost predicate InvokesBoth(e: Executor, t: seq<Act>, oka: bool, okb: bool)
    requires e.Then? || e.Finally?
    decreases e, 0
  {
    var (a, b) := Halves(e);
    exists k :: 0 <= k <= |t| && Invokes(a, t[..k], oka) && Invokes(b, t[k..], okb)
  }

  function Halves(e: Executor): (h: (Executor, Executor))
    requires e.Then? || e.Finally?
    ensures h.0 < e && h.1 < e
  {
    if e.Then? then (e.first, e.second) else (e.main, e.last)
  }

  lemma JoinInvocations(e: Executor, t: seq<Act>, u: seq<Act>, oka: bool, okb: bool)
    requires e.Then? || e.Finally?
    requires Invokes(Halves(e).0, t, oka) && Invokes(Halves(e).1, u, okb)
    ensures InvokesBoth(e, t + u, oka, okb)
  {
    assert (t + u)[..|t|] == t && (t + u)[|t|..] == u;
  }

  /** A run without an error invoked everything. */
  lemma {:induction false} SuccessInvokesAll(e: Executor, t: seq<Act>)
    requires Invokes(e, t, true)
    ensures t == Acts(e)
  {
    if e.Then? || e.Finally? {
      var (a, b) := Halves(e);
      assert InvokesBoth(e, t, true, true);
      var k :| 0 <= k <= |t| && Invokes(a, t[..k], true) && Invokes(b, t[k..], true);
      SuccessInvokesAll(a, t[..k]);
      SuccessInvokesAll(b, t[k..]);
      assert t == t[..k] + t[k..];
    }
  }

  /** A run without an error is one of the runs. */
  lemma {:induction false} InvokesAll(e: Executor)
    ensures Invokes(e, Acts(e), true)
  {
    if e.Then? || e.Finally? {
      var (a, b) := Halves(e);
      InvokesAll(a);
      InvokesAll(b);
      JoinInvocations(e, Acts(a), Acts(b), true, true);
    }
  }

  /** Whatever fails, a chain of Finally invokes everything exactly once and in order. */
  lemma {:induction false} FinallyInvokesAll(e: Executor, t: seq<Act>, ok: bool)
    requires OnlyFinally(e) && Invokes(e, t, ok)
    ensures t == Acts(e)
  {
    if e.Finally? {
      var oka, okb :| ok == (oka && okb) && InvokesBoth(e, t, oka, okb);
      var k :| 0 <= k <= |t| && Invokes(e.main, t[..k], oka) && Invokes(e.last, t[k..], okb);
      FinallyInvokesAll(e.main, t[..k], oka);
      FinallyInvokesAll(e.last, t[k..], okb);
      assert t == t[..k] + t[k..];
    }
  }

  /** A pipeline invokes an initial segment, each executor at most once. */
  lemma {:induction false} PipelineInvokesPrefix(e: Executor, t: seq<Act>, ok: bool)
    requires OnlyThen(e) && Invokes(e, t, ok)
    ensures t <= Acts(e)
  {
    if e.Then? {
      if InvokesBoth(e, t, true, ok) {
        var k :| 0 <= k <= |t| && Invokes(e.first, t[..k], true) && Invokes(e.second, t[k..], ok);
        SuccessInvokesAll(e.first, t[..k]);
        PipelineInvokesPrefix(e.second, t[k..], ok);
        assert t == t[..k] + t[k..];
      } else {
        var oka :| Invokes(e.first, t, oka);
        PipelineInvokesPrefix(e.first, t, oka);
      }
    }
  }

  lemma {:induction false} NoTeardown(e: Executor, t: seq<Act>, ok: bool)
    requires Invokes(e, t, ok) && Teardowns(e) == 0
    ensures Teardown !in t
  {
    if e.Then? || e.Finally? {
      var (a, b) := Halves(e);
      if oka, okb :| InvokesBoth(e, t, oka, okb) {
        var k :| 0 <= k <= |t| && Invokes(a, t[..k], oka) && Invokes(b, t[k..], okb);
        NoTeardown(a, t[..k], oka);
        NoTeardown(b, t[k..], okb);
        assert t == t[..k] + t[k..];
      } else {
        var oka :| Invokes(a, t, oka);
        NoTeardown(a, t, oka);
      }
    }
  }

  lemma OneTeardown(e: Executor, t: seq<Act>, u: seq<Act>, oka: bool, okb: bool)
    requires e.Then? || e.Finally?
    requires Teardowns(e) <= 1 && Invokes(Halves(e).0, t, oka) && Invokes(Halves(e).1, u, okb)
    ensures Teardown !in t || Teardown !in u
  {
    if Teardowns(Halves(e).0) == 0 {
      NoTeardown(Halves(e).0, t, oka);
    } else {
      NoTeardown(Halves(e).1, u, okb);
    }
  }

  // ---- contexts, errors, results ----

  datatype CtxErr = Live | Canceled | DeadlineExceeded

  /** What may happen to the contexts between two statements. */
  datatype Interrupt = Interrupt(job: CtxErr, expireMain: bool, expirePost: bool)

  const NOTHING: Interrupt := Interrupt(Live, false, false)

  /** The job's own context, and the fresh ones its main and post steps may be moved to. */
  datatype Ctx = JobCtx | FreshMainCtx | FreshPostCtx

  datatype Error = None | Error(isCanceled: bool, isSetup: bool)

  function ErrorOf(c: CtxErr): Error {
    match c
    case Live => Error.None
    case Canceled => Error(true, false)
    case DeadlineExceeded => Error(false, false)
  }

  datatype Result = Success | Failure | Cancelled

  /** One job result is shared by all combinations of a matrix. */
  function Combine(previous: Option<Result>, matrix: bool, cancelled: bool, success: bool): Result {
    var result := if matrix && previous.Some? then previous.value else Success;
    if cancelled then Cancelled
    else if !success && result != Cancelled then Failure
    else result
  }

  /** How one combination ended: cancelled, or else succeeded or not. */
  datatype Ending = Ending(cancelled: bool, success: bool)

  function CombineAll(endings: seq<Ending>): Option<Result> {
    if endings == [] then Option.None
    else
      var e := endings[|endings| - 1];
      Some(Combine(CombineAll(endings[..|endings| - 1]), true, e.cancelled, e.success))
  }

  function Worst(endings: seq<Ending>): Result {
    if exists e <- endings :: e.cancelled then Cancelled
    else if exists e <- endings :: !e.success then Failure
    else Success
  }

  lemma {:induction false} WorstAppend(endings: seq<Ending>, e: Ending)
    ensures Worst(endings + [e]) ==
              if e.cancelled || Worst(endings) == Cancelled then Cancelled
              else if !e.success then Failure
              else Worst(endings)
  {
    assert e in endings + [e] && forall x <- endings :: x in endings + [e];
  }

  /** Whatever the order in which combinations finish, the worst ending is the job's result. */
  lemma {:induction false} MatrixResult(endings: seq<Ending>)
    requires endings != []
    ensures CombineAll(endings) == Some(Worst(endings))
  {
    var init, e := endings[..|endings| - 1], endings[|endings| - 1];
    assert endings == init + [e];
    WorstAppend(init, e);
    if init != [] {
      MatrixResult(init);
    }
  }

  lemma OrderIrrelevant(a: seq<Ending>, b: seq<Ending>)
    requires a != [] && multiset(a) == multiset(b)
    ensures CombineAll(a) == CombineAll(b)
  {
    assert forall e :: e in a <==> e in multiset(a);
    assert forall e :: e in b <==> e in multiset(b);
    assert b != [];
    MatrixResult(a);
    MatrixResult(b);
  }

  // ---- the job ----

  function Setup(n: nat): seq<Act> {
    [LogMatrix, EvaluateEnv, StartedHook, PrepareActions, LogJobName] + PreActs(n)
  }

  function PreActs(n: nat): seq<Act> {
    if n == 0 then [] else PreActs(n - 1) + [StepPre(n - 1)]
  }

  function MainActs(n: nat): (t: seq<Act>)
    ensures |t| == n && forall i :: 0 <= i < n ==> t[i] == StepMain(i)
  {
    if n == 0 then [] else MainActs(n - 1) + [StepMain(n - 1)]
  }

  lemma {:induction false} PreStepsInOrder(n: nat)
    ensures |PreActs(n)| == n && forall i :: 0 <= i < n ==> PreActs(n)[i] == StepPre(i)
  {
    if n > 0 { PreStepsInOrder(n - 1); }
  }

  /** The setup holds its five fixed executors and pre steps, each once. */
  lemma {:induction false} SetupActs(n: nat)
    ensures forall a <- PreActs(n) :: a.StepPre?
    ensures Teardown !in Setup(n) && forall j :: 5 <= j < |Setup(n)| ==> Setup(n)[j].StepPre?
    ensures forall a <- Setup(n) :: IsSetup(a)
  {
    if n > 0 { SetupActs(n - 1); }
  }

  /** A setup that ends in the preparation of actions is its first four executors. */
  lemma SetupFailure(n: nat, t: seq<Act>)
    requires t <= Setup(n) && t != [] && t[|t| - 1] == PrepareActions
    ensures t == [LogMatrix, EvaluateEnv, StartedHook, PrepareActions]
  {
    SetupActs(n);
    assert Setup(n)[|t| - 1] == PrepareActions;
  }

  /** Post steps, last step first. */
  function PostActs(n: nat): (t: seq<Act>)
    ensures |t| == n && forall i :: 0 <= i < n ==> t[i] == StepPost(n - 1 - i)
  {
    if n == 0 then [] else [StepPost(n - 1)] + PostActs(n - 1)
  }

  /** What a step of the workflow turns into when the job is built. */
  datatype StepModel = Missing | Unbuildable | Good

  datatype Plan =
    | NoSteps
    | Invalid(at: nat)
    | StepError(at: nat)
    | Job(pre: seq<Act>, mains: seq<Act>, post: Executor)

  method NewPipelineExecutor(acts: seq<Act>) returns (e: Executor)
    ensures OnlyThen(e) && Acts(e) == acts
    ensures Teardown !in acts ==> Teardowns(e) == 0
    ensures (forall a <- acts :: IsSetup(a)) ==> Setups(e)
  {
    if acts == [] {
      return Succeed;
    }
    e := Run(acts[0]);
    assert acts[0] in acts;
    assert acts[..1] == [acts[0]];
    for i := 1 to |acts|
      invariant OnlyThen(e) && Acts(e) == acts[..i] && (Teardown !in acts ==> Teardowns(e) == 0)
      invariant (forall a <- acts :: IsSetup(a)) ==> Setups(e)
    {
      assert acts[i] in acts;
      assert acts[..i + 1] == acts[..i] + [acts[i]];
      e := Then(e, Run(acts[i]));
    }
    assert acts[..|acts|] == acts;
  }

  function AndFinally(e: Executor, act: Act): (r: Executor)
    ensures Acts(r) == Acts(e) + [act] && OnlyFinally(r) == OnlyFinally(e)
    ensures Teardowns(r) == Teardowns(e) + if act == Teardown then 1 else 0
    ensures EndsInTeardown(r) <==> act == Teardown
  {
    var last := Run(act);
    assert Acts(last) == [act] && OnlyFinally(last);
    Finally(e, last)
  }

  /** The post steps so far, with the post step of step `i` in front. */
  function PrependPost(i: nat, post: Executor): (r: Executor)
    requires OnlyFinally(post) && Acts(post) == PostActs(i) && Teardowns(post) == 0
    ensures OnlyFinally(r) && Acts(r) == PostActs(i + 1) && Teardowns(r) == 0
  {
    var first := Run(StepPost(i));
    assert Acts(first) == [StepPost(i)] && OnlyFinally(first) && Teardowns(first) == 0;
    if i > 0 then Finally(first, post) else first
  }

  /** The post steps, then the completed hook, the outputs and the teardown, whatever fails. */
  function Closing(post: Executor): (r: Executor)
    requires OnlyFinally(post)
    ensures OnlyFinally(r) && Acts(r) == Acts(post) + [CompletedHook, Outputs, Teardown]
    ensures Teardowns(r) == Teardowns(post) + 1 && EndsInTeardown(r)
  {
    var hooked := AndFinally(post, CompletedHook);
    var reported := AndFinally(hooked, Outputs);
    AndFinally(reported, Teardown)
  }

  method NewJobExecutor(steps: seq<StepModel>) returns (p: Plan)
    ensures steps == [] ==> p.NoSteps?
    ensures p.Invalid? || p.StepError? ==> p.at < |steps| && forall i :: 0 <= i < p.at ==> steps[i].Good?
    ensures p.Invalid? ==> steps[p.at].Missing?
    ensures p.StepError? ==> steps[p.at].Unbuildable?
    ensures steps != [] && (forall s <- steps :: s.Good?) ==> p.Job?
    ensures p.Job? ==>
              && p.pre == Setup(|steps|) && p.mains == MainActs(|steps|)
              && OnlyFinally(p.post) && Acts(p.post) == PostActs(|steps|) + [CompletedHook, Outputs, Teardown]
              && Teardowns(p.post) == 1 && EndsInTeardown(p.post)
  {
    if steps == [] {
      return NoSteps;
    }
    var stepPre: seq<Act>, mains: seq<Act>, post := [], [], Succeed;
    for i := 0 to |steps|
      invariant forall j :: 0 <= j < i ==> steps[j].Good?
      invariant stepPre == PreActs(i) && mains == MainActs(i)
      invariant OnlyFinally(post) && Acts(post) == PostActs(i) && Teardowns(post) == 0
    {
      assert steps[i] in steps;
      if steps[i].Missing? {
        return Invalid(i);
      }
      if steps[i].Unbuildable? {
        return StepError(i);
      }
      stepPre := stepPre + [StepPre(i)];
      mains := mains + [StepMain(i)];
      post := PrependPost(i, post);
    }
    var pre := [LogMatrix, EvaluateEnv, StartedHook, PrepareActions, LogJobName] + stepPre;
    return Job(pre, mains, Closing(post));
  }

  class SharedJob {
    var result: Option<Result>
    constructor ()
      ensures result == Option.None
    {
      result := Option.None;
    }
  }

  /** An error of the main executor and one of its Finally, as one error. */
  function Wrapped(err: Error, err2: Error): (r: Error)
    ensures r.None? <==> err.None? && err2.None?
  {
    if err2.None? then err
    else if err.None? then err2
    else Error(err.isCanceled || err2.isCanceled, err.isSetup || err2.isSetup)
  }

  /** How an executor's own work ended, as the environment would have it. */
  datatype Outcome = Outcome(act: Act, err: Error)

  /** An executor that reports its errors ended in one that is no cancellation. */
  predicate Fails(o: Outcome) {
    o.err.Error? && !o.err.isCanceled && match o.act {
      case EvaluateEnv | StartedHook | PrepareActions | StepPre(_) | StepMain(_) | StepPost(_) | CompletedHook | Outputs => true
      case _ => false
    }
  }

  predicate AnyFailed(outcomes: seq<Outcome>) {
    outcomes != [] && (Fails(outcomes[|outcomes| - 1]) || AnyFailed(outcomes[..|outcomes| - 1]))
  }

  lemma {:induction false} AnyFailedMeans(outcomes: seq<Outcome>)
    ensures AnyFailed(outcomes) <==> exists i :: 0 <= i < |outcomes| && Fails(outcomes[i])
  {
    if outcomes != [] { AnyFailedMeans(outcomes[..|outcomes| - 1]); }
  }

  /** What was invoked. */
  function Invoked(outcomes: seq<Outcome>): (t: seq<Act>)
    ensures |t| == |outcomes|
  {
    if outcomes == [] then [] else Invoked(outcomes[..|outcomes| - 1]) + [outcomes[|outcomes| - 1].act]
  }

  lemma {:induction false} OneMoreOutcome(outcomes: seq<Outcome>, o: Outcome)
    ensures AnyFailed(outcomes + [o]) <==> AnyFailed(outcomes) || Fails(o)
    ensures Invoked(outcomes + [o]) == Invoked(outcomes) + [o.act]
  {
    assert (outcomes + [o])[..|outcomes|] == outcomes;
  }

  /** An executor of the setup ended in an error, which ends the setup. */
  predicate Stops(o: Outcome) {
    o.err.Error? && match o.act {
      case EvaluateEnv | StartedHook | PrepareActions | StepPre(_) => true
      case _ => false
    }
  }

  /**
    The setup ran up to its first error or until the job was interrupted, `t` being what ran of
    it and `from` where its outcomes begin, and it counts as failed exactly when the error was
    one of preparing the actions.
   */
  ghost predicate SetupEnded(outcomes: seq<Outcome>, live: bool, from: nat, pre: seq<Act>, t: seq<Act>, setupFailed: bool) {
    && from + |t| <= |outcomes|
    && (forall i :: from <= i < from + |t| - 1 ==> !Stops(outcomes[i]))
    && var stopped := t != [] && Stops(outcomes[from + |t| - 1]);
       && (t != pre && live ==> stopped)
       && (setupFailed <==> stopped && outcomes[from + |t| - 1].act == PrepareActions)
  }

  /** From `from` on, the executors of a setup each end without an error until one does not, or the context is done. */
  ghost predicate Piped(from: nat, outcomes: seq<Outcome>, live: bool, err: Error) {
    && |outcomes| >= from
    && (forall i :: from <= i < |outcomes| - 1 ==> !Stops(outcomes[i]))
    && var stopped := |outcomes| > from && Stops(outcomes[|outcomes| - 1]);
       && (err.None? ==> !stopped)
       && (err.Error? && live ==> stopped)
       && (err.Error? && err.isSetup <==> stopped && outcomes[|outcomes| - 1].act == PrepareActions)
  }

  lemma {:induction false} PipedOn(from: nat, first: seq<Outcome>, was: bool, outcomes: seq<Outcome>, live: bool, err: Error)
    requires Piped(from, first, was, Error.None) && first <= outcomes && Piped(|first|, outcomes, live, err)
    ensures Piped(from, outcomes, live, err)
  {
  }

  class RunContext {
    const job: SharedJob
    const matrix: bool            // combinations of a matrix share the job
    var trace: seq<Act>
    var jobCtx: CtxErr
    var freshMain: CtxErr
    var freshPost: CtxErr
    var jobCancelled: bool
    var jobFailed: bool
    var jobError: bool            // the job's error container is set
    var freshError: bool          // the container of a cancelled job's post steps is set
    var postIsFresh: bool         // post steps report into that container
    ghost var ending: Ending      // what the teardown made of the flags
    ghost var outcomes: seq<Outcome>

    constructor (job: SharedJob, matrix: bool)
      ensures this.job == job && this.matrix == matrix && trace == []
      ensures jobCtx.Live? && !jobCancelled && !jobFailed && !jobError && outcomes == [] && Accounted()
    {
      this.job, this.matrix, trace, outcomes := job, matrix, [], [];
      jobCtx, freshMain, freshPost := Live, Live, Live;
      jobCancelled, jobFailed, jobError, freshError, postIsFresh := false, false, false, false, false;
      ending := Ending(false, true);
    }

    /** A failure is on the flags, and while nothing has interrupted the job nothing else is. */
    ghost predicate Accounted()
      reads this
    {
      && trace == Invoked(outcomes)
      && (AnyFailed(outcomes) ==> jobFailed)
      && (jobCtx == Live ==> !jobCancelled && jobFailed == AnyFailed(outcomes) && jobError == AnyFailed(outcomes))
    }

    /** The teardown has judged every outcome: a failure spoils the ending, and nothing but that or an interruption does. */
    ghost predicate Judged()
      reads this
    {
      && (AnyFailed(outcomes) ==> !ending.success)
      && (jobCtx == Live ==> ending == Ending(false, !AnyFailed(outcomes)))
    }

    function ErrOf(ctx: Ctx): CtxErr
      reads this
    {
      match ctx
      case JobCtx => jobCtx
      case FreshMainCtx => freshMain
      case FreshPostCtx => freshPost
    }

    /** Flags once set stay set, a context once done keeps its error, and nobody cancels a detached one. */
    twostate predicate Onward()
      reads this
    {
      && (old(jobCancelled) ==> jobCancelled)
      && (old(jobFailed) ==> jobFailed)
      && (!old(jobCtx).Live? ==> jobCtx == old(jobCtx))
      && postIsFresh == old(postIsFresh)
      && (old(freshPost) != Canceled ==> freshPost != Canceled)
    }

    /** The environment: the job may be cancelled or time out, a detached context only times out. */
    method Disturb()
      modifies this`jobCtx, this`freshMain, this`freshPost
      ensures Onward()
    {
      var cancel: bool := *;
      var expireJob: bool := *;
      var expireMain: bool := *;
      var expirePost: bool := *;
      Strike(Interrupt(if cancel then Canceled else if expireJob then DeadlineExceeded else Live, expireMain, expirePost));
    }

    /** One interruption; a context that is done already stays as it is. */
    method Strike(i: Interrupt)
      modifies this`jobCtx, this`freshMain, this`freshPost
      ensures jobCtx == if old(jobCtx).Live? then i.job else old(jobCtx)
      ensures freshMain == if old(freshMain).Live? && i.expireMain then DeadlineExceeded else old(freshMain)
      ensures freshPost == if old(freshPost).Live? && i.expirePost then DeadlineExceeded else old(freshPost)
    {
      if jobCtx.Live? {
        jobCtx := i.job;
      }
      if freshMain.Live? && i.expireMain {
        freshMain := DeadlineExceeded;
      }
      if freshPost.Live? && i.expirePost {
        freshPost := DeadlineExceeded;
      }
    }

    method MarkInterrupted(c: CtxErr)
      modifies this`jobCancelled, this`jobFailed
      ensures jobCancelled == (old(jobCancelled) || c == Canceled)
      ensures jobFailed == (old(jobFailed) || c == DeadlineExceeded)
    {
      match c
      case Canceled => jobCancelled := true;
      case DeadlineExceeded => jobFailed := true;
      case Live =>
    }

    /** A cancellation is left to the context to judge; any other error fails the job. */
    method ReportStepError(ctx: Ctx, err: Error)
      requires err.Error?
      modifies this`jobCancelled, this`jobFailed, this`jobError, this`freshError
      ensures jobCancelled == (old(jobCancelled) || (err.isCanceled && ErrOf(ctx) == Canceled))
      ensures jobFailed == (old(jobFailed) || !err.isCanceled || ErrOf(ctx) == DeadlineExceeded)
      ensures err.isCanceled ==> jobError == old(jobError) && freshError == old(freshError)
      ensures !err.isCanceled && !(ctx == FreshPostCtx && postIsFresh) ==> jobError
      ensures !err.isCanceled && ctx == FreshPostCtx && postIsFresh ==> freshError && jobError == old(jobError)
    {
      if err.isCanceled {
        MarkInterrupted(ErrOf(ctx));
        return;
      }
      if ctx == FreshPostCtx && postIsFresh {
        freshError := true;
      } else {
        jobError := true;
      }
      jobFailed := true;
    }

    /** Reports a step's error, or else that its context is done. */
    method ReportOutcome(ctx: Ctx, err: Error)
      modifies this`jobCancelled, this`jobFailed, this`jobError, this`freshError
      ensures Onward()
      ensures err.None? && ErrOf(ctx) == Live ==>
                && jobCancelled == old(jobCancelled) && jobFailed == old(jobFailed)
                && jobError == old(jobError) && freshError == old(freshError)
      ensures err.Error? && !err.isCanceled ==> jobFailed
      ensures err.None? && ErrOf(ctx) == Canceled ==> jobCancelled
      ensures err.None? && ErrOf(ctx) == DeadlineExceeded ==> jobFailed
      ensures ErrOf(ctx) != Canceled ==> jobCancelled == old(jobCancelled)
      ensures ErrOf(ctx) == Live ==> jobFailed == (old(jobFailed) || (err.Error? && !err.isCanceled))
      ensures ErrOf(ctx) == Live && ctx == JobCtx ==> jobError == (old(jobError) || (err.Error? && !err.isCanceled))
    {
      if err.Error? {
        ReportStepError(ctx, err);
      } else if ErrOf(ctx) != Live {
        ReportStepError(ctx, ErrorOf(ErrOf(ctx)));
      }
    }

    method SetJobResult(success: bool)
      modifies job, this`ending
      ensures ending == Ending(jobCancelled, success && !jobFailed)
      ensures job.result == Some(Combine(old(job.result), matrix, ending.cancelled, ending.success))
    {
      var ok := success && !jobFailed;
      var result := Success;
      if matrix && job.result.Some? {
        result := job.result.value;
      }
      if jobCancelled {
        result := Cancelled;
      } else if !ok && result != Cancelled {
        result := Failure;
      }
      job.result := Some(result);
      ending := Ending(jobCancelled, ok);
    }

    /** The error container of this context is set. */
    predicate ErrorSeen(ctx: Ctx)
      reads this
    {
      if ctx == FreshPostCtx && postIsFresh then freshError else jobError
    }

    twostate predicate SameFlags()
      reads this
    {
      && jobCancelled == old(jobCancelled) && jobFailed == old(jobFailed)
      && jobError == old(jobError) && freshError == old(freshError)
    }

    /** What an executor of the job does with the outcome of what it wraps. */
    method Report(act: Act, ctx: Ctx, outcome: Error) returns (err: Error)
      requires outcome.Error? ==> !outcome.isSetup
      modifies this`jobCancelled, this`jobFailed, this`jobError, this`freshError, this`ending, job
      ensures Onward()
      ensures err.Error? && err.isSetup ==> act == PrepareActions
      ensures act == PrepareActions && err.Error? ==> err.isSetup
      ensures act.LogMatrix? || act.LogJobName? || act.StepMain? || act.Outputs? ==> err.None?
      ensures act != Teardown ==> job.result == old(job.result) && ending == old(ending)
      ensures act == Teardown ==> EndedWell(old(job.result), old(jobCancelled), old(jobFailed)) && ending.cancelled == old(jobCancelled)
      ensures ErrOf(ctx) != Canceled ==> jobCancelled == old(jobCancelled)
      // what ends well on a live context changes no flag, and a teardown writes down what it finds
      ensures outcome.None? && ErrOf(ctx) == Live ==> err.None? && SameFlags()
      // a failure is reported, and on a live context nothing else is
      ensures Fails(Outcome(act, outcome)) ==> jobFailed
      ensures ErrOf(ctx) == Live ==> jobFailed == (old(jobFailed) || Fails(Outcome(act, outcome)))
      ensures ErrOf(ctx) == Live && ctx == JobCtx ==> jobError == (old(jobError) || Fails(Outcome(act, outcome)))
      // the setup goes on exactly after what did not fail
      ensures IsSetup(act) ==> (err.Error? <==> Stops(Outcome(act, outcome)))
      ensures act == Teardown ==> ending == Ending(old(jobCancelled), !old(ErrorSeen(ctx)) && !old(jobFailed))
    {
      err := outcome;
      match act {
        case StartContainer | CloseContainer =>
        case LogMatrix | LogJobName =>
          err := Error.None;
        case EvaluateEnv | StartedHook | CompletedHook =>
          if err.Error? { ReportStepError(ctx, err); }
        case PrepareActions =>
          if err.Error? {
            ReportStepError(ctx, err);
            err := Error(err.isCanceled, true);
          }
        case StepPre(_) | StepPost(_) =>
          ReportOutcome(ctx, err);
        case StepMain(_) =>
          ReportOutcome(ctx, err);
          err := Error.None;
        case Outputs =>
          if err.Error? { ReportStepError(ctx, err); }
          err := Error.None;
        case Teardown =>
          SetJobResult(!ErrorSeen(ctx));
      }
    }

    /** Invokes one executor of the job, with whatever outcome and interruptions the environment picks. */
    method Perform(act: Act, ctx: Ctx) returns (err: Error)
      requires Accounted() && (ctx != JobCtx ==> jobCtx != Live)
      modifies this, job
      ensures Accounted() && old(outcomes) <= outcomes && |outcomes| == |old(outcomes)| + 1 && outcomes[|old(outcomes)|].act == act
      ensures act == Teardown || (old(Judged()) && !Fails(outcomes[|old(outcomes)|]) && act != Teardown) ==> Judged()
      ensures IsSetup(act) ==> (err.Error? <==> Stops(outcomes[|old(outcomes)|]))
      ensures Onward() && trace == old(trace) + [act]
      ensures err.Error? && err.isSetup ==> act == PrepareActions
      ensures act == PrepareActions && err.Error? ==> err.isSetup
      ensures act.LogMatrix? || act.LogJobName? || act.StepMain? || act.Outputs? ==> err.None?
      ensures act != Teardown ==> job.result == old(job.result) && ending == old(ending)
      ensures act == Teardown ==> EndedWell(old(job.result), old(jobCancelled), old(jobFailed))
      ensures ctx == FreshPostCtx && old(freshPost) != Canceled ==> jobCancelled == old(jobCancelled)
      ensures ctx == FreshPostCtx && old(freshPost) != Canceled && act == Teardown ==> ending.cancelled == old(jobCancelled)
    {
      var fails: bool := *;
      var canceled: bool := *;
      var outcome := if fails then Error(canceled, false) else Error.None;
      trace := trace + [act];
      OneMoreOutcome(outcomes, Outcome(act, outcome));
      outcomes := outcomes + [Outcome(act, outcome)];
      Disturb();
      err := Report(act, ctx, outcome);
      Disturb();
    }

    /** The same with nothing failing and nothing disturbed. */
    method PerformQuietly(act: Act, ctx: Ctx)
      requires ErrOf(ctx) == Live
      modifies this`trace, this`jobCancelled, this`jobFailed, this`jobError, this`freshError, this`ending, job
      ensures trace == old(trace) + [act] && SameFlags()
      ensures act != Teardown ==> job.result == old(job.result)
      ensures act == Teardown ==>
                && ending == Ending(jobCancelled, !ErrorSeen(ctx) && !jobFailed)
                && job.result == Some(Combine(old(job.result), matrix, ending.cancelled, ending.success))
    {
      trace := trace + [act];
      var err := Report(act, ctx, Error.None);
    }

    /** The teardown recorded an ending no better than the flags it found. */
    ghost predicate EndedWell(previous: Option<Result>, wasCancelled: bool, hadFailed: bool)
      reads this, job
    {
      && job.result == Some(Combine(previous, matrix, ending.cancelled, ending.success))
      && (wasCancelled ==> ending.cancelled)
      && (hadFailed ==> !ending.success)
    }

    /** On a detached context nothing marks the job cancelled, so it ends as it was marked before. */
    twostate predicate KeepsMark(ctx: Ctx, t: seq<Act>)
      reads this
    {
      ctx == FreshPostCtx && old(freshPost) != Canceled ==>
        jobCancelled == old(jobCancelled) && (Teardown in t ==> ending.cancelled == old(jobCancelled))
    }

    twostate predicate Extends()
      reads this
    {
      old(outcomes) <= outcomes
    }

    /** What running an executor, with invocations `t`, leaves of the job's result. */
    twostate predicate Ran(e: Executor, t: seq<Act>, err: Error)
      reads this, job
    {
      && Onward() && trace == old(trace) + t && Invokes(e, t, err.None?)
      && (Teardown !in t ==> job.result == old(job.result) && ending == old(ending))
      && (Teardown in t ==> EndedWell(old(job.result), old(jobCancelled), old(jobFailed)))
    }

    method ExecThen(e: Executor, ctx: Ctx) returns (err: Error, ghost t: seq<Act>)
      requires e.Then? && Teardowns(e) <= 1
      requires Accounted() && (ctx != JobCtx ==> jobCtx != Live)
      modifies this, job
      ensures Accounted() && Extends() && (EndsInTeardown(e) ==> Judged())
      ensures Ran(e, t, err) && KeepsMark(ctx, t)
      ensures Setups(e) && ctx == JobCtx ==> Piped(|old(outcomes)|, outcomes, jobCtx == Live, err)
      decreases e, 0
    {
      err, t := Exec(e.first, ctx);
      if err.Error? {
        return;
      }
      if ErrOf(ctx) != Live {
        err := ErrorOf(ErrOf(ctx));
        return;
      }
      ghost var u;
      ghost var first := outcomes;
      err, u := Exec(e.second, ctx);
      JoinInvocations(e, t, u, true, err.None?);
      OneTeardown(e, t, u, true, err.None?);
      if Setups(e) && ctx == JobCtx {
        PipedOn(|old(outcomes)|, first, true, outcomes, jobCtx == Live, err);
      }
      t := t + u;
    }

    method ExecFinally(e: Executor, ctx: Ctx) returns (err: Error, ghost t: seq<Act>)
      requires e.Finally? && Teardowns(e) <= 1
      requires Accounted() && (ctx != JobCtx ==> jobCtx != Live)
      modifies this, job
      ensures Accounted() && Extends() && (EndsInTeardown(e) ==> Judged())
      ensures Ran(e, t, err) && KeepsMark(ctx, t)
      decreases e, 0
    {
      ghost var u;
      var err1, err2;
      err1, t := Exec(e.main, ctx);
      err2, u := Exec(e.last, ctx);
      err := Wrapped(err1, err2);
      JoinInvocations(e, t, u, err1.None?, err2.None?);
      OneTeardown(e, t, u, err1.None?, err2.None?);
      t := t + u;
    }

    /** Runs an executor: Then stops at an error or a done context, Finally never does. */
    method Exec(e: Executor, ctx: Ctx) returns (err: Error, ghost t: seq<Act>)
      requires Teardowns(e) <= 1
      requires Accounted() && (ctx != JobCtx ==> jobCtx != Live)
      modifies this, job
      ensures Accounted() && Extends() && (EndsInTeardown(e) ==> Judged())
      ensures Ran(e, t, err) && KeepsMark(ctx, t)
      ensures Setups(e) && ctx == JobCtx ==> Piped(|old(outcomes)|, outcomes, jobCtx == Live, err)
      decreases e, 1
    {
      match e {
        case Succeed =>
          err, t := Error.None, [];
        case Run(act) =>
          err := Perform(act, ctx);
          t := [act];
        case Then(_, _) =>
          err, t := ExecThen(e, ctx);
        case Finally(_, _) =>
          err, t := ExecFinally(e, ctx);
      }
    }

    /** The rest of the main steps after an interrupt, on a fresh context. */
    method RunMainStepsAfterInterrupt(steps: seq<Act>) returns (err: Error)
      requires Accounted() && jobCtx != Live && forall a <- steps :: a.StepMain?
      modifies this, job
      ensures Accounted()
      ensures Onward() && trace == old(trace) + steps && err == ErrorOf(old(jobCtx))
      ensures job.result == old(job.result)
      ensures old(jobCtx) == Canceled ==> jobCancelled
      ensures old(jobCtx) == DeadlineExceeded ==> jobFailed
    {
      err := ErrorOf(jobCtx);
      MarkInterrupted(jobCtx);
      freshMain := Live;
      for i := 0 to |steps|
        invariant Accounted()
        invariant Onward() && trace == old(trace) + steps[..i]
        invariant job.result == old(job.result)
        invariant old(jobCtx) == Canceled ==> jobCancelled
        invariant old(jobCtx) == DeadlineExceeded ==> jobFailed
      {
        assert old(trace) + steps[..i + 1] == (old(trace) + steps[..i]) + [steps[i]];
        assert steps[i] in steps;
        var _ := Perform(steps[i], FreshMainCtx);
      }
      assert steps[..|steps|] == steps;
    }

    /** Every main step once and in order, whatever happens to the job meanwhile. */
    method RunMainSteps(steps: seq<Act>) returns (err: Error)
      requires Accounted() && forall a <- steps :: a.StepMain?
      modifies this, job
      ensures Accounted()
      ensures Onward() && trace == old(trace) + steps && !(err.Error? && err.isSetup)
      ensures job.result == old(job.result)
      ensures jobCtx == Canceled ==> jobCancelled
      ensures jobCtx == DeadlineExceeded ==> jobFailed
    {
      for i := 0 to |steps|
        invariant Accounted()
        invariant Onward() && trace == old(trace) + steps[..i]
        invariant job.result == old(job.result)
      {
        if jobCtx != Live {
          assert old(trace) + steps == old(trace) + steps[..i] + steps[i..];
          assert forall a <- steps[i..] :: a in steps;
          err := RunMainStepsAfterInterrupt(steps[i..]);
          return;
        }
        assert old(trace) + steps[..i + 1] == (old(trace) + steps[..i]) + [steps[i]];
        assert steps[i] in steps;
        var _ := Perform(steps[i], JobCtx);
        Disturb();
      }
      assert steps[..|steps|] == steps;
      MarkInterrupted(jobCtx);
      err := Error.None;
    }

    /** The setup, as a pipeline; `t` is what ran of it. */
    method RunSetup(pre: seq<Act>) returns (err: Error, ghost t: seq<Act>)
      requires Accounted() && Teardown !in pre && forall a <- pre :: IsSetup(a)
      modifies this, job
      ensures Accounted() && Onward()
      ensures SetupEnded(outcomes, jobCtx == Live, |old(outcomes)|, pre, t, err.Error? && err.isSetup)
      ensures trace == old(trace) + t && t <= pre && (err.None? ==> t == pre)
      ensures err.Error? && err.isSetup ==> t != [] && t[|t| - 1] == PrepareActions
      ensures job.result == old(job.result)
    {
      var pipeline := NewPipelineExecutor(pre);
      err, t := Exec(pipeline, JobCtx);
      PipelineInvokesPrefix(pipeline, t, err.None?);
      if err.None? {
        SuccessInvokesAll(pipeline, t);
      }
      assert Teardown !in t by { NoTeardown(pipeline, t, err.None?); }
      assert t != [] ==> outcomes[|outcomes| - 1].act == trace[|trace| - 1] == t[|t| - 1];
      assert |outcomes| == |old(outcomes)| + |t|;
    }

    /** Setup, then the main steps unless the setup itself failed. */
    method RunSteps(pre: seq<Act>, mains: seq<Act>) returns (err: Error, ghost t: seq<Act>, ghost setupFailed: bool)
      requires Accounted() && Teardown !in pre && (forall a <- pre :: IsSetup(a)) && forall a <- mains :: a.StepMain?
      modifies this, job
      ensures Accounted()
      ensures Onward() && trace == old(trace) + t + if setupFailed then [] else mains
      ensures t <= pre && (setupFailed ==> err.Error? && t != [] && t[|t| - 1] == PrepareActions)
      ensures err.None? ==> t == pre
      ensures job.result == old(job.result)
    {
      var preErr;
      preErr, t := RunSetup(pre);
      setupFailed := preErr.Error? && preErr.isSetup;
      if preErr.Error? && preErr.isSetup {
        return preErr, t, setupFailed;
      }
      var mainErr := RunMainSteps(mains);
      err := if preErr.Error? then preErr else mainErr;
    }

    /** Where the post steps run: detached from a context that is done. */
    method PostStepsContext() returns (ctx: Ctx)
      modifies this`freshPost, this`freshError, this`postIsFresh
      ensures jobCtx == Live ==> ctx == JobCtx
      ensures jobCtx != Live ==> ctx == FreshPostCtx && freshPost == Live
      ensures postIsFresh == (jobCtx == Canceled)
      ensures freshError == (jobCtx != Canceled && old(freshError))
    {
      match jobCtx
      case Canceled =>
        freshPost, freshError, postIsFresh := Live, false, true;
        return FreshPostCtx;
      case DeadlineExceeded =>
        freshPost, postIsFresh := Live, false;
        return FreshPostCtx;
      case Live =>
        postIsFresh := false;
        return JobCtx;
    }

    /**
      The post steps and the teardown, run however the steps before them ended.  `derived` is
      the job context when the context of the post steps was derived from it.
     */
    method RunPost(post: Executor) returns (err: Error, ghost derived: CtxErr)
      requires Accounted() && OnlyFinally(post) && Teardowns(post) == 1 && Teardown in Acts(post)
      requires EndsInTeardown(post)
      modifies this, job
      ensures Accounted() && Judged()
      ensures trace == old(trace) + Acts(post) && (old(jobCtx) != Live ==> jobCtx == old(jobCtx))
      ensures job.result == Some(Combine(old(job.result), matrix, ending.cancelled, ending.success))
      ensures old(jobCtx) == Canceled || old(jobCancelled) ==> ending.cancelled
      ensures old(jobCtx) == DeadlineExceeded || old(jobFailed) ==> !ending.success
      ensures old(jobCtx) != Live ==> derived == old(jobCtx)
      // a context done by the time the post steps' own is derived ends as marked, not as it was interrupted
      ensures derived != Live ==> (ending.cancelled <==> old(jobCancelled) || old(jobCtx) == Canceled)
    {
      MarkInterrupted(jobCtx);
      Disturb();
      derived := jobCtx;
      var ctx := PostStepsContext();
      ghost var t;
      err, t := Exec(post, ctx);
      FinallyInvokesAll(post, t, err.None?);
    }

    /**
      A job whose container has started.  `pre` is what ran of the setup, `atPost` the job context
      when the post phase marked it, `marked` whether the job was marked cancelled then, and
      `derived` the job context when the context of the post steps was derived from it.
     */
    method RunPhases(n: nat, plan: Plan) returns (err: Error,
        ghost pre: seq<Act>, ghost setupFailed: bool, ghost atPost: CtxErr, ghost marked: bool, ghost derived: CtxErr)
      requires plan.Job? && plan.pre == Setup(n) && plan.mains == MainActs(n)
      requires OnlyFinally(plan.post) && Teardowns(plan.post) == 1 && Teardown in Acts(plan.post)
      requires EndsInTeardown(plan.post) && Accounted()
      modifies this, job
      ensures Accounted() && Judged()
      ensures trace == old(trace) + pre + (if setupFailed then [] else MainActs(n)) + Acts(plan.post)
      ensures pre <= Setup(n)
      ensures setupFailed ==> pre == [LogMatrix, EvaluateEnv, StartedHook, PrepareActions]
      ensures err.None? ==> pre == Setup(n)
      ensures job.result == Some(Combine(old(job.result), matrix, ending.cancelled, ending.success))
      ensures atPost == Canceled ==> marked && ending.cancelled
      ensures atPost == DeadlineExceeded ==> !ending.success
      ensures derived != Live ==> (ending.cancelled <==> marked)
    {
      SetupActs(n);
      var stepsErr;
      stepsErr, pre, setupFailed := RunSteps(plan.pre, plan.mains);
      Disturb();
      atPost, marked := jobCtx, jobCancelled || jobCtx == Canceled;
      if setupFailed {
        SetupFailure(n, pre);
      }
      var postErr;
      postErr, derived := RunPost(plan.post);
      err := Wrapped(stepsErr, postErr);
    }

    /** One whole job, with what `RunPhases` tells of it. */
    method RunJob(n: nat, plan: Plan) returns (err: Error, started: bool,
        ghost pre: seq<Act>, ghost setupFailed: bool, ghost atPost: CtxErr, ghost marked: bool, ghost derived: CtxErr)
      requires plan.Job? && plan.pre == Setup(n) && plan.mains == MainActs(n)
      requires OnlyFinally(plan.post) && Teardowns(plan.post) == 1 && EndsInTeardown(plan.post)
      requires Acts(plan.post) == PostActs(n) + [CompletedHook, Outputs, Teardown]
      requires Accounted()
      modifies this, job
      ensures Accounted()
      // a job whose container never started runs nothing and leaves the result alone
      ensures !started ==> trace == old(trace) + [StartContainer, CloseContainer] && job.result == old(job.result)
      // otherwise: some of the setup, every main step, every post step in reverse, then the rest, once each
      ensures started ==>
                trace == old(trace) + [StartContainer] + pre + (if setupFailed then [] else MainActs(n))
                           + (PostActs(n) + [CompletedHook, Outputs, Teardown]) + [CloseContainer]
      ensures started ==> pre <= Setup(n)
      ensures started && setupFailed ==> pre == [LogMatrix, EvaluateEnv, StartedHook, PrepareActions]
      ensures started && err.None? ==> pre == Setup(n)
      // a failure of anything that reports one is never a success
      ensures started && AnyFailed(outcomes) ==> !ending.success && job.result != Some(Success)
      // a job nothing interrupted, outside a matrix, is a success exactly when nothing failed
      ensures started && jobCtx == Live ==> ending == Ending(false, !AnyFailed(outcomes))
      ensures started && jobCtx == Live && !matrix ==> job.result == Some(if AnyFailed(outcomes) then Failure else Success)
      // and the result is an ending no better than what interrupted the job before the post phase
      ensures started ==> job.result == Some(Combine(old(job.result), matrix, ending.cancelled, ending.success))
      ensures started && atPost == Canceled ==> marked && ending.cancelled && job.result == Some(Cancelled)
      ensures started && atPost == DeadlineExceeded ==> !ending.success && job.result != Some(Success)
      // while an interrupt after that mark and before the post steps' context is derived marks nothing
      ensures started && derived != Live ==> (ending.cancelled <==> marked)
    {
      pre, setupFailed, atPost, marked, derived := [], false, Live, false, Live;
      err := Perform(StartContainer, JobCtx);
      started := err.None?;
      if started {
        assert Acts(plan.post)[|PostActs(n)| + 2] == Teardown;
        err, pre, setupFailed, atPost, marked, derived := RunPhases(n, plan);
      }
      var closeErr := Perform(CloseContainer, JobCtx);
      err := Wrapped(err, closeErr);
    }

    /**
      One run of the post phase: the same phases, with the interrupt landing in that gap and
      nothing failing.  It invokes all it should, and the job succeeds.
     */
    method InterruptUnmarked(n: nat, post: Executor, c: CtxErr)
      requires OnlyFinally(post) && Acts(post) == PostActs(n) + [CompletedHook, Outputs, Teardown]
      requires c != Live && jobCtx == Live && !matrix && !jobCancelled && !jobFailed && !jobError && !freshError
      modifies this, job
      ensures trace == old(trace) + Acts(post) && Invokes(post, Acts(post), true)
      ensures jobCtx == c && ending == Ending(false, true) && job.result == Some(Success)
    {
      MarkInterrupted(jobCtx);
      Strike(NOTHING.(job := c));
      var ctx := PostStepsContext();
      var acts := PostActs(n) + [CompletedHook, Outputs];
      for i := 0 to |acts|
        invariant trace == old(trace) + acts[..i] && ErrOf(ctx) == Live && jobCtx == c
        invariant !jobCancelled && !jobFailed && !jobError && !freshError
      {
        assert old(trace) + acts[..i + 1] == (old(trace) + acts[..i]) + [acts[i]];
        assert acts[i] != Teardown;
        PerformQuietly(acts[i], ctx);
      }
      assert acts[..|acts|] == acts;
      PerformQuietly(Teardown, ctx);
      assert acts + [Teardown] == Acts(post);
      assert old(trace) + acts + [Teardown] == old(trace) + (acts + [Teardown]);
      InvokesAll(post);
    }
  }
}
