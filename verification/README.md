# A model of the act runner's cache server and job machinery

The runner executes workflow jobs and serves their caches. This project models the parts of it
whose behaviour is hardest to see from the code, and proves what they promise.

The cache server (`act/artifactcache`):

- `Options.dfy` is the optional value the other modules share.
- `CacheModel.dfy` is the row a cache entry is, and the clock arithmetic (nanoseconds, whole-second stamps).
- `Mirror.dfy` is the bolt bucket shared by several processes and the in-memory mirror in front of it, as
  objects on a heap: entries handed to callers may be overwritten by them at any time.
- `Restore.dfy` is the ranked restore search, against a declarative "best row".
- `Eviction.dfy` and `Passes.dfy` say what one eviction pass decides, and how passes combine.
- `Server.dfy` is the server in disk mode within one store session: lookups, touches, deletes and all sweeps.
- `Lifecycle.dfy` is the interleaving of store sessions, with the life time of signed URLs.
- `S3Sync.dfy` is the publish/import protocol of runners that share an S3 bucket.
- `Names.dfy` and `Staging.dfy` are the directory an upload is staged in and assembled from.

The rest of the runner:

- `JobExecutor.dfy`: the executors of one job, and the result its matrix combinations share.
- `ParallelExecutor.dfy`: the worker pool, as a state machine over all schedules.
- `SingleFlight.dfy` and `TreeLink.dfy`: fetching an action once for all callers, and resolving links in its tree.
- `DockerProxy.dfy`: admission of requests against shutdown.
- `LineWriter.dfy`, `Commands.dfy` and `CommandSpelling.dfy`: step output as lines, the workflow commands in it, and both
  spellings of a command written down and read back.

Code that works by changing things is modelled by classes and methods; protocols between
processes, requests or goroutines are state machines whose theorems are about every run. A store
session (from opening the bolt file to closing it) is one atomic step. Which reads, writes and
deletes fail is arbitrary: within a session it is a parameter (`Faults`), chosen anew for every pass of a
sweep; between sessions every failing step is a step of its own. Clock readings never go back; `Now` may return any later time.

## What came out differently

- The comment at `act/artifactcache/handler.go:1197-1199` says that an entry outlives every signed URL still usable
  for it. That holds when touching and signing read one clock value, and then without a nanosecond to spare
  (`Lifecycle.TouchThenSign`, `Lifecycle.NoSlack`). The code reads the clock once for the touch and again for the expiry
  (`act/artifactcache/handler.go:678` and `:1401`), so it holds exactly for the URLs signed at most 59 whole seconds after the stored stamp
  (`Lifecycle.SweepsSpare`, `Lifecycle.UrlNeverCutOff`), and one nanosecond between the readings can lose the row
  (`Lifecycle.LateSigningLosesRow`). A commit saves a copy stamped when its blob was assembled, so a save of the URL's own row takes
  the row from under it exactly when the URL was signed a minute or more after that (`Lifecycle.NextUrls`,
  `Lifecycle.CoveredThroughout`, `Lifecycle.LateSaveLosesRow`).
- The comment of `touchCache` says that an entry missing from the store is accepted
  (`act/artifactcache/handler.go:1164-1168`); the code returns an error for it, and so does `Server.Handler.TouchCache`.
- A block list that fails at a missing block has already renamed the blocks before it. Uploading the
  missing block and repeating the list fails at the first block (`Staging.RetryAfterMissingFails`).
- The properties of a command in the current spelling read back exactly, but for white space at the end of the last value, which is
  trimmed with the list (`CommandSpelling.CurrentReadsBack`, `CommandSpelling.CurrentReadsBackExactly`); in the legacy spelling they
  always do (`CommandSpelling.LegacyReadsBack`).
- Every `stop-commands` token is accepted (`Commands.AnyTokenStops`), but a line that ends the suspension exists if and only if the
  token is not empty, has no space and no line break, has no `::` or no `]` in it, and each of its characters is, case apart, the
  lower case of some character (`Commands.TokenEndable`). The dotted capital I (U+0130) is not, since the name of a command is lowered
  before it is compared (`Commands.DottedINeverResumes`).
- Dropping superseded rows changes no answer of the search, but it can turn a lookup's hit into a miss: when the newest row of a
  key has lost its blob, the older row the lookup would fall back to may be gone. With nothing in use and nothing stuck, lookups
  stay as they were if and only if the newest row of every key with a live row is live (`Server.Handler.EvictSuperseded`,
  `Passes.HitBecomesMiss`).
- An interrupt that lands after the post phase has marked the job and before it derives the context of the post steps
  (`act/runner/job_executor.go:313-314`) marks nothing: the job ends cancelled only if it was marked before, and can end in
  success (`JobExecutor.RunContext.RunJob`, `JobExecutor.RunContext.InterruptUnmarked`).

## Model

| member | source | states |
|---|---|---|
| Mirror.CacheDB.Load | act/artifactcache/handler.go:475-495 | Afterwards the mirror agrees with decoding the whole bucket; a mirror that is current is left as it is; a bucket that does not decode is an error and changes nothing. |
| Mirror.CacheDB.Get | act/artifactcache/handler.go:447-457 | Answers what decoding the bucket at this moment gives for the id, in an entry nobody else holds. |
| Mirror.CacheDB.Find | act/artifactcache/handler.go:459-473 | Fresh entries for exactly the matching rows of the decoded bucket, in id order. |
| Mirror.ListRows | act/artifactcache/handler.go:464-471 | Ranging in any order and filing by id lists every matching row once, ascending. |
| Mirror.ListsUnique | act/artifactcache/handler.go:459-473 | A bucket and a predicate have one such listing, so ties break the same way every time. |
| Mirror.CacheDB.BeginUpdate | act/artifactcache/handler.go:498-508 | A mirror that followed every commit stays; one that missed another process's is dropped. |
| Mirror.CacheDB.PutRow | act/artifactcache/handler.go:516-526 | Bucket and mirror take the row together, the mirror in a copy the caller cannot reach. |
| Mirror.CacheDB.DeleteRow | act/artifactcache/handler.go:528-531 | Bucket and mirror lose the row together. |
| Mirror.CacheDB.EndUpdate | act/artifactcache/handler.go:509-514 | A commit leaves the mirror current; a rollback leaves the bucket as it was and drops the mirror. |
| Mirror.CacheDB.Save | act/artifactcache/handler.go:553-561 | Rewrites a stored row; a row that is gone is not brought back. |
| Mirror.CacheDB.DropLegacyIndexes | act/artifactcache/handler.go:533-551 | Commits without the mirror, the bucket unchanged and the mirror still sound. |
| Mirror.CacheDB.Run | act/artifactcache/handler.go:433-561 | Over any run of reads, committed and rolled-back updates, index drops, other processes' commits and callers overwriting entries, every answer is the one decoding the bucket at that moment gives. |
| Mirror.DecodesAsStored | act/artifactcache/handler.go:475-495 | A bucket decodes as a whole or not at all, each row as it was stored but under the id of its key. |
| Mirror.ReadsWhatWasWritten | act/artifactcache/handler.go:516-531 | A row put is the one got, a row deleted is not found, and no other answer changes. |
| Mirror.SavingAddsNone | act/artifactcache/handler.go:553-561 | Saving rewrites a row that is there or changes nothing, and never adds an id. |
| Mirror.AnswersDetermined | act/artifactcache/handler.go:433-561 | Those answers are determined by the bucket alone, so the mirror cannot be told from decoding afresh. |
| Restore.Latest | act/artifactcache/handler.go:1118-1125 | The maximum by stamp, ties to the higher id; none for an empty list. |
| Restore.SearchRefs | act/artifactcache/handler.go:1086-1091 | A ref is searched if and only if it is the job's own or a base or default ref that is set, each once, the own ref first and the base ref next. |
| Restore.FindCache | act/artifactcache/handler.go:1084-1116 | The prefilter and nested loops return the one row that ranks above all others by ref position, first matching key, exact before prefix, newest creation, highest id; nothing only when no row matches. Said twice: by position in the search, and field by field. |
| Restore.BestIsRestored | act/artifactcache/handler.go:1084-1125 | The two descriptions of the answer agree on every store and query. |
| Restore.BaseBeforeDefault | act/artifactcache/handler.go:1086-1091 | A matching row on the base ref is restored when the own ref has none, whatever the default ref holds. |
| Restore.BestUnique | act/artifactcache/handler.go:1084-1125 | A query has at most one such row, so the search has one right answer. |
| Restore.SupersededKeepsAnswers | act/artifactcache/handler.go:1306-1325 | Removing superseded rows changes the answer of no search. |
| Restore.ExactlySuperseded | act/artifactcache/handler.go:1306-1325 | Removing completed rows changes the answer of no search if and only if something newer of each row's identity stays. |
| Restore.LiveAnswers | act/artifactcache/handler.go:683-704 | Among rows whose blob exists, the answers stay the same if the newest row of every key with a live row is live, and only then when no superseded row is left. |
| Server.Handler.DeleteCache | act/artifactcache/handler.go:1450-1467 | The blob goes first; whatever fails, the row stays for the next sweep. |
| Server.Handler.Touch | act/artifactcache/handler.go:1399-1415 | The stamp moves to a clock reading of this call unless it is recent enough, and is stored unless the write fails. |
| Server.Handler.TouchCache | act/artifactcache/handler.go:1164-1188 | Touches by id; fails for a missing row, and for a finished one when asked to. |
| Server.Handler.LookupCache | act/artifactcache/handler.go:683-704 | Terminates; a hit is the best row among those whose blob exists, a miss means there is none; only dead rows are removed, and only the hit's stamp changes. |
| Server.Handler.DropOversized | act/artifactcache/handler.go:1361-1374 | In place, keeps exactly the rows that fit, in order, and tries every other row that is not in use. |
| Server.Handler.EvictInOrder | act/artifactcache/handler.go:1376-1387 | Skips a row exactly when what is left fits by the time the pass comes to it; total and freed add up to the original total. |
| Server.Handler.EvictTo | act/artifactcache/handler.go:1359-1391 | Both of the above on one list, with the rows of the store that remain, and nothing in use removed. |
| Eviction.OlderSurvivorsExcused | act/artifactcache/handler.go:1377-1384 | Least recently used first: a survivor older than a victim was in use or would not go. |
| Eviction.LastVictimNeeded | act/artifactcache/handler.go:1378-1386 | The pass stops as soon as the rows fit: with the last victim back they would not. |
| Eviction.AboveLimitAllTried | act/artifactcache/handler.go:1377-1387 | A pass that ends above the limit has come to every fitting row. |
| Eviction.SortByUse | act/artifactcache/handler.go:1431-1435 | Orders rows by last use, losing and adding none. |
| Server.Handler.CachesByUse | act/artifactcache/handler.go:1431-1440 | All matching rows of the store, least recently used first. |
| Server.Handler.MakeRoom | act/artifactcache/handler.go:1265-1289 | One pass with limit total minus shortfall; when nothing is in use and nothing fails, free space and the bytes of the rows that went reach the floor with what is needed on top of it, or nothing is left. |
| Passes.QuietPassMakesRoom | act/artifactcache/handler.go:1272-1288 | That arithmetic, for any pass over any rows. |
| Eviction.OversizedUnavoidable | act/artifactcache/handler.go:1361-1373 | With sizes not negative, a row dropped as too big on its own belongs to every choice of rows that frees the shortfall. |
| Server.Handler.EvictIncomplete | act/artifactcache/handler.go:1291-1295 | Removes exactly the reservations nothing was written to for the stall timeout. |
| Server.Handler.EvictExpired | act/artifactcache/handler.go:1297-1304 | Nothing goes before it has been unused for longer than the retention and the stamp's lag, and than the grace period; what has been for a second longer when the pass begins is gone if it can be. |
| Server.Handler.EvictSuperseded | act/artifactcache/handler.go:1306-1325 | Removes only rows something newer of the same identity outlives, and leaves no such row that was out of use and could be deleted; every search answers as before, and every lookup does exactly when the newest rows are live. |
| Passes.HitBecomesMiss | act/artifactcache/handler.go:1306-1325 | A store in which that pass turns a lookup's hit into a miss. |
| Server.Handler.EvictPerRepo | act/artifactcache/handler.go:1329-1338 | One pass per repository over lists taken before the first, none disturbing another's rows. |
| Server.Handler.EvictTotal | act/artifactcache/handler.go:1342-1349 | One pass over every completed row still there. |
| Server.Handler.EvictRepo | act/artifactcache/handler.go:1351-1357 | One pass over one repository's completed rows. |
| Server.Handler.GcCache | act/artifactcache/handler.go:1245-1263 | A whole sweep takes completed rows only out of use and reservations only once stalled, and changes no row that stays; each of its five passes achieves what it is for, whatever failed in the others. |
| Server.Handler.FindExactCache | act/artifactcache/handler.go:1127-1146 | The newest completed row, or the reservation last written to, for exactly this key, version and owner scope; ties go to the higher id. |
| Server.Handler.InsertCache | act/artifactcache/handler.go:1148-1162 | Takes the next id of the bucket, or gives it back and fails. |
| Server.Handler.CreateCacheEntry | act/artifactcache/handler_v2.go:54-124 | A reservation is made only when every other row of the identity is incomplete and stalled; one written to within the stall timeout is handed back to its own job and refused to others; a new one is stamped and dated by a clock reading of this call. |
| Lifecycle.GraceCoversUrl | act/artifactcache/handler.go:1195-1199 | A row is in use at every moment a URL is accepted if and only if the expiry is at most 659 seconds after its stamp. |
| Lifecycle.TouchThenSign | act/artifactcache/handler.go:676-698 | Touching and signing at one reading meets that bound. |
| Lifecycle.OneReadingInTime | act/artifactcache/handler.go:676-698 | In the state machine: a URL handed out by one reading with its stamp stored is in time, and the stamp is left alone for a minute. |
| Lifecycle.NoSlack | act/artifactcache/handler.go:1195-1199 | For the staleest stamp left alone, acceptance of the URL and the grace period end at the same instant. |
| Lifecycle.LateSigning | act/artifactcache/handler.go:676-698 | With a later signing reading the bound holds if and only if the stamp is at most 59 whole seconds behind it. |
| Lifecycle.LateSigningLoses | act/artifactcache/handler.go:1399-1402 | A signing one nanosecond after the touch can miss that bound. |
| Lifecycle.NextInv | act/artifactcache/handler.go:739-885 | Every session and every step between sessions keeps every row and every in-flight copy genuine, deletes for good and completes for good. |
| Lifecycle.NextUrls | act/artifactcache/handler.go:855-885 | URLs covered before a step are covered after it if and only if the step is no save, or each accepted URL of the saved row was signed at most 59 whole seconds after that save's blob was assembled; no sweep ever uncovers one. |
| Lifecycle.CoveredThroughout | act/artifactcache/handler.go:855-885 | Over any stretch of any run, one URL stays covered if and only if no save of its own row comes too late for it. |
| Lifecycle.RunMonotone | act/artifactcache/handler.go:554-561 | Over every run a deleted id never reappears, a completed row stays completed, and identity, owner and creation time never change, though commits save copies read in earlier sessions. |
| Lifecycle.UrlNeverCutOff | act/artifactcache/handler.go:1297-1391 | Over every run, touch and signing reading the clock separately and the touch stored or not: the row of an accepted URL signed within 59 whole seconds of its stored stamp is there, completed and in use for as long as the URL is accepted, unless a save of this row came too late for this URL. |
| Lifecycle.SweepsSpare | act/artifactcache/handler.go:1297-1391 | In any state, every permitted sweep spares the row of an accepted URL if and only if the URL expires within 659 seconds of the row's stamp. |
| Lifecycle.SaveCovers | act/artifactcache/handler.go:855-885 | A save covers the URLs of its row that were signed at most 59 whole seconds after its blob was assembled, and no others. |
| Lifecycle.LateSigningLosesRow | act/artifactcache/handler.go:676-680 | A run without a late save in which a sweep takes the row of an accepted URL, its signing one nanosecond after its touch. |
| Lifecycle.LateSaveLosesRow | act/artifactcache/handler.go:855-885 | A run in which a save a minute after its assembly, then a sweep, take the row of an accepted URL signed in time. |
| S3Sync.NextInv | act/artifactcache/handler.go:604-652 | Every step of commits, imports, sweeps and other runners keeps: what is complete was published, and what was published is there or was withdrawn. |
| S3Sync.ImportDeletesOnlyWithdrawn | act/artifactcache/handler.go:604-652 | Over every run, a row an import deletes had its metadata in the bucket at some point and out of it at a later one. |
| S3Sync.ImportAloneAgrees | act/artifactcache/handler.go:605-652 | An import nothing intervenes in leaves exactly the published ids complete and touches no other row. |
| S3Sync.HistoryTrue | act/artifactcache/s3_storage.go:292-311 | "Published" and "withdrawn" mean what they say about the states of the run. |
| Names.ValueOfHex | act/artifactcache/storage.go:170-172 | A part's name determines its offset. |
| Names.ValueOrdered | act/artifactcache/storage.go:170-172 | Names in listing order carry offsets in numeric order. |
| Staging.Storage.Write | act/artifactcache/storage.go:43-60 | Stages exactly this part of this upload; a copy that breaks off leaves no file. |
| Staging.Storage.WriteBlock | act/artifactcache/storage.go:62-64 | The same for a block, under its id. |
| Staging.Storage.OrderBlocks | act/artifactcache/storage.go:66-92 | Moves the listed blocks into list order and records the list; a recorded list is only compared; a missing block stops with the ones before it moved; it succeeds if and only if something is staged and the list is the recorded one, or none is recorded and the listed blocks are all staged, each listed once. |
| Staging.Storage.TempNames | act/artifactcache/storage.go:185-198 | The part files in listing order, blocks and the list left out. |
| Staging.Storage.Assemble | act/artifactcache/storage.go:117-147 | Appends the named parts in the order given. |
| Staging.Storage.Commit | act/artifactcache/storage.go:94-115 | The blob is the parts in numeric offset order; when the size differs or no part was uploaded there is no blob; when nothing was staged an earlier blob stays; the directory is gone in every case. |
| Staging.Storage.Remove | act/artifactcache/storage.go:155-160 | Drops the blob and whatever is staged, of this id only; a blob that cannot be unlinked leaves both. |
| Staging.JoinedInTurn | act/artifactcache/storage.go:117-147 | Parts are joined one after the other, each as it is. |
| Staging.ConcatenatedInTurn | act/artifactcache/storage.go:66-92 | So are listed blocks. |
| Staging.OffsetOrderUnique | act/artifactcache/storage.go:94-147 | A commit has one possible blob, whatever the order in which parts were written. |
| Staging.OrderingSucceeds | act/artifactcache/storage.go:70-92 | The same condition, for any outcome of ordering: no error if and only if there is a directory and the list is the one recorded, or can be applied. |
| Staging.ListedBlocksCommitted | act/artifactcache/storage.go:66-147 | After ordering, a commit yields exactly the listed blocks in list order. |
| Staging.OrderingTwice | act/artifactcache/storage.go:75-82 | The same list again changes nothing, another one is refused. |
| Staging.RetryAfterMissingFails | act/artifactcache/storage.go:83-90 | After a failure at a later block, uploading it and repeating the list fails at the first block. |
| JobExecutor.NewPipelineExecutor | act/common/executor.go:39-53 | Chains executors in order. |
| JobExecutor.SuccessInvokesAll | act/common/executor.go:128-139 | A run without an error invoked everything, in order. |
| JobExecutor.FinallyInvokesAll | act/common/executor.go:185-198 | A chain of Finally invokes everything exactly once and in order, whatever fails. |
| JobExecutor.PipelineInvokesPrefix | act/common/executor.go:128-139 | A pipeline invokes an initial segment. |
| JobExecutor.NewJobExecutor | act/runner/job_executor.go:171-304 | Builds the setup, the main steps in order, and a post executor that runs post steps in reverse before hook, outputs and teardown. |
| JobExecutor.PreStepsInOrder | act/runner/job_executor.go:224-234 | Pre steps run in step order. |
| JobExecutor.RunContext.Report | act/runner/job_executor.go:187-275 | What each executor does with its outcome: a failure is on the flags, on a live context nothing else is, and an error of the setup is passed on. |
| JobExecutor.RunContext.RunSetup | act/runner/job_executor.go:353-361 | The setup runs up to its first error or until the job is interrupted, and counts as failed exactly when the error was one of preparing the actions. |
| JobExecutor.RunContext.ReportStepError | act/runner/job_executor.go:71-83 | A cancellation error marks the job only as its context says; any other error fails it. |
| JobExecutor.RunContext.MarkInterrupted | act/runner/run_context.go:158-169 | A cancelled context marks the job cancelled, a timed-out one failed. |
| JobExecutor.RunContext.Exec | act/common/executor.go:128-198 | Runs an executor under any environment: what it invoked is a run of it, flags only grow, and a teardown records an ending no better than the flags. |
| JobExecutor.RunContext.RunMainSteps | act/runner/job_executor.go:366-402 | Every main step exactly once in order, whenever the job is interrupted, between steps too; an interrupt is on the flags afterwards. |
| JobExecutor.RunContext.RunSteps | act/runner/job_executor.go:342-364 | An initial segment of the setup, then all main steps, or none if the setup itself failed. |
| JobExecutor.RunContext.PostStepsContext | act/runner/job_executor.go:321-340 | Post steps run on the live context, or detached from one that is done. |
| JobExecutor.RunContext.SetJobResult | act/runner/job_executor.go:404-436 | Writes the shared result: cancelled sticks, failure outranks success. |
| JobExecutor.RunContext.RunPost | act/runner/job_executor.go:310-318 | Every post step in reverse, then hook, outputs and teardown; on a context that is done the job ends cancelled if and only if it was marked so before. |
| JobExecutor.RunContext.RunJob | act/runner/job_executor.go:306-319 | The whole trace of a job under every pattern of failures and interruptions, at any moment, and its result: cancelled if the context was cancelled before the post phase marked it, not success if it had timed out, and as marked if the interrupt came after the mark; never success when a step, a hook, the preparation or the outputs failed, in whichever error container; and, outside a matrix and uninterrupted, success exactly when none of them did. |
| JobExecutor.RunContext.InterruptUnmarked | act/runner/job_executor.go:310-318 | One run of the whole post phase, every executor of it invoked, in which an interrupt between the mark and the derived context leaves the job a success. |
| JobExecutor.MatrixResult | act/runner/job_executor.go:418-436 | Combinations finishing in any order leave cancelled if any was, else failure if any failed, else success. |
| JobExecutor.OrderIrrelevant | act/runner/job_executor.go:408-411 | Two orders of the same endings leave the same result. |
| ParallelExecutor.NoDeadlock | act/common/executor.go:77-126 | In every reachable state before the return, something other than a cancellation can happen. |
| ParallelExecutor.Terminates | act/common/executor.go:77-126 | Every step brings the end one step closer, so every schedule ends. |
| ParallelExecutor.BoundedParallelism | act/common/executor.go:81-105 | At most max(parallel, 1) executors run at a time. |
| ParallelExecutor.ReturnedMeansAllDone | act/common/executor.go:107-119 | At the return every executor completed exactly once and no worker is running one. |
| ParallelExecutor.ReturnedError | act/common/executor.go:113-124 | The return is the context's error once cancelled, else the first error to complete. |
| ParallelExecutor.FirstErrorMeaning | act/common/executor.go:113-119 | First in completion order, and nil only when all were nil. |
| SingleFlight.NextInv | act/common/git/fetch_action.go:58-86 | Every step of every caller keeps: a registered call is open and its leader at work on it. |
| SingleFlight.AtMostOneFetch | act/common/git/fetch_action.go:62-70 | At no time do two callers run the fetch of one input. |
| SingleFlight.ReturnedResultIsSound | act/common/git/fetch_action.go:62-83 | A result comes from a call registered when the caller arrived, whose leader ended the fetch neither cancelled nor panicking. |
| SingleFlight.OwnCancellationOnly | act/common/git/fetch_action.go:77-85 | A caller returns a cancellation only for its own context. |
| SingleFlight.NobodyWaitsInVain | act/common/git/fetch_action.go:66-83 | A call somebody waits for is closed, or its leader is still at work on it. |
| TreeLink.ResolveTreeLink | act/common/git/fetch_action.go:316-347 | Terminates, by links left and then parts left, with what resolving component by component gives. |
| TreeLink.LinkStandsForTarget | act/common/git/fetch_action.go:335-344 | A link among link-free components stands for its target, read from the directory the link is in; an empty or absolute target, or the 256th link, leads nowhere. |
| TreeLink.FirstLinkFollowed | act/common/git/fetch_action.go:322-345 | The same for the first link on any path, read from the directory the components before it lead to. |
| TreeLink.FirstLink | act/common/git/fetch_action.go:322-345 | A path with a link on its way comes to such a first link. |
| TreeLink.LinkedName | act/common/git/fetch_action.go:335-344 | A name through a link resolves to what the name through its target does. |
| TreeLink.UnlinkedResolves | act/common/git/fetch_action.go:322-338 | A path with no link on its way resolves to where its components lead, and to nothing exactly if they lead above the root. |
| TreeLink.UnlinkedName | act/common/git/fetch_action.go:316-346 | A local name with no link on its way resolves to its cleaned self. |
| TreeLink.LocalNames | act/common/git/fetch_action.go:317-319 | A name that is empty, absolute, or leads above the root by itself resolves to nothing. |
| TreeLink.ResolvedIsLinkFree | act/common/git/fetch_action.go:316-347 | A resolved path is local, has no dots, and no link at its end or on the way. |
| TreeLink.ResolvingTwice | act/common/git/fetch_action.go:316-347 | Resolving a resolved path gives the same path. |
| TreeLink.ResolveInTurn | act/common/git/fetch_action.go:322-345 | A path resolves by resolving its front first, links followed counting together. |
| DockerProxy.NextInv | act/container/docker_proxy.go:303-366 | Every step of requests and of the close call keeps: one holder of the lock, and the wait group counts the admitted handlers. |
| DockerProxy.NoneAdmittedAfterCancel | act/container/docker_proxy.go:304-311 | No request is admitted once the streams are cancelled. |
| DockerProxy.ClosedMeansFinished | act/container/docker_proxy.go:352-366 | Once the close call has returned, every admitted handler has finished, and stays so. |
| DockerProxy.CreatesCutOnlyAfterShutdown | act/container/docker_proxy.go:313-361 | The shutdown cancels an admitted create request only after Shutdown has returned. |
| DockerProxy.CloseNeverStuck | act/container/docker_proxy.go:352-366 | Until it has returned, the close call can move, or the request holding the lock it waits for can, or a handler it waits for can. |
| DockerProxy.CloseComesCloser | act/container/docker_proxy.go:313-366 | Once the streams are cancelled nothing adds to the stages and handlers the close call waits for, and each of its steps and each handler that ends takes one off. |
| DockerProxy.CloseIsBounded | act/container/docker_proxy.go:313-366 | Over every run from there on, the close call's steps and ended handlers are as many as what was left went down by. |
| LineWriter.LineWriter.HandleLine | act/common/line_writer.go:62-68 | A line goes down the chain until a handler stops it. |
| LineWriter.LineWriter.Write | act/common/line_writer.go:40-49 | After any writes the handlers have seen exactly the complete lines of everything written, and the buffer holds the rest. |
| LineWriter.LineWriter.Flush | act/common/line_writer.go:51-60 | The handlers have then seen every line, the last one too if it had no newline. |
| LineWriter.LineWriter.WriteAll | act/common/line_writer.go:40-60 | The handlers' final state depends on the stream only, not on its chunks. |
| LineWriter.LinesCover | act/common/line_writer.go:40-60 | The lines put together are the stream. |
| LineWriter.LinesShape | act/common/line_writer.go:40-49 | A line has its newline at the end and nowhere else. |
| Commands.ParseActionCommand | act/runner/command.go:19-62 | Parses the current spelling, then the legacy one, as the function `Parse` says, under any tables of lower case and case folding with Unicode's properties. |
| CommandSpelling.CurrentReadsBack | act/runner/command.go:19-62 | A known command with any properties and data, written in the current spelling, parses back into its name, its properties with the white space at the very end trimmed, and its data. |
| CommandSpelling.CurrentReadsBackExactly | act/runner/command.go:50-57 | That is exactly what was written if and only if the last value does not end in white space, or is nothing else and says only what was said before. |
| CommandSpelling.LegacyReadsBack | act/runner/command.go:19-62 | The same in the legacy spelling, always exactly. |
| CommandSpelling.PairsMeaning | act/runner/command.go:53-57 | A repeated key takes its last value, and an empty value adds none. |
| CommandSpelling.LineEndDropped | act/runner/command.go:21-24 | Line breaks at the end of a line do not matter. |
| CommandSpelling.IndentedReadsBack | act/runner/command.go:25-27 | Nor does white space before a command in the current spelling. |
| CommandSpelling.LegacyAfterText | act/runner/command.go:30-33 | Nor does text before one in the legacy spelling. |
| CommandSpelling.KnownNames | act/runner/command.go:42-45 | The commands there are. |
| Commands.UnescapeEscape | act/runner/command.go:273-294 | Unescaping undoes escaping for every string, with every table that decodes the three codes. |
| Commands.DataDecodes | act/runner/command.go:276 | The data table is one. |
| Commands.PropertyDecodes | act/runner/command.go:277 | So is the property table. |
| Commands.LegacyDecodes | act/runner/command.go:278 | So is the legacy table. |
| Commands.AnnotationReadsBack | act/runner/command.go:131-147 | An annotation parses back into its level, no properties and exactly its text. |
| Commands.AnnotationPlaces | act/runner/command.go:131-147 | File, line and column in that order, then the title, before the message. |
| Commands.SetsOutput | act/runner/command.go:90-91 | An output takes the command's properties and data. |
| Commands.SavesState | act/runner/command.go:94-95 | So does saved state. |
| Commands.SetsEnvironment | act/runner/command.go:84-89 | The environment is changed, or the command refused. |
| Commands.AddsPath | act/runner/command.go:84-93 | So is the path. |
| Commands.SwitchesEcho | act/runner/command.go:96-102 | Echoing is switched for the lines that follow. |
| Commands.MaskShowsStars | act/runner/command.go:103-108 | A mask is never logged but as stars, and those only when echoing. |
| Commands.ShowsDebug | act/runner/command.go:115-116 | Debug lines show in debug mode. |
| Commands.LevelsAnnotate | act/runner/command.go:117-119 | A level is rewritten as an annotation in place of its line. |
| Commands.GroupsAreMarked | act/runner/command.go:120-125 | A group mark is logged, or rewritten if its line does not start with it. |
| Commands.MatchersDoNothing | act/runner/command.go:42-45 | Matchers do nothing. |
| Commands.CommandHandler.Handle | act/runner/command.go:64-129 | A suspended handler logs every line, does nothing and listens for its token only; only a stop command suspends, under the token it names; only an echo command switches echoing; what has happened stays. |
| Commands.CommandHandler.HandleAll | act/runner/command.go:64-129 | The handler run over lines does what the chain of handler and log does to its state. |
| Commands.SuspendedLines | act/runner/command.go:75-82 | While suspended, other lines are logged as they are and do nothing else. |
| Commands.SuspensionEnds | act/runner/command.go:75-82 | From stopping to the matching end line everything is logged and only the log grows; then commands work again. |
| Commands.StopSuspends | act/runner/command.go:109-114 | A stop line is logged, masks a token of more than six bytes, and starts the suspension its data names. |
| Commands.AnyTokenStops | act/runner/command.go:109-114 | Every token can be named in a stop line. |
| Commands.TokenResumes | act/runner/command.go:40-49 | A token that is one word on one line, without `::` or without `]`, whose characters are lower case up to case folding, is ended by a line in one of the two spellings. |
| Commands.OthersNeverResume | act/runner/command.go:40-49 | No line ends any other token. |
| Commands.TokenEndable | act/runner/command.go:20-62 | Some line ends the suspension if and only if the token is of that form. |
| Commands.DottedINeverResumes | act/runner/command.go:40-49 | A token with the dotted capital I in it is never ended. |
| Commands.RunOutput | act/runner/run_context.go:776-787 | A step's output leaves handler and log as its lines do one by one, however it is chunked. |

## Left out

- HTTP routing, JSON, XML and YAML coding, HMAC and SigV4 signing: values arrive decoded, a stored row decodes to what was encoded, a signed URL is its id and expiry.
- bolt itself: exclusive open, atomic commits, growing transaction ids and a persistent sequence are assumed.
- 64-bit overflow of creation nanoseconds, sizes and durations: integers are unbounded.
- Lifecycle.UrlNeverCutOff: a lookup that finds a blob missing drops the row with the URLs to it, which name nothing any more.
- Lifecycle.RunMonotone: starts from a store whose ids the bucket's own sequence gave out; random ids left over from S3 mode may be met again by the sequence.
- Server.Handler.GcCache: the minimum interval between sweeps and the flag against concurrent ones are not modelled, nor is the final call of makeRoom, which is a session of its own.
- S3Sync.NextInv: multipart upload, request errors in the middle of a listing page and the order of listing pages by name are not modelled; a page is any set of keys read at one moment.
- Staging.Storage.Commit: read and write errors while assembling are not modelled; SHA-256 is taken to be free of collisions.
- JobExecutor.RunContext.Perform: step conditions, continue-on-error evaluation, log writers and panics in steps; a step is any outcome with any interruption.
- Executor.Retry and the conditional combinators: short loops and tests with nothing relating them to the rest.
- Reusable workflow callers and the result written for a job that could not be enabled: they bypass the shared result.
- Callers of `FetchAction` whose input cannot be compared: they fetch on their own (`act/common/git/fetch_action.go:59-61`).
- TreeLink.ResolveTreeLink: paths as on Unix, with one separator and no volume names.
- Commands.ParseActionCommand: a string is a sequence of characters, so invalid UTF-8 is not modelled; the case tables are a parameter of which only their behaviour on ASCII and on the marks of a command is fixed.
- Commands.CommandHandler.Handle: what setting an environment variable or an output does to later steps is an effect in a list; whether set-env and add-path are refused is a function of that list.
- Masking of secrets in log lines, and the rewriting of docker create requests.
- Docker, Kubernetes and git clients, process handling, archives and host path lookup.
