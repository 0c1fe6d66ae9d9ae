/**
  Reservations, uploads, commits, lookups and sweeps in disk mode, interleaved at the
  granularity of store sessions.  A commit copies its row in one session and saves the copy
  in a later one, so every other session may run between the two.
 */
module Lifecycle {
  import opened CacheModel

  // ---- signed URLs and the grace period ----

  /** Expiry written into a download URL signed at `now`. */
  function Expiry(now: int): int {
    Unix(now + ARTIFACT_URL_TTL)
  }

  predicate Accepted(exp: int, now: int) {
    Unix(now) <= exp
  }

  /**
    A row outlives a URL exactly when its stamp lags the URL's expiry by at most 659 seconds:
    then it is in use at every moment the URL is still accepted.
   */
  lemma GraceCoversUrl(c: Cache, exp: int)
    ensures (forall t :: Accepted(exp, t) ==> InUse(c, t)) <==> exp <= c.usedAt + 659
  {
    var last := exp * SECOND + SECOND - 1;
    assert Accepted(exp, last);
    if exp <= c.usedAt + 659 {
      forall t | Accepted(exp, t) ensures InUse(c, t) {
        assert t <= last;
      }
    } else {
      assert !InUse(c, last);
    }
  }

  /** Touching and signing by one clock reading meets that bound. */
  lemma TouchThenSign(c: Cache, now: int)
    requires c.complete
    ensures var stamped := if TouchNeeded(c, now) then c.(usedAt := Unix(now)) else c;
            Expiry(now) <= stamped.usedAt + 659
  {
  }

  /** Without slack: the staleest stamp left alone leaves the grace period at the instant its URL stops being accepted. */
  lemma NoSlack(c: Cache, t: int)
    requires c.complete
    ensures var now := c.usedAt * SECOND + TOUCH_STALE - 1;
            !TouchNeeded(c, now) && (Accepted(Expiry(now), t) <==> InUse(c, t))
  {
    var now := c.usedAt * SECOND + TOUCH_STALE - 1;
    assert Expiry(now) == c.usedAt + 659;
  }

  /**
    When signing reads the clock after the touch did, the bound depends on both: a stamp that
    was fresh enough to be left alone covers a URL signed at `signed` only within its minute.
   */
  lemma LateSigning(c: Cache, signed: int)
    ensures (forall t :: Accepted(Expiry(signed), t) ==> InUse(c, t)) <==> Unix(signed) - c.usedAt <= 59
  {
    GraceCoversUrl(c, Expiry(signed));
    assert Expiry(signed) == Unix(signed) + 600;
  }

  /** One nanosecond between the two readings is enough to lose a row under its accepted URL. */
  lemma LateSigningLoses(c: Cache)
    requires c.complete
    ensures var touched := c.usedAt * SECOND + TOUCH_STALE - 1;
            && !TouchNeeded(c, touched)
            && exists t :: Accepted(Expiry(touched + 1), t) && !InUse(c, t)
  {
    var signed := c.usedAt * SECOND + TOUCH_STALE;
    LateSigning(c, signed);
  }

  // ---- the state machine ----

  /** The part of a row nothing may change. */
  datatype Stamp = Stamp(repo: string, ref: string, key: string, version: string, owner: string, createdAt: int, createdAtNanos: int)

  function StampOf(c: Cache): Stamp {
    Stamp(c.repo, c.ref, c.key, c.version, c.owner, c.createdAt, c.createdAtNanos)
  }

  /** Nothing but size, completion and time of use differs. */
  predicate SameEntry(a: Cache, b: Cache) {
    b == a.(size := b.size, complete := b.complete, usedAt := b.usedAt)
  }

  /** A commit under way: the copy it will save, and when its blob was assembled. */
  datatype Commit = Assembling(copy: Cache) | Assembled(copy: Cache, at: int)

  /** A download URL, with the stamp its row was stored with when it was handed out. */
  datatype Url = Url(id: nat, exp: int, stamp: int)

  /** It was signed at most 59 whole seconds after that stamp. */
  predicate InTime(u: Url) {
    u.exp <= u.stamp + 659
  }

  datatype State = State(
    rows: map<nat, Cache>,
    sequence: nat,
    clock: int,
    commits: map<nat, Commit>,   // by request
    urls: set<Url>,              // handed out so far
    born: map<nat, Stamp>)       // every id given out so far

  datatype Step =
    | Reserve(row: Cache)                          // a v1 reserve or a v2 create
    | BeginCommit(request: nat, id: nat, size: int)
    | Assemble(request: nat, written: int)
    | AssemblyFails(request: nat)
    | Save(request: nat, kept: map<nat, Cache>)    // with the evictions at its end
    | GiveUp(request: nat)                         // the store did not open, or the write failed
    | Touch(id: nat)                               // a part, a download, a repeated create
    | HandOut(id: nat, touched: int, stored: bool) // a lookup that hits: one clock reading for the touch, one to sign
    | DropDead(id: nat)                            // a lookup that finds the blob gone
    | Sweep(kept: map<nat, Cache>)                 // any of the five passes

  function Touched(c: Cache, now: int): Cache {
    if TouchNeeded(c, now) then c.(usedAt := Unix(now)) else c
  }

  /** One session, or one step of a request between sessions, at time `now`. */
  ghost predicate Next(s: State, step: Step, now: int, s': State) {
    && s.clock <= now == s'.clock
    && match step {
      case Reserve(row) =>
        var id := s.sequence + 1;
        && id !in s.rows
        && s' == s.(sequence := id, clock := now, born := s.born[id := StampOf(row)],
                    rows := s.rows[id := row.(id := id, complete := false, usedAt := Unix(now))])
      case BeginCommit(request, id, size) =>
        && request !in s.commits && id in s.rows && !s.rows[id].complete
        && s' == s.(clock := now, commits := s.commits[request := Assembling(s.rows[id].(size := size))])
      case Assemble(request, written) =>
        && request in s.commits && s.commits[request].Assembling?
        && var copy := s.commits[request].copy.(size := written, complete := true, usedAt := Unix(now));
           s' == s.(clock := now, commits := s.commits[request := Assembled(copy, now)])
      case AssemblyFails(request) =>
        && request in s.commits && s.commits[request].Assembling?
        && s' == s.(clock := now, commits := s.commits - {request})
      case Save(request, kept) =>
        && request in s.commits && s.commits[request].Assembled?
        && var Assembled(copy, at) := s.commits[request];
           && copy.id in s.rows
           && SweepAllowed(s.rows[copy.id := copy], kept, now)
           && s' == s.(clock := now, rows := kept, commits := s.commits - {request})
      case GiveUp(request) =>
        && request in s.commits && s.commits[request].Assembled?
        && s' == s.(clock := now, commits := s.commits - {request})
      case Touch(id) =>
        && id in s.rows
        && s' == s.(clock := now, rows := s.rows[id := Touched(s.rows[id], now)])
      case HandOut(id, touched, stored) =>
        && id in s.rows && s.rows[id].complete && s.clock <= touched <= now
        && var row := if stored then Touched(s.rows[id], touched) else s.rows[id];
           s' == s.(clock := now, rows := s.rows[id := row], urls := s.urls + {Url(id, Expiry(now), row.usedAt)})
      case DropDead(id) =>
        && id in s.rows && s.rows[id].complete
        && s' == s.(clock := now, rows := s.rows - {id}, urls := set u | u in s.urls && u.id != id)
      case Sweep(kept) =>
        && SweepAllowed(s.rows, kept, now)
        && s' == s.(clock := now, rows := kept)
    }
  }

  /**
    The step leaves the URL covered: unless it saves the row of the URL, the URL was signed at
    most 59 whole seconds after the blob of that save was assembled.
   */
  ghost predicate CoversUrl(s: State, step: Step, now: int, u: Url) {
    step.Save? && step.request in s.commits && s.commits[step.request].Assembled? && s.commits[step.request].copy.id == u.id
      && u in s.urls && InTime(u) && Accepted(u.exp, now) ==>
      u.exp <= Unix(s.commits[step.request].at) + 659
  }

  /** It leaves every URL covered. */
  ghost predicate Covering(s: State, step: Step, now: int) {
    forall u <- s.urls :: CoversUrl(s, step, now, u)
  }

  ghost predicate Init(s: State) {
    && Keyed(s.rows) && s.commits == map[] && s.urls == {}
    && s.born == (map id | id in s.rows :: StampOf(s.rows[id]))
    && forall id <- s.rows :: id <= s.sequence
  }

  ghost predicate Genuine(s: State, c: Cache) {
    c.id in s.born && StampOf(c) == s.born[c.id]
  }

  ghost predicate Inv(s: State) {
    && Keyed(s.rows)
    && (forall id <- s.born :: id <= s.sequence)
    && (forall id <- s.rows :: Genuine(s, s.rows[id]))
    && (forall r <- s.commits :: Genuine(s, s.commits[r].copy))
    && (forall r <- s.commits :: s.commits[r].Assembled? ==>
          s.commits[r].copy.complete && s.commits[r].copy.usedAt == Unix(s.commits[r].at))
  }

  ghost predicate UrlsCovered(s: State) {
    forall u <- s.urls :: UrlCovered(s, u)
  }

  /** An accepted URL signed in time names a completed row that stays in use for as long as the URL is accepted. */
  ghost predicate UrlCovered(s: State, u: Url) {
    && u.exp <= Expiry(s.clock)
    && (InTime(u) && Accepted(u.exp, s.clock) ==> u.id in s.rows && s.rows[u.id].complete && u.exp <= s.rows[u.id].usedAt + 659)
  }

  /** What one step may do to the rows. */
  ghost predicate Monotone(s: State, s': State) {
    && s.clock <= s'.clock
    // an id once given out keeps its stamp, and once its row is gone it stays gone
    && (forall id <- s.born :: id in s'.born && s'.born[id] == s.born[id] && (id !in s.rows ==> id !in s'.rows))
    // a row is never uncommitted and never becomes another entry
    && (forall id <- s.rows :: id in s'.rows ==>
          StampOf(s'.rows[id]) == StampOf(s.rows[id]) && (s.rows[id].complete ==> s'.rows[id].complete))
  }

  lemma InitInv(s: State)
    requires Init(s)
    ensures Inv(s) && UrlsCovered(s)
  {
  }

  /** Rewriting one row under its own stamp, and dropping others, keeps every row genuine. */
  lemma {:induction false} RewriteRows(s: State, c: Cache, s': State)
    requires Inv(s) && Genuine(s, c) && c.id in s.rows && (s.rows[c.id].complete ==> c.complete)
    requires s.clock <= s'.clock && s'.sequence == s.sequence && s'.born == s.born
    requires OnlyRemoves(s.rows[c.id := c], s'.rows)
    ensures Keyed(s'.rows) && Monotone(s, s') && forall id <- s'.rows :: Genuine(s', s'.rows[id])
  {
  }

  lemma {:induction false} DropRows(s: State, s': State)
    requires Inv(s) && s.clock <= s'.clock && s'.sequence == s.sequence && s'.born == s.born
    requires OnlyRemoves(s.rows, s'.rows)
    ensures Keyed(s'.rows) && Monotone(s, s') && forall id <- s'.rows :: Genuine(s', s'.rows[id])
  {
  }

  lemma {:induction false} ReserveRow(s: State, row: Cache, now: int, s': State)
    requires Inv(s) && Next(s, Reserve(row), now, s')
    ensures Keyed(s'.rows) && Monotone(s, s') && forall id <- s'.rows :: Genuine(s', s'.rows[id])
    ensures forall id <- s'.born :: id <= s'.sequence
  {
  }

  lemma {:induction false} StepRows(s: State, step: Step, now: int, s': State)
    requires Inv(s) && Next(s, step, now, s')
    ensures Keyed(s'.rows) && Monotone(s, s')
    ensures forall id <- s'.born :: id <= s'.sequence
    ensures forall id <- s'.rows :: Genuine(s', s'.rows[id])
  {
    match step {
      case Save(request, _) => RewriteRows(s, s.commits[request].copy, s');
      case Touch(id) => RewriteRows(s, Touched(s.rows[id], now), s');
      case HandOut(id, touched, stored) => RewriteRows(s, if stored then Touched(s.rows[id], touched) else s.rows[id], s');
      case Reserve(row) => ReserveRow(s, row, now, s');
      case _ => DropRows(s, s');
    }
  }

  lemma {:induction false} StepCommits(s: State, step: Step, now: int, s': State)
    requires Inv(s) && Next(s, step, now, s')
    ensures forall r <- s'.commits :: Genuine(s', s'.commits[r].copy)
    ensures forall r <- s'.commits :: s'.commits[r].Assembled? ==>
              s'.commits[r].copy.complete && s'.commits[r].copy.usedAt == Unix(s'.commits[r].at)
  {
  }

  /** A URL covered before a step is covered after it if and only if the step is no save that comes too late for it. */
  lemma {:induction false} NextUrl(s: State, step: Step, now: int, s': State, u: Url)
    requires Inv(s) && UrlCovered(s, u) && Next(s, step, now, s') && u in s.urls && u in s'.urls
    ensures UrlCovered(s', u) <==> CoversUrl(s, step, now, u)
  {
    if step.Save? {
      SaveUrl(s, step.request, step.kept, now, s', u);
    } else {
      KeptUrl(s, step, now, s', u);
    }
  }

  lemma {:induction false} SaveUrl(s: State, request: nat, kept: map<nat, Cache>, now: int, s': State, u: Url)
    requires Inv(s) && UrlCovered(s, u) && Next(s, Save(request, kept), now, s') && u in s.urls
    ensures UrlCovered(s', u) <==> CoversUrl(s, Save(request, kept), now, u)
  {
  }

  lemma {:induction false} KeptUrl(s: State, step: Step, now: int, s': State, u: Url)
    requires Inv(s) && UrlCovered(s, u) && Next(s, step, now, s') && !step.Save? && u in s.urls && u in s'.urls
    ensures UrlCovered(s', u)
  {
  }

  /** A URL handed out by one clock reading, its stamp stored, is signed in time; and the stamp is left alone for a minute. */
  lemma {:induction false} OneReadingInTime(s: State, id: nat, now: int, s': State)
    requires Next(s, HandOut(id, now, true), now, s')
    ensures var u := Url(id, Unix(now) + 600, s'.rows[id].usedAt); u in s'.urls && InTime(u)
    ensures s'.rows[id].usedAt == if now - s.rows[id].usedAt * SECOND >= 60 * SECOND then Unix(now) else s.rows[id].usedAt
  {
    TouchThenSign(s.rows[id], now);
  }

  lemma {:induction false} NewUrl(s: State, step: Step, now: int, s': State, u: Url)
    requires Next(s, step, now, s') && u !in s.urls && u in s'.urls
    ensures UrlCovered(s', u)
  {
  }

  /** The same for all URLs: no sweep takes a row from under an accepted one, and a save does exactly when it is too late. */
  lemma {:induction false} NextUrls(s: State, step: Step, now: int, s': State)
    requires Inv(s) && UrlsCovered(s) && Next(s, step, now, s')
    ensures UrlsCovered(s') <==> Covering(s, step, now)
  {
    forall u <- s'.urls ensures UrlCovered(s', u) <==> CoversUrl(s, step, now, u) {
      if u in s.urls {
        NextUrl(s, step, now, s', u);
      } else {
        NewUrl(s, step, now, s', u);
      }
    }
    assert step.Save? ==> s'.urls == s.urls;
  }

  lemma {:induction false} NextInv(s: State, step: Step, now: int, s': State)
    requires Inv(s) && Next(s, step, now, s')
    ensures Inv(s') && Monotone(s, s')
  {
    StepRows(s, step, now, s');
    StepCommits(s, step, now, s');
  }

  // ---- whole runs ----

  ghost predicate Linked(s: State, s': State) {
    exists step, now :: Next(s, step, now, s')
  }

  ghost predicate Run(states: seq<State>) {
    && states != [] && Init(states[0])
    && forall i :: 0 <= i < |states| - 1 ==> Linked(states[i], states[i + 1])
  }

  lemma {:induction false} RunInv(states: seq<State>, i: nat)
    requires Run(states) && i < |states|
    ensures Inv(states[i])
  {
    if i == 0 {
      InitInv(states[0]);
    } else {
      RunInv(states, i - 1);
      assert Linked(states[i - 1], states[i - 1 + 1]);
      var step, now :| Next(states[i - 1], step, now, states[i]);
      NextInv(states[i - 1], step, now, states[i]);
    }
  }

  /**
    Over every run: a deleted id never reappears, a completed row stays completed, and repo,
    ref, key, version, owner and creation time of a row never change.
   */
  lemma {:induction false} RunMonotone(states: seq<State>, i: nat, j: nat)
    requires Run(states) && i <= j < |states|
    ensures states[i].clock <= states[j].clock
    ensures forall id <- states[i].born :: id in states[j].born && states[j].born[id] == states[i].born[id]
    ensures forall id <- states[i].born :: id !in states[i].rows ==> id !in states[j].rows
    ensures forall id <- states[i].rows :: id in states[j].rows ==>
              SameEntry(states[i].rows[id], states[j].rows[id]) && (states[i].rows[id].complete ==> states[j].rows[id].complete)
    decreases j
  {
    RunInv(states, i);
    RunInv(states, j);
    if i < j {
      RunMonotone(states, i, j - 1);
      RunInv(states, j - 1);
      assert Linked(states[j - 1], states[j - 1 + 1]);
      var step, now :| Next(states[j - 1], step, now, states[j]);
      NextInv(states[j - 1], step, now, states[j]);
    }
  }

  /** The step between the two states leaves the URL covered. */
  ghost predicate LinkCovers(s: State, s': State, u: Url) {
    exists step, now :: Next(s, step, now, s') && CoversUrl(s, step, now, u)
  }

  ghost predicate LinkCoversAt(states: seq<State>, k: nat, u: Url) {
    k + 1 < |states| && LinkCovers(states[k], states[k + 1], u)
  }

  ghost predicate CoveredAt(states: seq<State>, k: nat, u: Url) {
    k < |states| && UrlCovered(states[k], u)
  }

  /** Every step of the run from one state to another leaves the URL covered. */
  ghost predicate SavesCover(states: seq<State>, i: nat, j: nat, u: Url) {
    forall k: nat :: i <= k < j ==> LinkCoversAt(states, k, u)
  }

  ghost predicate StaysCovered(states: seq<State>, i: nat, j: nat, u: Url) {
    forall k: nat :: i <= k <= j ==> CoveredAt(states, k, u)
  }

  /**
    Between two states of any run in which a URL stays handed out, it stays covered if and only
    if no save of its row comes too late for it.
   */
  lemma {:induction false} CoveredThroughout(states: seq<State>, i: nat, j: nat, u: Url)
    requires Run(states) && i <= j < |states| && UrlCovered(states[i], u)
    requires forall k :: i <= k <= j ==> u in states[k].urls
    ensures StaysCovered(states, i, j, u) <==> SavesCover(states, i, j, u)
  {
    assert CoveredAt(states, i, u);
    forall k: nat | i <= k < j ensures StepDecides(states, k, u) {
      RunLinkUrl(states, k, u);
    }
    DecidedThroughout(states, i, j, u);
  }

  /** Whether a covered URL is still covered in the next state is decided by the step between them. */
  ghost predicate StepDecides(states: seq<State>, k: nat, u: Url) {
    CoveredAt(states, k, u) ==> (CoveredAt(states, k + 1, u) <==> LinkCoversAt(states, k, u))
  }

  lemma {:induction false} DecidedThroughout(states: seq<State>, i: nat, j: nat, u: Url)
    requires i <= j && CoveredAt(states, i, u) && forall k: nat :: i <= k < j ==> StepDecides(states, k, u)
    ensures StaysCovered(states, i, j, u) <==> SavesCover(states, i, j, u)
    decreases j
  {
    if i < j {
      DecidedThroughout(states, i, j - 1, u);
      assert StepDecides(states, j - 1, u);
      assert StaysCovered(states, i, j - 1, u) ==> CoveredAt(states, j - 1, u);
    }
  }

  lemma {:induction false} RunLinkUrl(states: seq<State>, j: nat, u: Url)
    requires Run(states) && j < |states| - 1 && u in states[j].urls && u in states[j + 1].urls
    ensures StepDecides(states, j, u)
  {
    RunInv(states, j);
    assert Linked(states[j], states[j + 1]);
    if UrlCovered(states[j], u) {
      LinkUrl(states[j], states[j + 1], u);
    }
  }

  lemma {:induction false} LinkUrl(s: State, s': State, u: Url)
    requires Inv(s) && Linked(s, s') && UrlCovered(s, u) && u in s.urls && u in s'.urls
    ensures UrlCovered(s', u) <==> LinkCovers(s, s', u)
  {
    forall step, now | Next(s, step, now, s') ensures UrlCovered(s', u) <==> CoversUrl(s, step, now, u) {
      NextUrl(s, step, now, s', u);
    }
  }

  lemma {:induction false} LinkKeepsUrl(s: State, s': State, u: Url)
    requires Inv(s) && LinkCovers(s, s', u) && (u in s.urls ==> UrlCovered(s, u)) && u in s'.urls
    ensures UrlCovered(s', u)
  {
    var step, now :| Next(s, step, now, s') && CoversUrl(s, step, now, u);
    if u in s.urls {
      NextUrl(s, step, now, s', u);
    } else {
      NewUrl(s, step, now, s', u);
    }
  }

  lemma {:induction false} RunUrl(states: seq<State>, i: nat, u: Url)
    requires Run(states) && i < |states| && SavesCover(states, 0, i, u) && u in states[i].urls
    ensures UrlCovered(states[i], u)
  {
    if i > 0 {
      RunInv(states, i - 1);
      assert LinkCoversAt(states, i - 1, u);
      if u in states[i - 1].urls { RunUrl(states, i - 1, u); }
      LinkKeepsUrl(states[i - 1], states[i], u);
    }
  }

  /**
    Over every run: the row of an accepted URL that was signed in time is there, completed, and
    off limits to every sweep for as long as the URL is accepted, whatever happens to other rows,
    provided no save of this very row comes too late for this very URL.
   */
  lemma UrlNeverCutOff(states: seq<State>, i: nat, u: Url)
    requires Run(states) && i < |states| && u in states[i].urls && SavesCover(states, 0, i, u)
    requires InTime(u) && Accepted(u.exp, states[i].clock)
    ensures u.id in states[i].rows && states[i].rows[u.id].complete
    ensures forall t :: Accepted(u.exp, t) ==> InUse(states[i].rows[u.id], t)
  {
    RunUrl(states, i, u);
    GraceCoversUrl(states[i].rows[u.id], u.exp);
  }

  // ---- the two bounds are needed ----

  /** Every sweep the rules permit spares the row of an accepted URL if and only if the URL expires within 659 seconds of its stamp. */
  lemma SweepsSpare(s: State, u: Url)
    requires u.id in s.rows && s.rows[u.id].complete && Accepted(u.exp, s.clock)
    ensures (forall kept, now, s' :: Next(s, Sweep(kept), now, s') && Accepted(u.exp, now) ==> u.id in s'.rows)
              <==> u.exp <= s.rows[u.id].usedAt + 659
  {
    GraceCoversUrl(s.rows[u.id], u.exp);
    if u.exp > s.rows[u.id].usedAt + 659 {
      var last := u.exp * SECOND + SECOND - 1;
      var kept := s.rows - {u.id};
      var s' := s.(clock := last, rows := kept);
      assert Next(s, Sweep(kept), last, s') && Accepted(u.exp, last) && u.id !in s'.rows;
    } else {
      forall kept, now, s' | Next(s, Sweep(kept), now, s') && Accepted(u.exp, now) ensures u.id in s'.rows {
        assert InUse(s.rows[u.id], now);
      }
    }
  }

  /** A save covers the URLs of its row signed at most 59 whole seconds after its blob was assembled, and no others. */
  lemma SaveCovers(s: State, request: nat, kept: map<nat, Cache>, now: int, s': State, u: Url, signed: int)
    requires Inv(s) && Next(s, Save(request, kept), now, s') && u.id == s.commits[request].copy.id && u.id in kept
    requires InTime(u) && u.exp == Expiry(signed) && signed <= now && Accepted(u.exp, now)
    ensures UrlCovered(s', u) <==> Unix(signed) - Unix(s.commits[request].at) <= 59
  {
  }

  /** A run none of whose saves comes too late for any URL. */
  ghost predicate CoveringRun(states: seq<State>) {
    && Run(states)
    && forall i :: 0 <= i < |states| - 1 ==> LinkCovering(states[i], states[i + 1])
  }

  ghost predicate LinkCovering(s: State, s': State) {
    exists step, now :: Next(s, step, now, s') && Covering(s, step, now)
  }

  /** An accepted URL whose row is gone. */
  ghost predicate CutOff(s: State, u: Url) {
    u in s.urls && Accepted(u.exp, s.clock) && u.id !in s.rows
  }

  const EXAMPLE: Cache := Cache(1, "repo", "ref", "key", "version", -1, "job", false, 0, 0, 0)
  const DONE: Cache := EXAMPLE.(complete := true, size := 0)

  /** A store that has given out one id. */
  function Entry(rows: map<nat, Cache>, clock: int, commits: map<nat, Commit>, urls: set<Url>): State {
    State(rows, 1, clock, commits, urls, map[1 := StampOf(EXAMPLE)])
  }

  lemma {:induction false} LastLink(states: seq<State>, step: Step, now: int, s: State)
    requires Run(states) && Next(states[|states| - 1], step, now, s)
    ensures Run(states + [s])
    ensures CoveringRun(states) && Covering(states[|states| - 1], step, now) ==> CoveringRun(states + [s])
  {
    var more := states + [s];
    var last := states[|states| - 1];
    assert Linked(last, s) && (Covering(last, step, now) ==> LinkCovering(last, s));
    forall i | 0 <= i < |more| - 1 ensures Linked(more[i], more[i + 1]) {
      assert i < |states| - 1 ==> Linked(states[i], states[i + 1]);
    }
  }

  /** The entry is reserved, and `requests` begin to commit it. */
  lemma {:induction false} ExampleBegun(requests: nat) returns (states: seq<State>)
    requires 1 <= requests <= 2
    ensures CoveringRun(states)
    ensures var begun := Assembling(EXAMPLE.(size := 0));
            states[|states| - 1] == Entry(map[1 := EXAMPLE], 0, if requests == 1 then map[0 := begun] else map[0 := begun, 1 := begun], {})
  {
    var begun := Assembling(EXAMPLE.(size := 0));
    var s0 := State(map[], 0, 0, map[], {}, map[]);
    var s1 := Entry(map[1 := EXAMPLE], 0, map[], {});
    var s2 := Entry(map[1 := EXAMPLE], 0, map[0 := begun], {});
    LastLink([s0], Reserve(EXAMPLE), 0, s1);
    states := [s0] + [s1];
    LastLink(states, BeginCommit(0, 1, 0), 0, s2);
    states := states + [s2];
    if requests == 2 {
      var s3 := Entry(map[1 := EXAMPLE], 0, map[0 := begun, 1 := begun], {});
      LastLink(states, BeginCommit(1, 1, 0), 0, s3);
      states := states + [s3];
    }
  }

  /** The first request assembles and saves; a second one is left with its blob assembled. */
  lemma {:induction false} ExampleSaved(requests: nat) returns (states: seq<State>)
    requires 1 <= requests <= 2
    ensures CoveringRun(states)
    ensures states[|states| - 1] == Entry(map[1 := DONE], 0, if requests == 1 then map[] else map[1 := Assembled(DONE, 0)], {})
  {
    var begun, made := Assembling(EXAMPLE.(size := 0)), Assembled(DONE, 0);
    states := ExampleBegun(requests);
    var s := Entry(map[1 := EXAMPLE], 0, if requests == 1 then map[0 := made] else map[0 := made, 1 := begun], {});
    LastLink(states, Assemble(0, 0), 0, s);
    states := states + [s];
    if requests == 2 {
      s := Entry(map[1 := EXAMPLE], 0, map[0 := made, 1 := made], {});
      LastLink(states, Assemble(1, 0), 0, s);
      states := states + [s];
    }
    s := Entry(map[1 := DONE], 0, if requests == 1 then map[] else map[1 := made], {});
    LastLink(states, Save(0, map[1 := DONE]), 0, s);
    states := states + [s];
  }

  /** Signing one nanosecond after the touch can cost the row of an accepted URL, in a run none of whose saves is late. */
  lemma {:induction false} LateSigningLosesRow() returns (states: seq<State>, u: Url)
    ensures CoveringRun(states) && CutOff(states[|states| - 1], u)
  {
    u := Url(1, 660, 0);
    states := ExampleSaved(1);
    var s := Entry(map[1 := DONE], 60 * SECOND, map[], {u});
    LastLink(states, HandOut(1, 60 * SECOND - 1, true), 60 * SECOND, s);
    states := states + [s];
    s := Entry(map[], 660 * SECOND, map[], {u});
    LastLink(states, Sweep(map[]), 660 * SECOND, s);
    states := states + [s];
  }

  /** A save a minute after its assembly can cost the row of an accepted URL that was signed in time. */
  lemma {:induction false} LateSaveLosesRow() returns (states: seq<State>, u: Url)
    ensures Run(states) && InTime(u) && CutOff(states[|states| - 1], u)
  {
    u := Url(1, 660, 60);
    states := ExampleSaved(2);
    var s := Entry(map[1 := DONE.(usedAt := 60)], 60 * SECOND, map[1 := Assembled(DONE, 0)], {u});
    LastLink(states, HandOut(1, 60 * SECOND, true), 60 * SECOND, s);
    states := states + [s];
    s := Entry(map[1 := DONE], 60 * SECOND, map[], {u});
    LastLink(states, Save(1, map[1 := DONE]), 60 * SECOND, s);
    states := states + [s];
    s := Entry(map[], 660 * SECOND, map[], {u});
    LastLink(states, Sweep(map[]), 660 * SECOND, s);
    states := states + [s];
  }
}
