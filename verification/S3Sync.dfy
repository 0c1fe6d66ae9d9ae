/**
  Runners sharing an S3 bucket.  A commit publishes its metadata before it stores its row;
  an import snapshots the completed rows, then lists and fetches what is published, then
  adds and deletes rows.  Everything else may happen between any two of these steps.
 */
module S3Sync {
  import opened CacheModel

  /** A commit after its blob went to the bucket. */
  datatype Commit =
    | Uploaded(copy: Cache)
    | Published(copy: Cache)
    | Refused                 // the publish failed, its removal is still to come

  datatype Import =
    | Idle
    | Listing(local: set<nat>, read: iset<nat>, found: set<nat>)
    | Fetching(gone: set<nat>, todo: set<nat>, added: map<nat, Cache>)

  datatype State = State(
    rows: map<nat, Cache>,       // this runner's store
    metadata: map<nat, Cache>,   // the bucket
    commits: map<nat, Commit>,   // one in flight per id
    importing: Import,
    published: set<nat>,         // ids whose metadata was ever there
    withdrawn: set<nat>)         // ids whose metadata went after having been there

  datatype Step =
    | Reserve(row: Cache)
    | Upload(id: nat, copy: Cache)
    | Publish(id: nat)
    | PublishFails(id: nat, stored: bool)
    | UndoPublish(id: nat, removed: bool)
    | Save(id: nat)
    | SaveFails(id: nat)
    | Touch(id: nat, usedAt: int)
    | SweepIncomplete(kept: map<nat, Cache>)
    | DropDead(id: nat)             // a lookup found the blob gone
    | OtherPublishes(c: Cache)      // another runner
    | Withdraw(id: nat)             // another runner, or a lifecycle rule of the bucket
    | Snapshot
    | ListPage(page: iset<nat>)
    | ListDone
    | Fetch(id: nat)
    | Apply
    | ImportFails

  function CompleteIds(rows: map<nat, Cache>): set<nat> {
    set id | id in rows && rows[id].complete
  }

  function PutMetadata(s: State, c: Cache): State {
    s.(metadata := s.metadata[c.id := c], published := s.published + {c.id})
  }

  function DropMetadata(s: State, id: nat): State {
    s.(metadata := s.metadata - {id}, withdrawn := s.withdrawn + (if id in s.published then {id} else {}))
  }

  /** The rows once an import is applied: added first, then deleted. */
  function Applied(rows: map<nat, Cache>, i: Import): map<nat, Cache>
    requires i.Fetching?
  {
    (rows + i.added) - i.gone
  }

  ghost predicate Next(s: State, step: Step, s': State) {
    match step
    case Reserve(row) =>
      row.id !in s.rows && !row.complete && s' == s.(rows := s.rows[row.id := row])
    case Upload(id, copy) =>
      && id in s.rows && !s.rows[id].complete && id !in s.commits
      && copy == s.rows[id].(complete := true, size := copy.size, usedAt := copy.usedAt)
      && s' == s.(commits := s.commits[id := Uploaded(copy)])
    case Publish(id) =>
      && id in s.commits && s.commits[id].Uploaded?
      && s' == PutMetadata(s, s.commits[id].copy).(commits := s.commits[id := Published(s.commits[id].copy)])
    case PublishFails(id, stored) =>
      && id in s.commits && s.commits[id].Uploaded?
      && s' == (if stored then PutMetadata(s, s.commits[id].copy) else s).(commits := s.commits[id := Refused])
    case UndoPublish(id, removed) =>
      && id in s.commits && s.commits[id].Refused?
      && s' == (if removed then DropMetadata(s, id) else s).(commits := s.commits - {id})
    case Save(id) =>
      && id in s.commits && s.commits[id].Published? && id in s.rows
      && s' == s.(rows := s.rows[id := s.commits[id].copy], commits := s.commits - {id})
    case SaveFails(id) =>
      && id in s.commits && s.commits[id].Published?
      && s' == s.(commits := s.commits - {id})
    case Touch(id, usedAt) =>
      && id in s.rows && s' == s.(rows := s.rows[id := s.rows[id].(usedAt := usedAt)])
    case SweepIncomplete(kept) =>
      && OnlyRemoves(s.rows, kept) && (forall id <- s.rows :: id !in kept ==> !s.rows[id].complete)
      && s' == s.(rows := kept)
    case DropDead(id) =>
      && id in s.rows && s.rows[id].complete
      && s' == DropMetadata(s, id).(rows := s.rows - {id})
    case OtherPublishes(c) =>
      c.complete && s' == PutMetadata(s, c)
    case Withdraw(id) =>
      s' == DropMetadata(s, id)
    case Snapshot =>
      s.importing.Idle? && s' == s.(importing := Listing(CompleteIds(s.rows), iset{}, {}))
    case ListPage(page) =>
      && s.importing.Listing?
      && s' == s.(importing := s.importing.(read := s.importing.read + page,
                                            found := s.importing.found + set id | id in s.metadata && id in page))
    case ListDone =>
      && s.importing.Listing? && (forall id: nat :: id in s.importing.read)
      && s' == s.(importing := Fetching(s.importing.local - s.importing.found, s.importing.found - s.importing.local, map[]))
    case Fetch(id) =>
      && s.importing.Fetching? && id in s.importing.todo && id in s.metadata
      && s' == s.(importing := s.importing.(todo := s.importing.todo - {id}, added := s.importing.added[id := s.metadata[id]]))
    case Apply =>
      && s.importing.Fetching? && s.importing.todo == {}
      && s' == s.(importing := Idle, rows := Applied(s.rows, s.importing))
    case ImportFails =>
      !s.importing.Idle? && s' == s.(importing := Idle)
  }

  /** A store with no rows from before it used S3: what is complete is published. */
  ghost predicate Init(s: State) {
    && Keyed(s.rows) && Keyed(s.metadata) && s.commits == map[] && s.importing == Idle
    && (forall id <- s.metadata :: s.metadata[id].complete)
    && CompleteIds(s.rows) <= s.metadata.Keys
    && s.published == s.metadata.Keys && s.withdrawn == {}
  }

  ghost predicate CommitOk(s: State, id: nat) {
    id in s.commits && !s.commits[id].Refused? ==>
      && s.commits[id].copy.complete && s.commits[id].copy.id == id
      && (s.commits[id].Published? ==> id in s.published)
  }

  ghost predicate ImportOk(s: State) {
    match s.importing
    case Idle => true
    case Listing(local, read, found) =>
      && local <= s.published
      && forall id <- local :: id in read ==> id in found || id in s.withdrawn
    case Fetching(gone, todo, added) =>
      && gone <= s.withdrawn
      && Keyed(added) && forall id <- added :: added[id].complete && id in s.published
  }

  /** A completed row was published, and what was published is there or was withdrawn. */
  ghost predicate Stores(s: State) {
    Rows(s.rows, s.published) && Metadata(s.metadata, s.published, s.withdrawn)
  }

  ghost predicate Rows(rows: map<nat, Cache>, published: set<nat>) {
    Keyed(rows) && forall id <- rows :: rows[id].complete ==> id in published
  }

  ghost predicate Metadata(metadata: map<nat, Cache>, published: set<nat>, withdrawn: set<nat>) {
    && Keyed(metadata)
    && (forall id <- metadata :: metadata[id].complete && id in published)
    && (forall id <- published :: id in metadata || id in withdrawn)
  }

  ghost predicate Inv(s: State) {
    && Stores(s)
    && (forall id <- s.commits :: CommitOk(s, id))
    && ImportOk(s)
  }

  lemma {:induction false} PutStores(s: State, c: Cache)
    requires Stores(s) && c.complete
    ensures Stores(PutMetadata(s, c))
  {
  }

  lemma {:induction false} DropStores(s: State, id: nat)
    requires Stores(s)
    ensures Stores(DropMetadata(s, id))
  {
  }

  lemma {:induction false} ApplyStores(s: State, s': State)
    requires Inv(s) && Next(s, Apply, s')
    ensures Stores(s')
  {
  }

  lemma {:induction false} NextStores(s: State, step: Step, s': State)
    requires Inv(s) && Next(s, step, s')
    ensures Stores(s')
  {
    match step {
      case Publish(id) =>
        assert CommitOk(s, id);
        PutStores(s, s.commits[id].copy);
      case PublishFails(id, _) =>
        assert CommitOk(s, id);
        PutStores(s, s.commits[id].copy);
      case UndoPublish(id, _) => DropStores(s, id);
      case OtherPublishes(c) => PutStores(s, c);
      case Withdraw(id) => DropStores(s, id);
      case DropDead(id) => DropStores(s, id);
      case Save(id) => assert CommitOk(s, id);
      case Apply => ApplyStores(s, s');
      case _ =>
    }
  }

  lemma {:induction false} NextCommits(s: State, step: Step, s': State)
    requires Inv(s) && Next(s, step, s')
    ensures forall id <- s'.commits :: CommitOk(s', id)
  {
    forall id <- s'.commits ensures CommitOk(s', id) {
      assert id in s.commits ==> CommitOk(s, id);
    }
  }

  lemma {:induction false} NextImport(s: State, step: Step, s': State)
    requires Inv(s) && Next(s, step, s')
    ensures ImportOk(s')
  {
  }

  lemma NextInv(s: State, step: Step, s': State)
    requires Inv(s) && Next(s, step, s')
    ensures Inv(s')
  {
    NextStores(s, step, s');
    NextCommits(s, step, s');
    NextImport(s, step, s');
  }

  /** An import deletes a row only if its metadata was withdrawn after having been published. */
  lemma {:induction false} ApplyDeletesWithdrawn(s: State, s': State, id: nat)
    requires Inv(s) && Next(s, Apply, s') && id in s.rows && id !in s'.rows
    ensures id in s.withdrawn
  {
  }

  // ---- whole runs ----

  ghost predicate Linked(s: State, s': State) {
    exists step :: Next(s, step, s')
  }

  ghost predicate Run(states: seq<State>) {
    && states != [] && Init(states[0])
    && forall i :: 0 <= i < |states| - 1 ==> Linked(states[i], states[i + 1])
  }

  lemma {:induction false} RunInv(states: seq<State>, i: nat)
    requires Run(states) && i < |states|
    ensures Inv(states[i])
  {
    if i > 0 {
      RunInv(states, i - 1);
      assert Linked(states[i - 1], states[i - 1 + 1]);
      var step :| Next(states[i - 1], step, states[i]);
      NextInv(states[i - 1], step, states[i]);
    }
  }

  ghost predicate Seen(states: seq<State>, i: nat, id: nat) {
    exists j :: 0 <= j <= i < |states| && id in states[j].metadata
  }

  /** Its metadata was in the bucket at some point and missing at a later one. */
  ghost predicate SeenThenGone(states: seq<State>, i: nat, id: nat) {
    exists j, k :: 0 <= j < k <= i < |states| && id in states[j].metadata && id !in states[k].metadata
  }

  lemma {:induction false} HistoryStep(s: State, step: Step, s': State, id: nat)
    requires Next(s, step, s')
    ensures id in s'.published ==> id in s.published || id in s'.metadata
    ensures id in s'.withdrawn ==> id in s.withdrawn || (id in s.published && id !in s'.metadata)
  {
  }

  lemma {:induction false} HistoryTrue(states: seq<State>, i: nat, id: nat)
    requires Run(states) && i < |states|
    ensures id in states[i].published ==> Seen(states, i, id)
    ensures id in states[i].withdrawn ==> SeenThenGone(states, i, id)
  {
    if i == 0 {
      assert id in states[0].published ==> id in states[0].metadata;
    } else {
      HistoryTrue(states, i - 1, id);
      assert Linked(states[i - 1], states[i - 1 + 1]);
      var step :| Next(states[i - 1], step, states[i]);
      HistoryStep(states[i - 1], step, states[i], id);
      if id in states[i].published {
        if id in states[i - 1].published {
          var j :| 0 <= j <= i - 1 && id in states[j].metadata;
          assert Seen(states, i, id);
        } else {
          assert id in states[i].metadata;
        }
      }
      if id in states[i].withdrawn {
        if id in states[i - 1].withdrawn {
          var j, k :| 0 <= j < k <= i - 1 && id in states[j].metadata && id !in states[k].metadata;
          assert SeenThenGone(states, i, id);
        } else {
          assert id in states[i - 1].published && id !in states[i].metadata;
          var j :| 0 <= j <= i - 1 && id in states[j].metadata;
          assert SeenThenGone(states, i, id);
        }
      }
    }
  }

  /** Over every run: the row an import deletes had its metadata in the bucket, and out of it later. */
  lemma ImportDeletesOnlyWithdrawn(states: seq<State>, i: nat, id: nat)
    requires Run(states) && i + 1 < |states| && Next(states[i], Apply, states[i + 1])
    requires id in states[i].rows && id !in states[i + 1].rows
    ensures SeenThenGone(states, i, id)
  {
    RunInv(states, i);
    ApplyDeletesWithdrawn(states[i], states[i + 1], id);
    HistoryTrue(states, i, id);
  }

  // ---- an import on its own ----

  predicate ImportStep(step: Step) {
    step.ListPage? || step.ListDone? || step.Fetch?
  }

  ghost predicate Alone(states: seq<State>) {
    && |states| >= 2 && Next(states[0], Snapshot, states[1])
    && forall i :: 1 <= i < |states| - 1 ==> exists step :: ImportStep(step) && Next(states[i], step, states[i + 1])
  }

  /** How far an undisturbed import has come. */
  ghost predicate Progress(first: State, s: State) {
    && s.rows == first.rows && s.metadata == first.metadata
    && match s.importing
       case Idle => false
       case Listing(local, read, found) =>
         && local == CompleteIds(first.rows)
         && found <= first.metadata.Keys && forall id <- first.metadata :: id in read ==> id in found
       case Fetching(gone, todo, added) =>
         && gone == CompleteIds(first.rows) - first.metadata.Keys
         && todo + added.Keys == first.metadata.Keys - CompleteIds(first.rows)
         && forall id <- added :: added[id] == first.metadata[id]
  }

  lemma {:induction false} ProgressStep(first: State, s: State, step: Step, s': State)
    requires Progress(first, s) && ImportStep(step) && Next(s, step, s')
    ensures Progress(first, s')
  {
  }

  lemma {:induction false} AloneProgress(states: seq<State>, i: nat)
    requires Alone(states) && 1 <= i < |states|
    ensures Progress(states[0], states[i])
  {
    if i > 1 {
      AloneProgress(states, i - 1);
      var s, s' := states[i - 1], states[i - 1 + 1];
      var step :| ImportStep(step) && Next(s, step, s');
      ProgressStep(states[0], s, step, s');
    }
  }

  /** What an undisturbed import makes of one id. */
  lemma {:induction false} AppliedRow(first: State, s: State, last: State, id: nat)
    requires Inv(first) && Progress(first, s) && Next(s, Apply, last)
    ensures id in last.rows && last.rows[id].complete <==> id in first.metadata
    ensures id in first.rows && !first.rows[id].complete && id !in first.metadata ==>
              id in last.rows && last.rows[id] == first.rows[id]
    ensures id in first.metadata ==>
              last.rows[id] == if id in CompleteIds(first.rows) then first.rows[id] else first.metadata[id]
  {
    var added, gone := s.importing.added, s.importing.gone;
    assert id in added <==> id in first.metadata && id !in CompleteIds(first.rows);
    assert last.rows == (first.rows + added) - gone;
  }

  /** An import nothing intervenes in leaves exactly the published ids complete, and touches no other row. */
  lemma {:induction false} ImportAloneAgrees(states: seq<State>, last: State)
    requires Alone(states) && Inv(states[0]) && Next(states[|states| - 1], Apply, last)
    ensures CompleteIds(last.rows) == states[0].metadata.Keys
    ensures forall id <- states[0].rows :: id !in states[0].metadata && !states[0].rows[id].complete ==>
              id in last.rows && last.rows[id] == states[0].rows[id]
    ensures forall id <- states[0].metadata :: id in CompleteIds(states[0].rows) ==> last.rows[id] == states[0].rows[id]
    ensures forall id <- states[0].metadata :: id !in CompleteIds(states[0].rows) ==> last.rows[id] == states[0].metadata[id]
  {
    var first, s := states[0], states[|states| - 1];
    AloneProgress(states, |states| - 1);
    forall id: nat
      ensures id in last.rows && last.rows[id].complete <==> id in first.metadata
      ensures id in first.rows && !first.rows[id].complete && id !in first.metadata ==>
                id in last.rows && last.rows[id] == first.rows[id]
      ensures id in first.metadata ==>
                last.rows[id] == if id in CompleteIds(first.rows) then first.rows[id] else first.metadata[id]
    {
      AppliedRow(first, s, last, id);
    }
  }
}
