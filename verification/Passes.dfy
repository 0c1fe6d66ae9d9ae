/**
  Eviction passes over a store: what a pass lists, what it may take from the rows, and how
  passes over different groups of rows combine.
 */
module Passes {
  import opened Options
  import opened CacheModel
  import opened Restore
  import opened Eviction

  /** A listed row that is still in the store is there as listed. */
  ghost predicate Coherent(rows: map<nat, Cache>, s: seq<Cache>) {
    forall c <- s :: c.id in rows ==> rows[c.id] == c
  }

  /** The rows listed are in the store as listed. */
  ghost predicate Stored(rows: map<nat, Cache>, s: seq<Cache>) {
    forall c <- s :: c.id in rows && rows[c.id] == c
  }

  /** How long a row may go unused before it expires. */
  function Window(policy: Policy): int {
    if policy.retention + TOUCH_STALE > IN_USE_GRACE then policy.retention + TOUCH_STALE else IN_USE_GRACE
  }

  /** How far the volume is below its floor once `need` more bytes arrive. */
  function Shortfall(policy: Policy, need: int, free: nat): int {
    policy.minFreeDisk + (if need > 0 then need else 0) - free
  }

  /** A listing of matching rows, least recently used first. */
  ghost predicate UseOrder(rows: map<nat, Cache>, p: Cache -> bool, s: seq<Cache>) {
    ByUse(s) && DistinctIds(s) && Stored(rows, s) && forall c <- s :: p(c)
  }

  /** A listing of the completed rows, all of them if the store could be read. */
  ghost predicate Completed(rows: map<nat, Cache>, s: seq<Cache>, readable: bool) {
    && UseOrder(rows, (c: Cache) => c.complete, s)
    && (readable ==> forall id <- rows :: rows[id].complete ==> rows[id] in s)
  }

  /** The verdicts of one pass: on the rows too big on their own, then on those that fit. */
  ghost predicate PassOver(s: seq<Cache>, limit: int, big: seq<Verdict>, v: seq<Verdict>, started: int, ended: int, faults: Faults) {
    && |big| == |Oversized(s, limit)| && (forall x <- big :: !x.Unreached?)
    && Plan(Fitting(s, limit), limit, v)
    && Judged(Oversized(s, limit), big, started, ended, faults) && Judged(Fitting(s, limit), v, started, ended, faults)
  }

  ghost function AfterPass(rows: map<nat, Cache>, s: seq<Cache>, limit: int, big: seq<Verdict>, v: seq<Verdict>): map<nat, Cache>
    requires |big| <= |Oversized(s, limit)| && |v| <= |Fitting(s, limit)|
  {
    rows - Gone(Oversized(s, limit), big) - Gone(Fitting(s, limit), v)
  }

  /** In a quiet pass, all that is too big on its own goes. */
  lemma {:induction false} QuietOversizedGo(s: seq<Cache>, limit: int, big: seq<Verdict>, v: seq<Verdict>,
      started: int, ended: int, faults: Faults, c: Cache)
    requires PassOver(s, limit, big, v, started, ended, faults) && Quiet(s, started, faults)
    requires c in Oversized(s, limit)
    ensures c.id in Gone(Oversized(s, limit), big)
  {
    var o := Oversized(s, limit);
    var k :| 0 <= k < |o| && o[k] == c;
    assert FairVerdict(o[k], big[k], started, ended, faults) && big[k] in big && c in s;
    GoneMembers(o, big, c.id);
  }

  /** In a quiet pass, a row that fits on its own is evicted or not reached. */
  lemma {:induction false} QuietFittingGo(s: seq<Cache>, limit: int, big: seq<Verdict>, v: seq<Verdict>,
      started: int, ended: int, faults: Faults, k: nat)
    requires DistinctIds(s) && PassOver(s, limit, big, v, started, ended, faults) && Quiet(s, started, faults)
    requires k < |v|
    ensures v[k].Evicted? || v[k].Unreached?
    ensures Fitting(s, limit)[k].id in Gone(Fitting(s, limit), v) <==> v[k].Evicted?
    ensures Fitting(s, limit)[k].id !in Gone(Oversized(s, limit), big)
  {
    var f, o := Fitting(s, limit), Oversized(s, limit);
    assert FairVerdict(f[k], v[k], started, ended, faults) && f[k] in f;
    FittingDistinct(s, limit);
    GoneAt(f, v, k);
    NotGone(o, big, f[k].id);
  }

  /** A pass that finds nothing in use and nothing stuck covers the shortfall, or takes all there is. */
  lemma {:induction false} QuietPassMakesRoom(before: map<nat, Cache>, after: map<nat, Cache>, s: seq<Cache>, shortfall: int,
      limit: int, big: seq<Verdict>, v: seq<Verdict>, started: int, ended: int, faults: Faults)
    requires Stored(before, s) && DistinctIds(s) && limit == Sum(s) - shortfall
    requires PassOver(s, limit, big, v, started, ended, faults) && after == AfterPass(before, s, limit, big, v)
    requires Quiet(s, started, faults)
    ensures var gone := SumOf(s, before.Keys - after.Keys);
            gone >= shortfall || gone == Sum(s)
  {
    var f, o := Fitting(s, limit), Oversized(s, limit);
    var ids := before.Keys - after.Keys;
    forall c | c in o ensures c.id in ids {
      QuietOversizedGo(s, limit, big, v, started, ended, faults, c);
      assert c in s;
    }
    forall k | 0 <= k < |v|
      ensures (v[k].Evicted? || v[k].Unreached?) && (f[k].id in ids <==> v[k].Evicted?)
    {
      QuietFittingGo(s, limit, big, v, started, ended, faults, k);
      assert f[k] in f && f[k] in s;
    }
    RoomIsMade(s, shortfall, limit, v, ids);
  }

  datatype Policy = Policy(retention: int, repoSizeLimit: int, sizeLimit: int, minFreeDisk: int)

  /** What the sweeps may take: nothing in use, with the rows left untouched. */
  ghost predicate Safe(before: map<nat, Cache>, after: map<nat, Cache>, now: int) {
    OnlyRemoves(before, after) && NoneInUseRemoved(before, after, now)
  }

  lemma SafeTransitive(a: map<nat, Cache>, b: map<nat, Cache>, c: map<nat, Cache>, t: int, u: int)
    requires Safe(a, b, t) && Safe(b, c, u) && t <= u
    ensures Safe(a, c, u)
  {
  }

  /** Listed rows leave only under a verdict of their own. */
  lemma {:induction false} GoneSafe(rows: map<nat, Cache>, s: seq<Cache>, v: seq<Verdict>, started: int, now: int, faults: Faults)
    requires |v| <= |s| && Coherent(rows, s) && Judged(s, v, started, now, faults)
    ensures Safe(rows, rows - Gone(s, v), now)
  {
    forall id <- rows | id in Gone(s, v) ensures !InUse(rows[id], now) {
      GoneMembers(s, v, id);
      var i :| 0 <= i < |v| && v[i].Evicted? && s[i].id == id;
      assert s[i] in s;
    }
  }

  lemma {:induction false} TwoPassesSafe(rows: map<nat, Cache>, s: seq<Cache>, limit: int,
      big: seq<Verdict>, v: seq<Verdict>, started: int, now: int, faults: Faults)
    requires Coherent(rows, s) && |big| <= |Oversized(s, limit)| && |v| <= |Fitting(s, limit)|
    requires Judged(Oversized(s, limit), big, started, now, faults) && Judged(Fitting(s, limit), v, started, now, faults)
    ensures Safe(rows, rows - Gone(Oversized(s, limit), big) - Gone(Fitting(s, limit), v), now)
  {
    var o, f := Oversized(s, limit), Fitting(s, limit);
    var kept := rows - Gone(o, big);
    assert Coherent(rows, o) && Coherent(kept, f);
    GoneSafe(rows, o, big, started, now, faults);
    GoneSafe(kept, f, v, started, now, faults);
    SafeTransitive(rows, kept, kept - Gone(f, v), now, now);
  }

  /** A row of the group that is still there is its newest, was in use, or would not go. */
  ghost predicate Settled(rows: map<nat, Cache>, group: seq<Cache>, started: int, faults: Faults) {
    forall c :: c in group && c.id in rows ==>
      InUse(c, started) || faults.Undeletable(c.id) || forall d :: d in group && d.id != c.id ==> Newer(c, d)
  }

  ghost predicate SettledBut(rows: map<nat, Cache>, groups: map<Identity, seq<Cache>>, todo: set<Identity>, started: int, faults: Faults) {
    forall g <- groups :: g !in todo ==> Settled(rows, groups[g], started, faults)
  }

  lemma {:induction false} SettledStays(before: map<nat, Cache>, after: map<nat, Cache>, groups: map<Identity, seq<Cache>>,
      todo: set<Identity>, started: int, faults: Faults)
    requires OnlyRemoves(before, after) && SettledBut(before, groups, todo, started, faults)
    ensures SettledBut(after, groups, todo, started, faults)
  {
  }

  /** What is in use later was in use before. */
  lemma {:induction false} SettledLater(rows: map<nat, Cache>, group: seq<Cache>, started: int, t: int, faults: Faults)
    requires started <= t && Settled(rows, group, t, faults)
    ensures Settled(rows, group, started, faults)
  {
  }

  /** With every group settled, a row still superseded was in use or would not go. */
  lemma {:induction false} NothingLeftSuperseded(first: map<nat, Cache>, rows: map<nat, Cache>, completed: seq<Cache>,
      groups: map<Identity, seq<Cache>>, started: int, faults: Faults)
    requires Keyed(first) && OnlyRemoves(first, rows) && SettledBut(rows, groups, {}, started, faults)
    requires forall id <- first :: first[id].complete ==> first[id] in completed
    requires forall g <- groups :: forall c :: c in groups[g] <==> c in completed && IdentityOf(c) == g
    requires forall c <- completed :: IdentityOf(c) in groups
    ensures forall id <- rows ::
              rows[id].complete && !InUse(rows[id], started) && !faults.Undeletable(id) ==> !Superseded(rows, rows[id])
  {
    forall id <- rows | rows[id].complete && !InUse(rows[id], started) && !faults.Undeletable(id)
      ensures !Superseded(rows, rows[id])
    {
      var c := rows[id];
      assert c in groups[IdentityOf(c)] && Settled(rows, groups[IdentityOf(c)], started, faults);
      forall m <- rows | rows[m].complete && IdentityOf(rows[m]) == IdentityOf(c) ensures !Newer(rows[m], c) {
        assert rows[m] in groups[IdentityOf(c)];
      }
    }
  }

  /** Clearing one group leaves what superseded the rows of the others. */
  lemma {:induction false} OneGroupDone(first: map<nat, Cache>, before: map<nat, Cache>, after: map<nat, Cache>, g: Identity, group: seq<Cache>)
    requires Keyed(first) && OnlyRemoves(first, before) && OnlyRemoves(before, after)
    requires forall c <- group :: c.complete && IdentityOf(c) == g
    requires forall id <- before :: id !in after ==> before[id] in group && Superseded(after, before[id])
    requires forall id <- first :: id !in before ==>
               first[id].complete && IdentityOf(first[id]) != g && Superseded(before, first[id])
    ensures forall id <- first :: id !in after ==> first[id].complete && Superseded(after, first[id])
  {
    forall id <- first | id !in after ensures first[id].complete && Superseded(after, first[id]) {
      if id !in before {
        var m :| m in before && before[m].complete && IdentityOf(before[m]) == IdentityOf(first[id]) && Newer(before[m], first[id]);
        assert m in after;
      }
    }
  }

  /** A group of earlier rows may take the next row of the list. */
  lemma {:induction false} GroupTakes(s: seq<Cache>, i: nat, group: seq<Cache>)
    requires DistinctIds(s) && i < |s| && DistinctIds(group) && forall c :: c in group ==> c in s[..i]
    ensures DistinctIds(group + [s[i]])
    ensures ByUse(s) && ByUse(group) ==> ByUse(group + [s[i]])
  {
    forall k | 0 <= k < |group| ensures group[k].id != s[i].id && (ByUse(s) ==> group[k].usedAt <= s[i].usedAt) {
      assert group[k] in s[..i];
    }
  }

  method GroupByIdentity(s: seq<Cache>) returns (groups: map<Identity, seq<Cache>>)
    requires DistinctIds(s)
    ensures forall g <- groups :: groups[g] != [] && DistinctIds(groups[g])
    ensures forall g <- groups :: forall c :: c in groups[g] <==> c in s && IdentityOf(c) == g
    ensures forall c <- s :: IdentityOf(c) in groups
  {
    groups := map[];
    for i := 0 to |s|
      invariant forall g <- groups :: groups[g] != [] && DistinctIds(groups[g])
      invariant forall g <- groups :: forall c :: c in groups[g] <==> c in s[..i] && IdentityOf(c) == g
      invariant forall c <- s[..i] :: IdentityOf(c) in groups
    {
      var c := s[i];
      var g := IdentityOf(c);
      assert s[..i + 1] == s[..i] + [c];
      var group := if g in groups then groups[g] else [];
      GroupTakes(s, i, group);
      groups := groups[g := group + [c]];
    }
    assert s[..|s|] == s;
  }

  ghost predicate ByAge(s: seq<Cache>) {
    forall i, j :: 0 <= i < j < |s| ==> Newer(s[j], s[i])
  }

  function PlaceByAge(s: seq<Cache>, c: Cache): (r: seq<Cache>)
    requires ByAge(s) && forall x <- s :: x.id != c.id
    ensures ByAge(r) && |r| == |s| + 1
    ensures forall x :: x in r <==> x == c || x in s
  {
    if s == [] || Newer(c, s[|s| - 1]) then s + [c]
    else
      var last := s[|s| - 1];
      assert s == s[..|s| - 1] + [last];
      assert last in s && forall x <- s[..|s| - 1] :: Newer(last, x);
      var r := PlaceByAge(s[..|s| - 1], c);
      assert forall k :: 0 <= k < |r| ==> r[k] in r && Newer(last, r[k]);
      r + [last]
  }

  /** Oldest first. */
  method SortByAge(s: seq<Cache>) returns (t: seq<Cache>)
    requires DistinctIds(s)
    ensures ByAge(t) && |t| == |s| && forall c :: c in t <==> c in s
  {
    t := [];
    for i := 0 to |s|
      invariant ByAge(t) && |t| == i && forall c :: c in t <==> c in s[..i]
    {
      assert s[..i + 1] == s[..i] + [s[i]];
      t := PlaceByAge(t, s[i]);
    }
    assert s[..|s|] == s;
  }

  /** One eviction pass: the list it went through and the verdicts. */
  datatype Pass = Pass(list: seq<Cache>, big: seq<Verdict>, verdicts: seq<Verdict>)

  /** The pass is over, and exactly the rows it evicted are missing from its list. */
  ghost predicate PassDone(pass: Pass, limit: int, rows: map<nat, Cache>, started: int, ended: int, faults: Faults) {
    && PassOver(pass.list, limit, pass.big, pass.verdicts, started, ended, faults)
    && forall c :: c in pass.list ==>
         (c.id in rows <==> c.id !in Gone(Oversized(pass.list, limit), pass.big) + Gone(Fitting(pass.list, limit), pass.verdicts))
  }

  lemma {:induction false} GoneWithin(s: seq<Cache>, limit: int, big: seq<Verdict>, v: seq<Verdict>)
    requires |big| <= |Oversized(s, limit)| && |v| <= |Fitting(s, limit)|
    ensures forall id :: id in Gone(Oversized(s, limit), big) + Gone(Fitting(s, limit), v) ==> exists c :: c in s && c.id == id
  {
    var o, f := Oversized(s, limit), Fitting(s, limit);
    forall id | id in Gone(o, big) + Gone(f, v) ensures exists c :: c in s && c.id == id {
      GoneMembers(o, big, id);
      GoneMembers(f, v, id);
      if i :| 0 <= i < |big| && big[i].Evicted? && o[i].id == id {
        assert o[i] in o;
      } else {
        var j :| 0 <= j < |v| && v[j].Evicted? && f[j].id == id;
        assert f[j] in f;
      }
    }
  }

  ghost predicate RepoGroups(rows: map<nat, Cache>, groups: map<string, seq<Cache>>) {
    forall repo <- groups :: UseOrder(rows, (c: Cache) => c.repo == repo && c.complete, groups[repo])
  }

  /** The groups still to be gone through are untouched. */
  ghost predicate Pending(rows: map<nat, Cache>, groups: map<string, seq<Cache>>, todo: set<string>)
    requires todo <= groups.Keys
  {
    forall repo <- todo :: Stored(rows, groups[repo])
  }

  ghost predicate Finished(passes: map<string, Pass>, groups: map<string, seq<Cache>>, limit: int, rows: map<nat, Cache>,
    started: int, ended: int, faults: Faults)
  {
    forall repo <- passes :: repo in groups && passes[repo].list == groups[repo]
      && PassDone(passes[repo], limit, rows, started, ended, faults)
  }

  lemma {:induction false} GroupsOrdered(rows: map<nat, Cache>, s: seq<Cache>, groups: map<string, seq<Cache>>)
    requires Stored(rows, s) && forall c <- s :: c.complete
    requires forall g <- groups :: DistinctIds(groups[g]) && ByUse(groups[g])
    requires forall g <- groups :: forall c :: c in groups[g] <==> c in s && c.repo == g
    ensures RepoGroups(rows, groups) && Pending(rows, groups, groups.Keys)
  {
  }

  /** A pass over one repository leaves the other repositories' rows, and the passes over them, as they were. */
  lemma {:induction false} OtherPassesStand(first: map<nat, Cache>, before: map<nat, Cache>, after: map<nat, Cache>,
      groups: map<string, seq<Cache>>, repo: string, todo: set<string>, passes: map<string, Pass>, pass: Pass,
      limit: int, started: int, t: int, ended: int, faults: Faults)
    requires Keyed(first) && OnlyRemoves(first, before) && OnlyRemoves(before, after) && started <= t <= ended
    requires repo in groups && repo !in passes && todo <= groups.Keys && RepoGroups(first, groups)
    requires forall id <- before :: id !in after ==> before[id] in groups[repo]
    requires Pending(before, groups, todo) && Finished(passes, groups, limit, before, started, t, faults)
    requires pass.list == groups[repo] && PassDone(pass, limit, after, t, ended, faults)
    ensures Pending(after, groups, todo - {repo})
    ensures Finished(passes[repo := pass], groups, limit, after, started, ended, faults)
  {
    forall r | r in groups && r != repo ensures SameThere(before, after, groups[r]) {
      OtherGroupSame(first, before, after, groups, repo, r);
    }
    forall r <- todo | r != repo ensures Stored(after, groups[r]) {
      StoredStands(before, after, groups[r]);
    }
    var all := passes[repo := pass];
    forall r <- all ensures r in groups && all[r].list == groups[r] && PassDone(all[r], limit, after, started, ended, faults) {
      if r == repo {
        PassWidens(pass, limit, started, t, ended, ended, faults);
      } else {
        PassStands(passes[r], limit, before, after, started, t, ended, faults);
      }
    }
  }

  lemma {:induction false} OtherGroupSame(first: map<nat, Cache>, before: map<nat, Cache>, after: map<nat, Cache>,
      groups: map<string, seq<Cache>>, repo: string, r: string)
    requires Keyed(first) && OnlyRemoves(first, before) && OnlyRemoves(before, after)
    requires repo in groups && r in groups && r != repo && RepoGroups(first, groups)
    requires forall id <- before :: id !in after ==> before[id] in groups[repo]
    ensures SameThere(before, after, groups[r])
  {
    forall c | c in groups[r] ensures c.id in before <==> c.id in after {
      RowOfGroup(first, groups, r, c);
      if c.id in before && c.id !in after {
        RowOfGroup(first, groups, repo, before[c.id]);
      }
    }
  }

  lemma {:induction false} StoredStands(before: map<nat, Cache>, after: map<nat, Cache>, s: seq<Cache>)
    requires Stored(before, s) && OnlyRemoves(before, after) && SameThere(before, after, s)
    ensures Stored(after, s)
  {
  }

  ghost predicate SameThere(before: map<nat, Cache>, after: map<nat, Cache>, s: seq<Cache>) {
    forall c :: c in s ==> (c.id in before <==> c.id in after)
  }

  lemma {:induction false} RowOfGroup(rows: map<nat, Cache>, groups: map<string, seq<Cache>>, repo: string, c: Cache)
    requires RepoGroups(rows, groups) && repo in groups && c in groups[repo]
    ensures c.repo == repo && c.id in rows && rows[c.id] == c
  {
    assert UseOrder(rows, (x: Cache) => x.repo == repo && x.complete, groups[repo]);
  }

  lemma {:induction false} PassStands(pass: Pass, limit: int, before: map<nat, Cache>, after: map<nat, Cache>,
      started: int, t: int, ended: int, faults: Faults)
    requires PassDone(pass, limit, before, started, t, faults) && t <= ended
    requires SameThere(before, after, pass.list)
    ensures PassDone(pass, limit, after, started, ended, faults)
  {
    PassWidens(pass, limit, started, started, t, ended, faults);
  }

  /** What holds for a span of time holds for a longer one. */
  lemma {:induction false} PassWidens(pass: Pass, limit: int, started: int, t: int, u: int, ended: int, faults: Faults)
    requires started <= t && u <= ended && PassOver(pass.list, limit, pass.big, pass.verdicts, t, u, faults)
    ensures PassOver(pass.list, limit, pass.big, pass.verdicts, started, ended, faults)
  {
    var o, f := Oversized(pass.list, limit), Fitting(pass.list, limit);
    assert forall i :: 0 <= i < |o| ==> FairVerdict(o[i], pass.big[i], t, u, faults);
    assert forall i :: 0 <= i < |f| ==> FairVerdict(f[i], pass.verdicts[i], t, u, faults);
  }

  method GroupByRepo(s: seq<Cache>) returns (groups: map<string, seq<Cache>>)
    requires DistinctIds(s) && ByUse(s)
    ensures forall g <- groups :: DistinctIds(groups[g]) && ByUse(groups[g])
    ensures forall g <- groups :: forall c :: c in groups[g] <==> c in s && c.repo == g
    ensures forall c <- s :: c.repo in groups
  {
    groups := map[];
    for i := 0 to |s|
      invariant forall g <- groups :: DistinctIds(groups[g]) && ByUse(groups[g])
      invariant forall g <- groups :: forall c :: c in groups[g] <==> c in s[..i] && c.repo == g
      invariant forall c <- s[..i] :: c.repo in groups
    {
      var c := s[i];
      assert s[..i + 1] == s[..i] + [c];
      var group := if c.repo in groups then groups[c.repo] else [];
      GroupTakes(s, i, group);
      groups := groups[c.repo := group + [c]];
    }
    assert s[..|s|] == s;
  }

  // ---- what each pass of a sweep achieves ----

  datatype Moment = Moment(rows: map<nat, Cache>, clock: int)

  /** The reservations last written to before `stalled` are gone, as far as they would go, and nothing else is. */
  ghost predicate StalledSwept(before: map<nat, Cache>, after: map<nat, Cache>, stalled: int, faults: Faults) {
    after == if faults.unreadable then before
             else map id | id in before && (before[id].complete || before[id].usedAt >= stalled || faults.Undeletable(id)) :: before[id]
  }

  /** The rows last used before `expired` are gone, as far as they would go, and nothing else is. */
  ghost predicate ExpiredSwept(policy: Policy, before: map<nat, Cache>, after: map<nat, Cache>, expired: int, faults: Faults) {
    after == if policy.retention <= 0 || faults.unreadable then before
             else map id | id in before && (before[id].usedAt >= expired || faults.Undeletable(id)) :: before[id]
  }

  /**
    Nothing goes before it has been unused for longer than the retention, the lag of its stamp and
    the grace period; what has been for a second longer when the pass begins is gone if it can be.
   */
  ghost predicate RetentionKept(policy: Policy, before: map<nat, Cache>, after: map<nat, Cache>, started: int, ended: int, faults: Faults) {
    && (policy.retention <= 0 ==> after == before)
    && (forall id <- before :: id !in after ==>
          && ended - before[id].usedAt * SECOND > policy.retention + TOUCH_STALE
          && ended - before[id].usedAt * SECOND > IN_USE_GRACE)
    && (policy.retention > 0 && !faults.unreadable ==> forall id <- before ::
          (&& !faults.Undeletable(id)
           && started - before[id].usedAt * SECOND >= policy.retention + TOUCH_STALE + SECOND
           && started - before[id].usedAt * SECOND >= IN_USE_GRACE + SECOND) ==> id !in after)
  }

  lemma {:induction false} RetentionFollows(policy: Policy, before: map<nat, Cache>, after: map<nat, Cache>, expired: int,
      started: int, ended: int, faults: Faults)
    requires ExpiredSwept(policy, before, after, expired, faults)
    requires policy.retention > 0 ==> Unix(started - Window(policy)) <= expired <= Unix(ended - Window(policy))
    ensures RetentionKept(policy, before, after, started, ended, faults)
  {
    forall id <- before | id !in after
      ensures ended - before[id].usedAt * SECOND > policy.retention + TOUCH_STALE && ended - before[id].usedAt * SECOND > IN_USE_GRACE
    {
      BeforeBound(before[id].usedAt, ended - Window(policy));
    }
    if policy.retention > 0 && !faults.unreadable {
      forall id <- before | !faults.Undeletable(id) && started - before[id].usedAt * SECOND >= Window(policy) + SECOND ensures id !in after {
        PastBound(before[id].usedAt, started - Window(policy));
      }
    }
  }

  lemma {:induction false} BeforeBound(usedAt: int, t: int)
    requires usedAt < Unix(t)
    ensures (usedAt + 1) * SECOND <= t
  {
  }

  lemma {:induction false} PastBound(usedAt: int, t: int)
    requires (usedAt + 1) * SECOND <= t
    ensures usedAt < Unix(t)
  {
  }

  /** What went is superseded by what stayed, and what stayed is not, unless it was in use or would not go. */
  ghost predicate SupersededSwept(before: map<nat, Cache>, after: map<nat, Cache>, started: int, faults: Faults) {
    && OnlySuperseded(before, after)
    && (!faults.unreadable ==> forall id <- after ::
          after[id].complete && !InUse(after[id], started) && !faults.Undeletable(id) ==> !Superseded(after, after[id]))
  }

  /** One finished pass for each repository, over its rows as they were before the first. */
  ghost predicate ReposCapped(policy: Policy, before: map<nat, Cache>, after: map<nat, Cache>, passes: map<string, Pass>,
    started: int, ended: int, faults: Faults)
  {
    && (!faults.unreadable ==> forall id <- before :: before[id].complete ==>
          before[id].repo in passes && before[id] in passes[before[id].repo].list)
    && (forall repo <- passes ::
          && UseOrder(before, (c: Cache) => c.repo == repo && c.complete, passes[repo].list)
          && PassDone(passes[repo], policy.repoSizeLimit, after, started, ended, faults))
  }

  /** One finished pass over every completed row, if there is a limit. */
  ghost predicate TotalCapped(policy: Policy, before: map<nat, Cache>, after: map<nat, Cache>, pass: Option<Pass>,
    started: int, ended: int, faults: Faults)
  {
    if policy.sizeLimit <= 0 then pass.None? && after == before
    else
      && pass.Some?
      && Completed(before, pass.value.list, !faults.unreadable)
      && PassOver(pass.value.list, policy.sizeLimit, pass.value.big, pass.value.verdicts, started, ended, faults)
      && after == AfterPass(before, pass.value.list, policy.sizeLimit, pass.value.big, pass.value.verdicts)
  }

  /** Stalled reservations go, then expired rows, then superseded ones. */
  ghost predicate AgePasses(policy: Policy, fails: seq<Faults>, t0: Moment, t1: Moment, t2: Moment, t3: Moment, stalled: int, expired: int)
    requires |fails| == 5
  {
    && Unix(t0.clock - UPLOAD_STALL_TIMEOUT) <= stalled <= Unix(t1.clock - UPLOAD_STALL_TIMEOUT)
    && StalledSwept(t0.rows, t1.rows, stalled, fails[0])
    && (policy.retention > 0 ==> Unix(t1.clock - Window(policy)) <= expired <= Unix(t2.clock - Window(policy)))
    && ExpiredSwept(policy, t1.rows, t2.rows, expired, fails[1])
    && RetentionKept(policy, t1.rows, t2.rows, t1.clock, t2.clock, fails[1])
    && SupersededSwept(t2.rows, t3.rows, t2.clock, fails[2])
  }

  /** Each repository is capped, then all of them together. */
  ghost predicate SizePasses(policy: Policy, fails: seq<Faults>, t3: Moment, t4: Moment, t5: Moment, passes: map<string, Pass>, pass: Option<Pass>)
    requires |fails| == 5
  {
    && (if policy.repoSizeLimit <= 0 then t4 == t3
        else ReposCapped(policy, t3.rows, t4.rows, passes, t3.clock, t4.clock, fails[3]))
    && TotalCapped(policy, t4.rows, t5.rows, pass, t4.clock, t5.clock, fails[4])
  }

  lemma StalledAllowed(first: Moment, second: Moment, stalled: int, faults: Faults)
    requires StalledSwept(first.rows, second.rows, stalled, faults) && stalled <= Unix(second.clock - UPLOAD_STALL_TIMEOUT)
    ensures forall now :: now >= second.clock ==> SweepAllowed(first.rows, second.rows, now)
  {
  }

  /** The store can be read, no completed row is in use, and each of them can be deleted. */
  ghost predicate Calm(rows: map<nat, Cache>, now: int, faults: Faults) {
    !faults.unreadable && forall id <- rows :: rows[id].complete ==> !InUse(rows[id], now) && !faults.Undeletable(id)
  }

  lemma CalmLeavesNone(before: map<nat, Cache>, after: map<nat, Cache>, started: int, faults: Faults)
    requires SupersededSwept(before, after, started, faults) && Calm(before, started, faults)
    ensures forall id <- after :: after[id].complete ==> !Superseded(after, after[id])
  {
  }

  /** Blobs went only from the group, with what supersedes them still there. */
  ghost predicate BlobsLost(before: map<nat, Cache>, after: map<nat, Cache>, group: seq<Cache>, blobs: set<nat>, blobs': set<nat>) {
    && blobs' <= blobs
    && forall id <- blobs :: id !in blobs' ==> id in before && before[id] in group && Superseded(after, before[id])
  }

  ghost predicate BlobsLostBut(first: map<nat, Cache>, rows: map<nat, Cache>, todo: set<Identity>, blobs: set<nat>, blobs': set<nat>) {
    && blobs' <= blobs
    && forall id <- blobs :: id !in blobs' ==>
         id in first && first[id].complete && IdentityOf(first[id]) !in todo && Superseded(rows, first[id])
  }

  lemma {:induction false} OneGroupLost(first: map<nat, Cache>, before: map<nat, Cache>, after: map<nat, Cache>, g: Identity, group: seq<Cache>,
      todo: set<Identity>, blobs: set<nat>, lost: set<nat>, blobs': set<nat>)
    requires OnlyRemoves(first, before) && OnlyRemoves(before, after) && g in todo
    requires forall c <- group :: c.complete && IdentityOf(c) == g
    requires forall id <- before :: id !in after ==> before[id] in group
    requires BlobsLostBut(first, before, todo, blobs, lost) && BlobsLost(before, after, group, lost, blobs')
    ensures BlobsLostBut(first, after, todo - {g}, blobs, blobs')
  {
    forall id <- blobs | id !in blobs'
      ensures id in first && first[id].complete && IdentityOf(first[id]) !in todo - {g} && Superseded(after, first[id])
    {
      if id !in lost {
        var m :| m in before && before[m].complete && IdentityOf(before[m]) == IdentityOf(first[id]) && Newer(before[m], first[id]);
        assert m in after;
      }
    }
  }

  /**
    A store in which dropping superseded rows turns a hit into a miss: of two rows of one key the
    newer has lost its blob, so the lookup falls back to the older one, until the pass takes it.
   */
  lemma {:induction false} HitBecomesMiss() returns (before: map<nat, Cache>, after: map<nat, Cache>, blobs: set<nat>, now: int, faults: Faults, q: Query, hit: Cache)
    ensures Keyed(before) && Calm(before, now, faults)
    ensures SupersededSwept(before, after, now, faults) && OnlySupersededLost(before, after, blobs, {})
    ensures IsBest(Present(before, blobs), q, Some(hit)) && IsBest(Present(after, {}), q, None)
  {
    hit := Cache(1, "repo", "ref", "key", "version", 0, "job", true, 0, 0, 0);
    var newer := hit.(id := 2, createdAt := 1);
    before, after, blobs := map[1 := hit, 2 := newer], map[2 := newer], {1};
    now, faults, q := IN_USE_GRACE, Faults(false, _ => false, _ => false, _ => false), QueryFor(hit);
    BeatenForItself(hit, hit);
    assert 2 in after && after[2] == newer && IdentityOf(newer) == IdentityOf(hit) && Newer(after[2], hit);
    assert Superseded(after, hit);
  }

  lemma SafeIsAllowed(a: map<nat, Cache>, b: map<nat, Cache>, c: map<nat, Cache>, now: int)
    requires SweepAllowed(a, b, now) && Safe(b, c, now)
    ensures SweepAllowed(a, c, now)
  {
  }
}
