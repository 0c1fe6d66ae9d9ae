/**
  The cache server in disk mode, seen from one store session: lookups, deletes and the
  eviction passes.  Reads of the store answer from the bucket (see Mirror).  Which reads,
  writes and deletes fail is arbitrary, fixed for one pass and chosen anew for the next, and
  every clock reading may be later than the one before.
 */
module Server {
  import opened Options
  import opened CacheModel
  import opened Restore
  import opened Eviction
  import opened Passes
  import Mirror

  datatype Outcome =
    | Hit(cache: Cache)
    | Miss
    | GaveUp        // a dead row could not be deleted; reported as a miss
    | Failed

  /** What went had no blob and matched the query. */
  ghost predicate OnlyDeadWent(before: map<nat, Cache>, after: map<nat, Cache>, blobs: set<nat>, q: Query) {
    && OnlyRemoves(before, after)
    && forall id <- before :: id !in after ==> id !in blobs && Candidate(q, before[id])
  }

  lemma DeadGone(before: map<nat, Cache>, after: map<nat, Cache>, blobs: set<nat>, q: Query, id: nat)
    requires OnlyDeadWent(before, after, blobs, q) && id in after && id !in blobs && Candidate(q, after[id])
    ensures OnlyDeadWent(before, after - {id}, blobs, q)
    ensures Present(after - {id}, blobs) == Present(after, blobs) && |after - {id}| < |after|
  {
    assert (after - {id}).Keys == after.Keys - {id};
    assert |after.Keys - {id}| < |after.Keys|;
  }

  /** The best of all rows, its blob being there, is the best of those whose blob is there. */
  lemma BestPresent(rows: map<nat, Cache>, blobs: set<nat>, q: Query, r: Option<Cache>)
    requires IsBest(rows, q, r) && (r.Some? ==> r.value.id in blobs)
    ensures IsBest(Present(rows, blobs), q, r)
  {
  }

  /** One of the first `n` rows of the list. */
  ghost predicate Among(s: seq<Cache>, n: nat, c: Cache)
    requires n <= |s|
  {
    exists k :: 0 <= k < n && s[k] == c
  }

  ghost predicate IdAmong(s: seq<Cache>, n: nat, id: nat)
    requires n <= |s|
  {
    exists k :: 0 <= k < n && s[k].id == id
  }

  /** The rows once the first `n` listed ones are deleted, as far as they can be. */
  ghost function Without(rows: map<nat, Cache>, s: seq<Cache>, n: nat, faults: Faults): map<nat, Cache>
    requires n <= |s|
  {
    map id | id in rows && (!IdAmong(s, n, id) || faults.Undeletable(id)) :: rows[id]
  }

  lemma {:induction false} WithoutNext(rows: map<nat, Cache>, s: seq<Cache>, n: nat, faults: Faults)
    requires n < |s|
    ensures Without(rows, s, n + 1, faults) ==
              if faults.Undeletable(s[n].id) then Without(rows, s, n, faults) else Without(rows, s, n, faults) - {s[n].id}
  {
    forall id | id in rows ensures IdAmong(s, n + 1, id) <==> IdAmong(s, n, id) || id == s[n].id {
    }
  }

  lemma {:induction false} WithoutMatching(rows: map<nat, Cache>, p: Cache -> bool, s: seq<Cache>, faults: Faults)
    requires Keyed(rows) && if faults.unreadable then s == [] else Mirror.Lists(rows, p, s)
    ensures faults.unreadable ==> Without(rows, s, |s|, faults) == rows
    ensures !faults.unreadable ==>
              Without(rows, s, |s|, faults) == map id | id in rows && (!p(rows[id]) || faults.Undeletable(id)) :: rows[id]
  {
    if !faults.unreadable {
      forall id | id in rows ensures IdAmong(s, |s|, id) <==> p(rows[id]) {
        if p(rows[id]) {
          var k :| 0 <= k < |s| && s[k] == rows[id];
        }
      }
    }
  }

  datatype Reservation = Invalid | Internal | Exists | Busy | Retry(id: nat) | Reserved(id: nat)

  predicate ExactMatch(cred: JobCredential, key: string, version: string, c: Cache) {
    Owns(cred, c) && c.key == key && c.version == version
  }

  class Handler {
    const policy: Policy
    var faults: Faults    // what fails until the next pass begins
    var rows: map<nat, Cache>
    var blobs: set<nat>
    var clock: int
    var sequence: nat   // the last id the bucket gave out

    constructor (policy: Policy, faults: Faults, rows: map<nat, Cache>, blobs: set<nat>, clock: int, sequence: nat)
      requires Keyed(rows)
      ensures Valid() && this.policy == policy && this.faults == faults
      ensures this.rows == rows && this.blobs == blobs && this.clock == clock && this.sequence == sequence
    {
      this.policy, this.faults := policy, faults;
      this.rows, this.blobs, this.clock, this.sequence := rows, blobs, clock, sequence;
    }

    ghost predicate Valid()
      reads this
    {
      Keyed(rows)
    }

    method Now() returns (now: int)
      modifies this`clock
      ensures now == clock >= old(clock)
    {
      var t :| t >= clock;
      clock := t;
      now := t;
    }

    method Exist(id: nat) returns (failed: bool, there: bool)
      ensures failed <==> faults.stat(id)
      ensures !failed ==> (there <==> id in blobs)
    {
      failed, there := faults.stat(id), id in blobs;
    }

    /** The blob goes first; a failure at any point leaves the row. */
    method DeleteCache(c: Cache) returns (ok: bool)
      requires Valid()
      modifies this`rows, this`blobs
      ensures Valid()
      ensures ok <==> !faults.Undeletable(c.id)
      ensures rows == if ok then old(rows) - {c.id} else old(rows)
      ensures blobs == if faults.unlink(c.id) then old(blobs) else old(blobs) - {c.id}
    {
      if faults.unlink(c.id) {
        return false;
      }
      blobs := blobs - {c.id};
      if faults.write(c.id) {
        return false;
      }
      rows := rows - {c.id};
      return true;
    }

    /** Rewrites a stored row; a row that is gone is not brought back. */
    method Save(c: Cache) returns (ok: bool)
      requires Valid()
      modifies this`rows
      ensures Valid()
      ensures ok <==> c.id in old(rows) && !faults.write(c.id)
      ensures rows == if ok then old(rows)[c.id := c] else old(rows)
    {
      ok := c.id in rows && !faults.write(c.id);
      if ok {
        rows := rows[c.id := c];
      }
    }

    /** Stamps the time of use; `ok` says that the stored row carries the stamp returned. */
    method Touch(c: Cache) returns (touched: Cache, ok: bool)
      requires Valid() && c.id in rows && rows[c.id] == c
      modifies this`rows, this`clock
      ensures Valid() && clock >= old(clock)
      ensures touched == c.(usedAt := touched.usedAt) && touched.usedAt >= c.usedAt
      ensures touched.usedAt == c.usedAt || Unix(old(clock)) <= touched.usedAt <= Unix(clock)
      ensures touched.usedAt == c.usedAt ==> c.usedAt >= Unix(old(clock)) || (c.complete && old(clock) - c.usedAt * SECOND < TOUCH_STALE)
      ensures rows == if ok then old(rows)[c.id := touched] else old(rows)
      ensures !ok ==> faults.write(c.id)
    {
      var t1 := Now();
      var t2 := Now();
      if !(c.usedAt < Unix(t1) && (!c.complete || t2 - c.usedAt * SECOND >= TOUCH_STALE)) {
        assert rows == rows[c.id := c];
        return c, true;
      }
      var t3 := Now();
      touched := c.(usedAt := Unix(t3));
      ok := Save(touched);
    }

    /** Touches a row by id; a row that is gone is an error, and so is a finished one if asked for. */
    method TouchCache(id: nat, requireIncomplete: bool) returns (ok: bool)
      requires Valid()
      modifies this`rows, this`clock
      ensures Valid() && clock >= old(clock)
      ensures ok ==> !faults.unreadable && id in old(rows) && (requireIncomplete ==> !old(rows)[id].complete)
      ensures !ok ==> faults.unreadable || id !in old(rows) || (requireIncomplete && old(rows)[id].complete) || faults.write(id)
      ensures !ok ==> rows == old(rows)
      ensures ok ==>
                && id in rows && rows == old(rows)[id := old(rows)[id].(usedAt := rows[id].usedAt)]
                && rows[id].usedAt >= old(rows)[id].usedAt && rows[id].usedAt >= Unix(old(clock)) - 59
    {
      if faults.unreadable || id !in rows || (requireIncomplete && rows[id].complete) {
        return false;
      }
      var touched;
      touched, ok := Touch(rows[id]);
    }

    /** Searches and drops dead rows until the search comes up with a live one or with nothing. */
    method FindLive(q: Query) returns (r: Outcome)
      requires Valid()
      modifies this`rows, this`blobs
      ensures Valid() && blobs == old(blobs)
      ensures OnlyDeadWent(old(rows), rows, blobs, q)
      ensures r.Hit? ==> r.cache.id in rows && rows[r.cache.id] == r.cache
      ensures r.Hit? ==> IsBest(Present(old(rows), old(blobs)), q, Some(r.cache))
      ensures r.Miss? ==> IsBest(Present(old(rows), old(blobs)), q, None)
      ensures r.Failed? ==> faults.unreadable || exists id <- old(rows) :: faults.stat(id)
      ensures r.GaveUp? ==> exists id <- old(rows) :: id !in old(blobs) && faults.Undeletable(id)
    {
      while true
        invariant Valid() && blobs == old(blobs)
        invariant OnlyDeadWent(old(rows), rows, blobs, q)
        invariant Present(rows, blobs) == Present(old(rows), old(blobs))
        decreases |rows|
      {
        if faults.unreadable {
          return Failed;
        }
        var found := FindCache(rows, q);
        if found.None? {
          BestPresent(rows, blobs, q, found);
          return Miss;
        }
        var failed, there := Exist(found.value.id);
        if failed {
          return Failed;
        }
        if there {
          BestPresent(rows, blobs, q, found);
          return Hit(found.value);
        }
        DeadGone(old(rows), rows, blobs, q, found.value.id);
        assert blobs - {found.value.id} == blobs;
        var deleted := DeleteCache(found.value);
        if !deleted {
          return GaveUp;
        }
      }
    }

    method LookupCache(q: Query) returns (r: Outcome, ghost best: Option<Cache>)
      requires Valid()
      modifies this`rows, this`blobs, this`clock
      ensures Valid() && clock >= old(clock)
      // a hit is the best of the rows whose blob is there, only its time of use refreshed
      ensures r.Hit? ==> best.Some? && r.cache == best.value.(usedAt := r.cache.usedAt)
      ensures r.Hit? || r.Miss? ==> IsBest(Present(old(rows), old(blobs)), q, best)
      ensures r.Miss? ==> best.None?
      ensures r.Failed? ==> faults.unreadable || exists id <- old(rows) :: faults.stat(id)
      ensures r.GaveUp? ==> exists id <- old(rows) :: id !in old(blobs) && faults.Undeletable(id)
      // the stamp is recent, and stored unless the write failed
      ensures r.Hit? && !faults.write(r.cache.id) ==>
                r.cache.id in rows && rows[r.cache.id] == r.cache && r.cache.usedAt >= Unix(old(clock)) - 59
      // nothing but dead rows went, and nothing but the hit's stamp changed
      ensures rows.Keys <= old(rows).Keys
      ensures forall id <- old(rows) :: id !in rows ==> id !in old(blobs) && Candidate(q, old(rows)[id])
      ensures forall id <- rows :: rows[id] == old(rows)[id] || (r.Hit? && rows[id] == r.cache)
      ensures blobs == old(blobs)
    {
      r := FindLive(q);
      if !r.Hit? {
        return r, None;
      }
      best := Some(r.cache);
      var touched, _ := Touch(r.cache);
      r := Hit(touched);
    }

    // ---- size limits ----

    /** Asks the clock, then tries to delete a row that is not in use. */
    method Try(c: Cache) returns (v: Verdict)
      requires Valid()
      modifies this`rows, this`blobs, this`clock
      ensures Valid() && clock >= old(clock)
      ensures !v.Unreached?
      ensures v.Spared? ==> InUse(c, old(clock))
      ensures v.Evicted? || v.Stuck? ==> !InUse(c, clock)
      ensures !v.Spared? ==> (v.Stuck? <==> faults.Undeletable(c.id))
      ensures rows == if v.Evicted? then old(rows) - {c.id} else old(rows)
      ensures blobs == old(blobs) || blobs == old(blobs) - {c.id}
    {
      var now := Now();
      if InUse(c, now) {
        return Spared;
      }
      var ok := DeleteCache(c);
      return if ok then Evicted else Stuck;
    }

    /** Tries one more row on top of those of `o`, tried since `started` with outcomes `big`. */
    method TryOversized(c: Cache, ghost o: seq<Cache>, ghost big: seq<Verdict>, ghost started: int, ghost first: map<nat, Cache>)
      returns (ghost more: seq<Verdict>)
      requires Valid() && |big| == |o| && started <= clock
      requires Judged(o, big, started, clock, faults) && rows == first - Gone(o, big)
      requires forall v <- big :: !v.Unreached?
      modifies this`rows, this`blobs, this`clock
      ensures Valid() && clock >= old(clock) && |more| == |o| + 1
      ensures Judged(o + [c], more, started, clock, faults) && rows == first - Gone(o + [c], more)
      ensures forall v <- more :: !v.Unreached?
    {
      var v := Try(c);
      more := big + [v];
      Append(o, big, c, v);
      JudgedMore(o, big, c, started, old(clock), faults);
      JudgedExtend(o + [c], big, v, started, old(clock), clock, faults);
    }

    /** Filters the rows that fit to the front, in place, trying to drop each one that does not. */
    method DropOversized(caches: array<Cache>, limit: int) returns (n: nat, ghost big: seq<Verdict>)
      requires Valid()
      modifies this`rows, this`blobs, this`clock, caches
      ensures Valid() && clock >= old(clock)
      ensures n <= caches.Length && caches[..n] == Fitting(old(caches[..]), limit)
      ensures |big| == |Oversized(old(caches[..]), limit)| && forall v <- big :: !v.Unreached?
      ensures Judged(Oversized(old(caches[..]), limit), big, old(clock), clock, faults)
      ensures rows == old(rows) - Gone(Oversized(old(caches[..]), limit), big)
    {
      n, big := 0, [];
      ghost var input, o := caches[..], [];
      for i := 0 to caches.Length
        invariant Valid() && clock >= old(clock)
        invariant n <= i && caches[..n] == Fitting(input[..i], limit)
        invariant caches[i..] == input[i..]
        invariant o == Oversized(input[..i], limit)
        invariant |big| == |o| && forall v <- big :: !v.Unreached?
        invariant Judged(o, big, old(clock), clock, faults)
        invariant rows == old(rows) - Gone(o, big)
      {
        var c := caches[i];
        assert c == caches[i..][0] == input[i..][0];
        NextRow(input, limit, i);
        if c.size <= limit {
          Keep(caches, n, i);
          n := n + 1;
        } else {
          big := TryOversized(c, o, big, old(clock), old(rows));
          o := o + [c];
        }
        assert caches[i + 1..] == caches[i..][1..] && input[i + 1..] == input[i..][1..];
      }
      assert input[..caches.Length] == input;
    }

    /** Moves the row at `i` to the end of the `n` kept ones. */
    method Keep(caches: array<Cache>, n: nat, i: nat)
      requires n <= i < caches.Length
      modifies caches
      ensures caches[..n + 1] == old(caches[..n]) + [old(caches[i])]
      ensures caches[i + 1..] == old(caches[i + 1..])
    {
      caches[n] := caches[i];
    }

    /** Tries the next row of the list, `verdicts` being the outcomes since `started`. */
    method TryNext(caches: seq<Cache>, i: nat, limit: int, ghost verdicts: seq<Verdict>, ghost started: int, ghost first: map<nat, Cache>)
      returns (evicted: bool, ghost more: seq<Verdict>)
      requires Valid() && i < |caches| && |verdicts| == i && started <= clock
      requires AllReached(caches, verdicts, limit) && Left(caches, verdicts, i) > limit
      requires Judged(caches, verdicts, started, clock, faults) && rows == first - Gone(caches, verdicts)
      modifies this`rows, this`blobs, this`clock
      ensures Valid() && clock >= old(clock) && |more| == i + 1
      ensures AllReached(caches, more, limit)
      ensures Freed(caches, more, i + 1) == Freed(caches, verdicts, i) + if evicted then caches[i].size else 0
      ensures Judged(caches, more, started, clock, faults) && rows == first - Gone(caches, more)
    {
      var v := Try(caches[i]);
      evicted := v.Evicted?;
      more := verdicts + [v];
      Extend(caches, verdicts, v, limit);
      JudgedExtend(caches, verdicts, v, started, old(clock), clock, faults);
    }

    /** Deletes in list order until the rows fit; `verdicts` covers the rows it came to. */
    method EvictUntilFits(caches: seq<Cache>, limit: int)
      returns (total: int, freed: int, ghost verdicts: seq<Verdict>)
      requires Valid()
      modifies this`rows, this`blobs, this`clock
      ensures Valid() && clock >= old(clock) && |verdicts| <= |caches|
      ensures AllReached(caches, verdicts, limit)
      ensures |verdicts| == |caches| || Left(caches, verdicts, |verdicts|) <= limit
      ensures freed == Freed(caches, verdicts, |verdicts|) && total + freed == Sum(caches)
      ensures Judged(caches, verdicts, old(clock), clock, faults)
      ensures rows == old(rows) - Gone(caches, verdicts)
    {
      total := TotalSize(caches);
      freed, verdicts := 0, [];
      for i := 0 to |caches|
        invariant Valid() && clock >= old(clock)
        invariant |verdicts| == i
        invariant AllReached(caches, verdicts, limit)
        invariant freed == Freed(caches, verdicts, i) && total + freed == Sum(caches)
        invariant Judged(caches, verdicts, old(clock), clock, faults)
        invariant rows == old(rows) - Gone(caches, verdicts)
      {
        if total <= limit {
          break;
        }
        var evicted;
        evicted, verdicts := TryNext(caches, i, limit, verdicts, old(clock), old(rows));
        if evicted {
          total, freed := total - caches[i].size, freed + caches[i].size;
        }
      }
    }

    /** The same pass, with a verdict for every row: those it never came to are unreached. */
    method EvictInOrder(caches: seq<Cache>, limit: int)
      returns (total: int, freed: int, ghost verdicts: seq<Verdict>)
      requires Valid()
      modifies this`rows, this`blobs, this`clock
      ensures Valid() && clock >= old(clock)
      ensures Plan(caches, limit, verdicts)
      ensures freed == Freed(caches, verdicts, |caches|) && total + freed == Sum(caches)
      ensures Judged(caches, verdicts, old(clock), clock, faults)
      ensures rows == old(rows) - Gone(caches, verdicts)
    {
      total, freed, verdicts := EvictUntilFits(caches, limit);
      Stop(caches, verdicts, limit);
      verdicts := Pad(verdicts, |caches|);
    }

    method TotalSize(caches: seq<Cache>) returns (total: int)
      ensures total == Sum(caches)
    {
      total := 0;
      for i := 0 to |caches|
        invariant total == Sum(caches[..i])
      {
        assert caches[..i + 1][..i] == caches[..i];
        total := total + caches[i].size;
      }
      assert caches[..|caches|] == caches;
    }

    /** Deletes until the rows fit the limit; `input` is the list, in order of last use. */
    method EvictTo(caches: array<Cache>, limit: int, ghost input: seq<Cache>)
      returns (total: int, freed: int, ghost big: seq<Verdict>, ghost verdicts: seq<Verdict>)
      requires Valid() && caches[..] == input && ByUse(input) && Coherent(rows, input)
      modifies this`rows, this`blobs, this`clock, caches
      ensures Valid() && clock >= old(clock) && Safe(old(rows), rows, clock)
      ensures PassOver(input, limit, big, verdicts, old(clock), clock, faults)
      ensures rows == AfterPass(old(rows), input, limit, big, verdicts)
      ensures freed == Freed(Fitting(input, limit), verdicts, |verdicts|)
      ensures total + freed == Sum(Fitting(input, limit))
    {
      var n;
      n, big := DropOversized(caches, limit);
      FittingByUse(input, limit);
      ghost var between := clock;
      total, freed, verdicts := EvictInOrder(caches[..n], limit);
      assert Judged(Oversized(input, limit), big, old(clock), clock, faults) by {
        assert Judged(Oversized(input, limit), big, old(clock), between, faults);
      }
      TwoPassesSafe(old(rows), input, limit, big, verdicts, old(clock), clock, faults);
    }

    /** The matching rows, in id order; none when the store cannot be read. */
    method Caches(p: Cache -> bool) returns (s: seq<Cache>)
      requires Valid()
      ensures if faults.unreadable then s == [] else Mirror.Lists(rows, p, s)
      ensures Stored(rows, s) && DistinctIds(s) && forall c <- s :: p(c)
    {
      if faults.unreadable {
        return [];
      }
      s := Mirror.ListRows(rows, p);
    }

    /** The matching rows, least recently used first. */
    method CachesByUse(p: Cache -> bool) returns (a: array<Cache>)
      requires Valid()
      ensures fresh(a) && UseOrder(rows, p, a[..])
      ensures !faults.unreadable ==> forall id <- rows :: p(rows[id]) ==> rows[id] in a[..]
    {
      var s := Caches(p);
      var t := SortByUse(s);
      SamePermutation(s, t);
      a := new Cache[|t|](i requires 0 <= i < |t| => t[i]);
      assert a[..] == t;
    }

    method CompletedByUse() returns (a: array<Cache>)
      requires Valid()
      ensures fresh(a) && UseOrder(rows, (c: Cache) => c.complete, a[..])
      ensures !faults.unreadable ==> forall id <- rows :: rows[id].complete ==> rows[id] in a[..]
    {
      a := CachesByUse((c: Cache) => c.complete);
    }

    /** One pass over the completed rows, bringing them `shortfall` below what they add up to. */
    method FreeUp(shortfall: int)
      returns (ghost listed: seq<Cache>, ghost limit: int, ghost big: seq<Verdict>, ghost verdicts: seq<Verdict>)
      requires Valid()
      modifies this`rows, this`blobs, this`clock
      ensures Valid() && clock >= old(clock) && Safe(old(rows), rows, clock)
      ensures Completed(old(rows), listed, !faults.unreadable) && limit == Sum(listed) - shortfall
      ensures PassOver(listed, limit, big, verdicts, old(clock), clock, faults)
      ensures rows == AfterPass(old(rows), listed, limit, big, verdicts)
    {
      var caches := CompletedByUse();
      listed := caches[..];
      var total := TotalSize(caches[..]);
      var bound := total - shortfall;
      limit := bound;
      var left, freed;
      left, freed, big, verdicts := EvictTo(caches, bound, listed);
    }

    /**
      Evicts what is needed to keep `need` bytes above the floor, least recently used first.
      `listed` is what the pass looked at, `limit` what it was to leave of it.
     */
    method MakeRoom(need: int, free: Option<nat>)
      returns (ghost listed: seq<Cache>, ghost limit: int, ghost big: seq<Verdict>, ghost verdicts: seq<Verdict>)
      requires Valid()
      modifies this`rows, this`blobs, this`clock
      ensures Valid() && clock >= old(clock) && Safe(old(rows), rows, clock)
      ensures free.None? || Shortfall(policy, need, free.value) <= 0 ==> rows == old(rows)
      ensures free.Some? && Shortfall(policy, need, free.value) > 0 ==>
                && Completed(old(rows), listed, !faults.unreadable)
                && limit == Sum(listed) - Shortfall(policy, need, free.value)
                && PassOver(listed, limit, big, verdicts, old(clock), clock, faults)
                && rows == AfterPass(old(rows), listed, limit, big, verdicts)
                && (Quiet(listed, old(clock), faults) ==>
                      var gone := SumOf(listed, old(rows).Keys - rows.Keys);
                      gone >= Shortfall(policy, need, free.value) || gone == Sum(listed))
      // with what is free already, that reaches the floor and leaves room for what is needed, or nothing is left
      ensures free.Some? && free.value >= policy.minFreeDisk && free.value >= policy.minFreeDisk + need ==> rows == old(rows)
      ensures free.Some? && (free.value < policy.minFreeDisk || free.value < policy.minFreeDisk + need) && Quiet(listed, old(clock), faults) ==>
                var gone := SumOf(listed, old(rows).Keys - rows.Keys);
                (free.value + gone >= policy.minFreeDisk && free.value + gone >= policy.minFreeDisk + need) || gone == Sum(listed)
    {
      listed, limit, big, verdicts := [], 0, [], [];
      if free.None? {
        return;
      }
      var shortfall := Shortfall(policy, need, free.value);
      if shortfall <= 0 {
        return;
      }
      listed, limit, big, verdicts := FreeUp(shortfall);
      if Quiet(listed, old(clock), faults) {
        QuietPassMakesRoom(old(rows), rows, listed, shortfall, limit, big, verdicts, old(clock), clock, faults);
      }
    }

    // ---- sweeps ----

    method Sweep(p: Cache -> bool)
      requires Valid()
      modifies this`rows, this`blobs
      ensures Valid()
      ensures faults.unreadable ==> rows == old(rows)
      ensures !faults.unreadable ==>
                rows == map id | id in old(rows) && (!p(old(rows)[id]) || faults.Undeletable(id)) :: old(rows)[id]
    {
      var s := Caches(p);
      for i := 0 to |s|
        invariant Valid() && rows == Without(old(rows), s, i, faults)
      {
        WithoutNext(old(rows), s, i, faults);
        var ok := DeleteCache(s[i]);
      }
      WithoutMatching(old(rows), p, s, faults);
    }

    /** Removes uploads nothing was written to for a while. */
    method EvictIncomplete() returns (ghost stalled: int)
      requires Valid()
      modifies this`rows, this`blobs, this`clock
      ensures Valid() && clock >= old(clock)
      ensures Unix(old(clock) - 300 * SECOND) <= stalled <= Unix(clock - 300 * SECOND)
      ensures StalledSwept(old(rows), rows, stalled, faults)
    {
      var now := Now();
      var bound := Unix(now - UPLOAD_STALL_TIMEOUT);
      stalled := bound;
      Sweep((c: Cache) => c.usedAt < bound && !c.complete);
    }

    /** Removes rows past the retention window, which is never shorter than the grace period. */
    method EvictExpired() returns (ghost expired: int)
      requires Valid()
      modifies this`rows, this`blobs, this`clock
      ensures Valid() && clock >= old(clock) && Safe(old(rows), rows, clock)
      ensures policy.retention > 0 ==>
                Unix(old(clock) - Window(policy)) <= expired <= Unix(clock - Window(policy))
      ensures ExpiredSwept(policy, old(rows), rows, expired, faults)
      ensures RetentionKept(policy, old(rows), rows, old(clock), clock, faults)
    {
      expired := 0;
      if policy.retention <= 0 {
        return;
      }
      var now := Now();
      var bound := Unix(now - Window(policy));
      expired := bound;
      Sweep((c: Cache) => c.usedAt < bound);
      RetentionFollows(policy, old(rows), rows, bound, old(clock), clock, faults);
    }

    /** Tries the first `n` rows of a list ordered by age. */
    method TryOldest(t: seq<Cache>, n: nat)
      requires Valid() && n <= |t| && ByAge(t) && forall k :: 0 <= k < |t| ==> t[k].id in rows && rows[t[k].id] == t[k]
      modifies this`rows, this`blobs, this`clock
      ensures Valid() && clock >= old(clock) && OnlyRemoves(old(rows), rows)
      ensures forall k :: n <= k < |t| ==> t[k].id in rows
      ensures forall id <- old(rows) :: id !in rows ==> Among(t, n, old(rows)[id]) && !InUse(old(rows)[id], clock)
      ensures forall k :: 0 <= k < n && t[k].id in rows ==> InUse(t[k], old(clock)) || faults.Undeletable(t[k].id)
      ensures blobs <= old(blobs) && forall id <- old(blobs) :: id !in blobs ==> IdAmong(t, n, id)
    {
      for i := 0 to n
        invariant Valid() && clock >= old(clock) && OnlyRemoves(old(rows), rows)
        invariant forall k :: i <= k < |t| ==> t[k].id in rows
        invariant forall id <- old(rows) :: id !in rows ==> Among(t, i, old(rows)[id]) && !InUse(old(rows)[id], clock)
        invariant forall k :: 0 <= k < i && t[k].id in rows ==> InUse(t[k], old(clock)) || faults.Undeletable(t[k].id)
        invariant blobs <= old(blobs) && forall id <- old(blobs) :: id !in blobs ==> IdAmong(t, i, id)
      {
        assert forall k :: i < k < |t| ==> Newer(t[k], t[i]);
        var v := Try(t[i]);
      }
    }

    /** Tries every row of one group but its newest. */
    method EvictGroup(group: seq<Cache>, ghost g: Identity)
      requires Valid() && group != [] && Stored(rows, group) && DistinctIds(group)
      requires forall c <- group :: c.complete && IdentityOf(c) == g
      modifies this`rows, this`blobs, this`clock
      ensures Valid() && clock >= old(clock) && OnlyRemoves(old(rows), rows)
      ensures forall id <- old(rows) :: id !in rows ==>
                old(rows)[id] in group && !InUse(old(rows)[id], clock) && Superseded(rows, old(rows)[id])
      ensures Settled(rows, group, old(clock), faults)
      ensures BlobsLost(old(rows), rows, group, old(blobs), blobs)
    {
      var t := SortByAge(group);
      var n := |t| - 1;
      assert forall k :: 0 <= k <= n ==> t[k] in group;
      TryOldest(t, n);
      forall id <- old(rows) | id !in rows ensures old(rows)[id] in group && Superseded(rows, old(rows)[id]) {
        var k :| 0 <= k < n && t[k] == old(rows)[id];
        assert Newer(t[n], t[k]) && rows[t[n].id] == t[n];
      }
      forall id <- old(blobs) | id !in blobs
        ensures id in old(rows) && old(rows)[id] in group && Superseded(rows, old(rows)[id])
      {
        var k :| 0 <= k < n && t[k].id == id;
        assert t[k] in group && Newer(t[n], t[k]) && rows[t[n].id] == t[n];
      }
      forall c | c in group && c.id in rows
        ensures InUse(c, old(clock)) || faults.Undeletable(c.id) || forall d :: d in group && d.id != c.id ==> Newer(c, d)
      {
        var k :| 0 <= k <= n && t[k] == c;
        assert k == n ==> forall d :: d in group && d.id != c.id ==> Newer(c, d);
      }
    }

    /** Groups the completed rows, then drops all but the newest of each group unless in use. */
    method DropSuperseded()
      requires Valid()
      modifies this`rows, this`blobs, this`clock
      ensures Valid() && clock >= old(clock) && Safe(old(rows), rows, clock)
      ensures SupersededSwept(old(rows), rows, old(clock), faults)
      ensures OnlySupersededLost(old(rows), rows, old(blobs), blobs)
    {
      var completed := Caches((c: Cache) => c.complete);
      var groups := GroupByIdentity(completed);
      var todo := groups.Keys;
      while todo != {}
        invariant Valid() && clock >= old(clock) && Safe(old(rows), rows, clock)
        invariant todo <= groups.Keys
        invariant forall id <- old(rows) :: id !in rows ==>
                    old(rows)[id].complete && IdentityOf(old(rows)[id]) !in todo && Superseded(rows, old(rows)[id])
        invariant SettledBut(rows, groups, todo, old(clock), faults)
        invariant BlobsLostBut(old(rows), rows, todo, old(blobs), blobs)
        decreases todo
      {
        var g :| g in todo;
        ghost var before, lost := rows, blobs;
        assert Stored(rows, groups[g]);
        ghost var t := clock;
        EvictGroup(groups[g], g);
        SafeTransitive(old(rows), before, rows, t, clock);
        SettledStays(before, rows, groups, todo, old(clock), faults);
        SettledLater(rows, groups[g], old(clock), t, faults);
        OneGroupLost(old(rows), before, rows, g, groups[g], todo, old(blobs), lost, blobs);
        todo := todo - {g};
        OneGroupDone(old(rows), before, rows, g, groups[g]);
      }
      if !faults.unreadable {
        NothingLeftSuperseded(old(rows), rows, completed, groups, old(clock), faults);
      }
    }

    /** The pass, and what it does to restores: none asks in vain for a row it took, unless newer ones have lost their blob. */
    method EvictSuperseded()
      requires Valid()
      modifies this`rows, this`blobs, this`clock
      ensures Valid() && clock >= old(clock) && Safe(old(rows), rows, clock)
      ensures SupersededSwept(old(rows), rows, old(clock), faults)
      ensures OnlySupersededLost(old(rows), rows, old(blobs), blobs)
      // every search finds what it found
      ensures SameAnswers(old(rows), rows)
      // every lookup does if the newest rows have their blobs, and, nothing being in use or stuck, only then
      ensures NewestLive(old(rows), old(blobs)) ==> SameAnswers(Present(old(rows), old(blobs)), Present(rows, blobs))
      ensures Calm(old(rows), old(clock), faults) ==>
                (SameAnswers(Present(old(rows), old(blobs)), Present(rows, blobs)) <==> NewestLive(old(rows), old(blobs)))
    {
      DropSuperseded();
      ExactlySuperseded(old(rows), rows);
      LiveAnswers(old(rows), rows, old(blobs), blobs);
      if Calm(old(rows), old(clock), faults) {
        CalmLeavesNone(old(rows), rows, old(clock), faults);
      }
    }

    // ---- limits at commit and at a sweep ----

    /** Caps the store as a whole. */
    method EvictTotal() returns (ghost pass: Option<Pass>)
      requires Valid()
      modifies this`rows, this`blobs, this`clock
      ensures Valid() && clock >= old(clock) && Safe(old(rows), rows, clock)
      ensures TotalCapped(policy, old(rows), rows, pass, old(clock), clock, faults)
    {
      pass := None;
      if policy.sizeLimit <= 0 {
        return;
      }
      var caches := CompletedByUse();
      ghost var listed := caches[..];
      var total, freed, big, verdicts := EvictTo(caches, policy.sizeLimit, listed);
      pass := Some(Pass(listed, big, verdicts));
    }

    /** Caps one repository. */
    method EvictRepo(repo: string) returns (ghost pass: Option<Pass>)
      requires Valid()
      modifies this`rows, this`blobs, this`clock
      ensures Valid() && clock >= old(clock) && Safe(old(rows), rows, clock)
      ensures policy.repoSizeLimit <= 0 ==> pass.None? && rows == old(rows)
      ensures policy.repoSizeLimit > 0 ==>
                && pass.Some?
                && UseOrder(old(rows), (c: Cache) => c.repo == repo && c.complete, pass.value.list)
                && (!faults.unreadable ==> forall id <- old(rows) :: old(rows)[id].repo == repo && old(rows)[id].complete ==> old(rows)[id] in pass.value.list)
                && PassOver(pass.value.list, policy.repoSizeLimit, pass.value.big, pass.value.verdicts, old(clock), clock, faults)
                && rows == AfterPass(old(rows), pass.value.list, policy.repoSizeLimit, pass.value.big, pass.value.verdicts)
    {
      pass := None;
      if policy.repoSizeLimit <= 0 {
        return;
      }
      var caches := CachesByUse((c: Cache) => c.repo == repo && c.complete);
      ghost var listed := caches[..];
      var total, freed, big, verdicts := EvictTo(caches, policy.repoSizeLimit, listed);
      pass := Some(Pass(listed, big, verdicts));
    }

    /** One pass per repository, over lists taken before the first of them. */
    method EvictPerRepo() returns (ghost passes: map<string, Pass>)
      requires Valid() && policy.repoSizeLimit > 0
      modifies this`rows, this`blobs, this`clock
      ensures Valid() && clock >= old(clock) && Safe(old(rows), rows, clock)
      ensures ReposCapped(policy, old(rows), rows, passes, old(clock), clock, faults)
    {
      var caches := CompletedByUse();
      ghost var listed := caches[..];
      var groups := GroupByRepo(caches[..]);
      GroupsOrdered(rows, listed, groups);
      passes := map[];
      var todo := groups.Keys;
      while todo != {}
        invariant Valid() && clock >= old(clock) && Safe(old(rows), rows, clock)
        invariant passes.Keys == groups.Keys - todo && todo <= groups.Keys
        invariant Pending(rows, groups, todo)
        invariant Finished(passes, groups, policy.repoSizeLimit, rows, old(clock), clock, faults)
        decreases todo
      {
        var repo :| repo in todo;
        ghost var before, t := rows, clock;
        var pass := EvictGroupTo(groups[repo], policy.repoSizeLimit);
        SafeTransitive(old(rows), before, rows, t, clock);
        OtherPassesStand(old(rows), before, rows, groups, repo, todo, passes, pass, policy.repoSizeLimit, old(clock), t, clock, faults);
        passes := passes[repo := pass];
        todo := todo - {repo};
      }
    }

    method EvictGroupTo(group: seq<Cache>, limit: int) returns (ghost pass: Pass)
      requires Valid() && ByUse(group) && DistinctIds(group) && Stored(rows, group)
      modifies this`rows, this`blobs, this`clock
      ensures Valid() && clock >= old(clock) && Safe(old(rows), rows, clock) && pass.list == group
      ensures PassDone(pass, limit, rows, old(clock), clock, faults)
      ensures forall id <- old(rows) :: id !in rows ==> old(rows)[id] in group
    {
      var a := new Cache[|group|](i requires 0 <= i < |group| => group[i]);
      var total, freed, big, verdicts := EvictTo(a, limit, group);
      pass := Pass(group, big, verdicts);
      GoneWithin(group, limit, big, verdicts);
    }

    /** The passes that go by time: stalled, expired and superseded rows. */
    method SweepByAge(fails: seq<Faults>)
      returns (ghost t1: Moment, ghost t2: Moment, ghost t3: Moment, ghost stalled: int, ghost expired: int)
      requires Valid() && |fails| == 5
      modifies this`rows, this`blobs, this`clock, this`faults
      ensures Valid() && old(clock) <= t1.clock <= clock && t3 == Moment(rows, clock)
      ensures AgePasses(policy, fails, Moment(old(rows), old(clock)), t1, t2, t3, stalled, expired)
      ensures Safe(t1.rows, rows, clock)
    {
      faults := fails[0];
      stalled := EvictIncomplete();
      t1 := Moment(rows, clock);
      faults := fails[1];
      expired := EvictExpired();
      t2 := Moment(rows, clock);
      faults := fails[2];
      EvictSuperseded();
      t3 := Moment(rows, clock);
      SafeTransitive(t1.rows, t2.rows, rows, t2.clock, clock);
    }

    /** The passes that go by size: each repository, then all together. */
    method SweepBySize(fails: seq<Faults>) returns (ghost t4: Moment, ghost passes: map<string, Pass>, ghost pass: Option<Pass>)
      requires Valid() && |fails| == 5
      modifies this`rows, this`blobs, this`clock, this`faults
      ensures Valid() && old(clock) <= clock && Safe(old(rows), rows, clock)
      ensures SizePasses(policy, fails, Moment(old(rows), old(clock)), t4, Moment(rows, clock), passes, pass)
    {
      passes := map[];
      if policy.repoSizeLimit > 0 {
        faults := fails[3];
        passes := EvictPerRepo();
      }
      t4 := Moment(rows, clock);
      faults := fails[4];
      pass := EvictTotal();
      SafeTransitive(old(rows), t4.rows, rows, t4.clock, clock);
    }

    /**
      One sweep: every pass in turn, within one store session, `fails` saying what goes wrong in
      each of them.  `t1` to `t4` are the store after each pass but the last.
     */
    method GcCache(fails: seq<Faults>)
      returns (ghost t1: Moment, ghost t2: Moment, ghost t3: Moment, ghost t4: Moment,
        ghost stalled: int, ghost expired: int, ghost passes: map<string, Pass>, ghost pass: Option<Pass>)
      requires Valid() && |fails| == 5
      modifies this`rows, this`blobs, this`clock, this`faults
      ensures Valid() && clock >= old(clock)
      ensures SweepAllowed(old(rows), rows, clock)
      ensures AgePasses(policy, fails, Moment(old(rows), old(clock)), t1, t2, t3, stalled, expired)
      ensures SizePasses(policy, fails, t3, t4, Moment(rows, clock), passes, pass)
    {
      t1, t2, t3, stalled, expired := SweepByAge(fails);
      t4, passes, pass := SweepBySize(fails);
      SafeTransitive(t1.rows, t3.rows, rows, t3.clock, clock);
      StalledAllowed(Moment(old(rows), old(clock)), t1, stalled, fails[0]);
      SafeIsAllowed(old(rows), t1.rows, rows, clock);
    }

    // ---- reservations ----

    /** The row of exactly this key and version: the newest completed one, or the reservation last written to. */
    method FindExactCache(cred: JobCredential, key: string, version: string, complete: bool)
      returns (failed: bool, r: Option<Cache>)
      requires Valid()
      ensures failed <==> faults.unreadable
      ensures failed ==> r.None?
      ensures !failed && r.None? ==> forall id <- rows :: IdentityOf(rows[id]) != Identity(cred.repo, cred.ref, key, version) || rows[id].complete != complete
      ensures !failed && r.Some? ==>
                && r.value.id in rows && rows[r.value.id] == r.value
                && IdentityOf(r.value) == Identity(cred.repo, cred.ref, key, version) && r.value.complete == complete
                && forall id <- rows :: IdentityOf(rows[id]) == Identity(cred.repo, cred.ref, key, version) && rows[id].complete == complete ==>
                     var (mine, best) := if complete then (CreatedAtNano(rows[id]), CreatedAtNano(r.value)) else (rows[id].usedAt, r.value.usedAt);
                     mine < best || (mine == best && id <= r.value.id)
    {
      if faults.unreadable {
        return true, None;
      }
      var caches := Mirror.ListRows(rows, (c: Cache) => ExactMatch(cred, key, version, c) && c.complete == complete);
      assert forall id <- rows :: ExactMatch(cred, key, version, rows[id]) && rows[id].complete == complete ==> rows[id] in caches;
      return false, if complete then Latest(caches, CreatedAtNano) else Latest(caches, (c: Cache) => c.usedAt);
    }

    /** Takes the next id of the bucket; a transaction that fails gives it back. */
    method InsertCache(c: Cache) returns (id: Option<nat>)
      requires Valid()
      modifies this`rows, this`sequence
      ensures Valid()
      ensures id.Some? <==> old(sequence) + 1 !in old(rows) && !faults.write(old(sequence) + 1)
      ensures id.Some? ==> id.value == sequence == old(sequence) + 1 && rows == old(rows)[id.value := c.(id := id.value)]
      ensures id.None? ==> sequence == old(sequence) && rows == old(rows)
    {
      var next := sequence + 1;
      if next in rows || faults.write(next) {
        return None;
      }
      sequence, rows := next, rows[next := c.(id := next)];
      return Some(next);
    }

    /** The reservation a v2 client asks for; an existing or live one of another owner is refused. */
    method CreateCacheEntry(cred: JobCredential, key: string, version: string, owner: string) returns (r: Reservation)
      requires Valid()
      modifies this`rows, this`blobs, this`clock, this`sequence
      ensures Valid() && clock >= old(clock)
      ensures key == "" || version == "" ==> r == Invalid
      ensures r.Reserved? ==>
                && r.id == sequence == old(sequence) + 1 && r.id !in old(rows)
                && r.id in rows && rows == old(rows)[r.id := rows[r.id]]
                && IdentityOf(rows[r.id]) == Identity(cred.repo, cred.ref, key, version) && !rows[r.id].complete && rows[r.id].owner == owner
                && Unix(old(clock)) <= rows[r.id].usedAt <= Unix(clock) && rows[r.id].size == -1
                && old(clock) <= rows[r.id].createdAt * SECOND + rows[r.id].createdAtNanos <= clock && 0 <= rows[r.id].createdAtNanos < SECOND
                && forall id <- old(rows) :: IdentityOf(old(rows)[id]) == Identity(cred.repo, cred.ref, key, version) ==>
                     !old(rows)[id].complete && old(rows)[id].usedAt <= Unix(clock - 300 * SECOND)
      ensures r.Retry? ==>
                && r.id in old(rows) && IdentityOf(old(rows)[r.id]) == Identity(cred.repo, cred.ref, key, version)
                && !old(rows)[r.id].complete && old(rows)[r.id].owner == owner
                && old(rows)[r.id].usedAt > Unix(old(clock) - 300 * SECOND)
      ensures r.Exists? ==> exists id <- old(rows) :: IdentityOf(old(rows)[id]) == Identity(cred.repo, cred.ref, key, version) && old(rows)[id].complete
      ensures r.Busy? ==> exists id <- old(rows) ::
                && IdentityOf(old(rows)[id]) == Identity(cred.repo, cred.ref, key, version) && !old(rows)[id].complete && old(rows)[id].owner != owner
                && old(rows)[id].usedAt > Unix(old(clock) - 300 * SECOND)
      ensures r.Retry? || r.Busy? ==> forall id <- old(rows) ::
                IdentityOf(old(rows)[id]) == Identity(cred.repo, cred.ref, key, version) ==> !old(rows)[id].complete
      ensures r.Internal? ==> faults.unreadable || old(sequence) + 1 in old(rows) || faults.write(old(sequence) + 1)
      ensures !r.Reserved? ==>
                && sequence == old(sequence) && rows.Keys == old(rows).Keys
                && forall id <- rows :: rows[id] == old(rows)[id].(usedAt := rows[id].usedAt)
    {
      if key == "" || version == "" {
        return Invalid;
      }
      var failed, existing := FindExactCache(cred, key, version, true);
      if failed {
        return Internal;
      }
      if existing.Some? {
        var _, _ := Touch(existing.value);
        return Exists;
      }
      var pending;
      failed, pending := FindExactCache(cred, key, version, false);
      if failed {
        return Internal;
      }
      if pending.Some? {
        var now := Now();
        if pending.value.usedAt > Unix(now - UPLOAD_STALL_TIMEOUT) {
          if pending.value.owner != owner {
            return Busy;
          }
          var _, _ := Touch(pending.value);
          return Retry(pending.value.id);
        }
      }
      var now := Now();
      var row := Cache(0, cred.repo, cred.ref, key, version, -1, owner, false, Unix(now), Unix(now), now % SECOND);
      var id := InsertCache(row);
      return if id.Some? then Reserved(id.value) else Internal;
    }
  }
}
