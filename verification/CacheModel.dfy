/**
  The record a cache server keeps per entry, and the clock arithmetic every other
  part of the server relies on.  The clock counts nanoseconds since the epoch.
 */
module CacheModel {

  const SECOND: int := 1_000_000_000
  const ARTIFACT_URL_TTL: int := 600 * SECOND
  const TOUCH_STALE: int := 60 * SECOND
  const IN_USE_GRACE: int := ARTIFACT_URL_TTL + TOUCH_STALE
  const UPLOAD_STALL_TIMEOUT: int := 300 * SECOND

  datatype Cache = Cache(
    id: nat,
    repo: string,
    ref: string,
    key: string,
    version: string,
    size: int,
    owner: string,
    complete: bool,
    usedAt: int,
    createdAt: int,
    createdAtNanos: int)

  datatype JobCredential = JobCredential(repo: string, ref: string, baseRef: string, defaultRef: string)

  function CreatedAtNano(c: Cache): int {
    c.createdAt * SECOND + c.createdAtNanos
  }

  /** Whole seconds of a clock reading; the divisor is positive, so this rounds down as Go's Unix does. */
  function Unix(now: int): int {
    now / SECOND
  }

  predicate Owns(cred: JobCredential, c: Cache) {
    c.repo == cred.repo && c.ref == cred.ref
  }

  predicate InUse(c: Cache, now: int) {
    now - c.usedAt * SECOND < IN_USE_GRACE
  }

  predicate TouchNeeded(c: Cache, now: int) {
    c.usedAt < Unix(now) && (!c.complete || now - c.usedAt * SECOND >= TOUCH_STALE)
  }

  /** Rows are filed under their own id. */
  ghost predicate Keyed(rows: map<nat, Cache>) {
    forall id <- rows :: rows[id].id == id
  }

  /** `after` is `before` with some rows gone and none changed. */
  ghost predicate OnlyRemoves(before: map<nat, Cache>, after: map<nat, Cache>) {
    after.Keys <= before.Keys && forall id <- after :: after[id] == before[id]
  }

  /** Every row that went was outside its grace period by the time `now`. */
  ghost predicate NoneInUseRemoved(before: map<nat, Cache>, after: map<nat, Cache>, now: int) {
    forall id <- before :: id !in after ==> !InUse(before[id], now)
  }

  /** What sweeps may do: completed rows go once out of use, reservations once stalled. */
  ghost predicate SweepAllowed(before: map<nat, Cache>, after: map<nat, Cache>, now: int) {
    && OnlyRemoves(before, after)
    && forall id <- before :: id !in after ==>
         if before[id].complete then !InUse(before[id], now) else before[id].usedAt < Unix(now - UPLOAD_STALL_TIMEOUT)
  }
}
