/**
  The ranked restore search.  A query names a credential, a list of keys and a version;
  the answer is the best row by ref position, then first matching key, then exact before
  prefix, then newest creation, then highest id.
 */
module Restore {
  import opened Options
  import opened CacheModel
  import Mirror

  datatype Query = Query(cred: JobCredential, keys: seq<string>, version: string)

  // ---- the declarative answer ----

  /** The refs a job may restore from, its own first; an empty or repeated fallback is left out. */
  function Refs(cred: JobCredential): (refs: seq<string>)
    ensures |refs| >= 1 && refs[0] == cred.ref
    ensures forall i, j :: 0 <= i < j < |refs| ==> refs[i] != refs[j]
  {
    var base := if cred.baseRef != "" && cred.baseRef != cred.ref then [cred.ref, cred.baseRef] else [cred.ref];
    if cred.defaultRef != "" && cred.defaultRef !in base then base + [cred.defaultRef] else base
  }

  /** First position of `x` in `s`, or |s|. */
  function FirstAt(s: seq<string>, x: string): (k: nat)
    ensures k <= |s| && (k < |s| ==> s[k] == x) && (k < |s| <==> x in s)
    ensures forall i :: 0 <= i < k ==> s[i] != x
  {
    if s == [] || s[0] == x then 0 else 1 + FirstAt(s[1..], x)
  }

  /** Position of the first key that is a prefix of `key`, or |keys|. */
  function FirstPrefix(keys: seq<string>, key: string): (k: nat)
    ensures k <= |keys| && (k < |keys| ==> keys[k] <= key)
    ensures forall i :: 0 <= i < k ==> !(keys[i] <= key)
  {
    if keys == [] || keys[0] <= key then 0 else 1 + FirstPrefix(keys[1..], key)
  }

  predicate Candidate(q: Query, c: Cache) {
    && c.repo == q.cred.repo
    && c.version == q.version
    && c.complete
    && c.ref in Refs(q.cred)
    && FirstPrefix(q.keys, c.key) < |q.keys|
  }

  predicate Exact(q: Query, c: Cache)
    requires Candidate(q, c)
  {
    c.key == q.keys[FirstPrefix(q.keys, c.key)]
  }

  predicate Newer(a: Cache, b: Cache) {
    CreatedAtNano(a) > CreatedAtNano(b) || (CreatedAtNano(a) == CreatedAtNano(b) && a.id > b.id)
  }

  predicate Better(q: Query, a: Cache, b: Cache)
    requires Candidate(q, a) && Candidate(q, b)
  {
    var (ra, rb) := (FirstAt(Refs(q.cred), a.ref), FirstAt(Refs(q.cred), b.ref));
    var (ka, kb) := (FirstPrefix(q.keys, a.key), FirstPrefix(q.keys, b.key));
    ra < rb || (ra == rb && (ka < kb || (ka == kb &&
      ((Exact(q, a) && !Exact(q, b)) || (Exact(q, a) == Exact(q, b) && Newer(a, b))))))
  }

  /** `r` is the row to restore, or None when nothing matches. */
  ghost predicate IsBest(rows: map<nat, Cache>, q: Query, r: Option<Cache>) {
    match r
    case None => forall id <- rows :: !Candidate(q, rows[id])
    case Some(c) =>
      && c.id in rows && rows[c.id] == c && Candidate(q, c)
      && forall id <- rows :: id != c.id && Candidate(q, rows[id]) ==> Better(q, c, rows[id])
  }

  /** Distinct candidates are strictly ranked, one way only. */
  lemma BetterTotal(q: Query, a: Cache, b: Cache)
    requires Candidate(q, a) && Candidate(q, b) && a.id != b.id
    ensures Better(q, a, b) <==> !Better(q, b, a)
  {
  }

  lemma BetterTransitive(q: Query, a: Cache, b: Cache, c: Cache)
    requires Candidate(q, a) && Candidate(q, b) && Candidate(q, c)
    requires Better(q, a, b) && Better(q, b, c)
    ensures Better(q, a, c)
  {
  }

  lemma BestUnique(rows: map<nat, Cache>, q: Query, r: Option<Cache>, s: Option<Cache>)
    requires IsBest(rows, q, r) && IsBest(rows, q, s)
    ensures r == s
  {
  }

  // ---- superseded rows ----

  datatype Identity = Identity(repo: string, ref: string, key: string, version: string)

  function IdentityOf(c: Cache): Identity {
    Identity(c.repo, c.ref, c.key, c.version)
  }

  /** A newer completed row holds the same repo, ref, key and version. */
  ghost predicate Superseded(rows: map<nat, Cache>, c: Cache) {
    exists id <- rows :: rows[id].complete && IdentityOf(rows[id]) == IdentityOf(c) && Newer(rows[id], c)
  }

  /** What went was completed, and something newer of the same identity is still there. */
  ghost predicate OnlySuperseded(before: map<nat, Cache>, after: map<nat, Cache>) {
    && OnlyRemoves(before, after)
    && forall id <- before :: id !in after ==> before[id].complete && Superseded(after, before[id])
  }

  /** A candidate that went is beaten by one that stayed. */
  lemma {:induction false} StayerBeats(before: map<nat, Cache>, after: map<nat, Cache>, q: Query, id: nat) returns (m: nat)
    requires OnlySuperseded(before, after) && id in before && id !in after && Candidate(q, before[id])
    ensures m in after && m in before && after[m] == before[m] && Candidate(q, after[m]) && Better(q, after[m], before[id])
  {
    var d := before[id];
    m :| m in after && after[m].complete && IdentityOf(after[m]) == IdentityOf(d) && Newer(after[m], d);
  }

  lemma {:induction false} BestStays(before: map<nat, Cache>, after: map<nat, Cache>, q: Query, r: Option<Cache>)
    requires Keyed(before) && OnlySuperseded(before, after) && IsBest(before, q, r)
    ensures IsBest(after, q, r)
  {
    if r.Some? && r.value.id !in after {
      var m := StayerBeats(before, after, q, r.value.id);
      BetterTotal(q, after[m], r.value);
      assert false;
    }
  }

  lemma {:induction false} BestWas(before: map<nat, Cache>, after: map<nat, Cache>, q: Query, r: Option<Cache>)
    requires Keyed(before) && OnlySuperseded(before, after) && IsBest(after, q, r)
    ensures IsBest(before, q, r)
  {
    forall id <- before | Candidate(q, before[id])
      ensures r.Some? && (id != r.value.id ==> Better(q, r.value, before[id]))
    {
      if id !in after {
        var m := StayerBeats(before, after, q, id);
        if m != r.value.id { BetterTransitive(q, r.value, after[m], before[id]); }
      }
    }
  }

  /** Dropping superseded rows changes no restore answer, whatever is asked for. */
  lemma {:induction false} SupersededKeepsAnswers(before: map<nat, Cache>, after: map<nat, Cache>, q: Query, r: Option<Cache>)
    requires Keyed(before) && OnlySuperseded(before, after)
    ensures IsBest(before, q, r) <==> IsBest(after, q, r)
  {
    if IsBest(before, q, r) { BestStays(before, after, q, r); }
    if IsBest(after, q, r) { BestWas(before, after, q, r); }
  }

  /** The same answer to every query. */
  ghost predicate SameAnswers(before: map<nat, Cache>, after: map<nat, Cache>) {
    forall q, r :: IsBest(before, q, r) <==> IsBest(after, q, r)
  }

  /** Every query has an answer. */
  lemma {:induction false} BestExists(rows: map<nat, Cache>, q: Query) returns (r: Option<Cache>)
    requires Keyed(rows)
    ensures IsBest(rows, q, r)
    decreases |rows|
  {
    if id :| id in rows && Candidate(q, rows[id]) {
      var rest := rows - {id};
      assert |rest.Keys| < |rows.Keys| by { assert rest.Keys == rows.Keys - {id}; }
      var s := BestExists(rest, q);
      r := if s.Some? && Better(q, s.value, rows[id]) then s else Some(rows[id]);
      forall k <- rows | k != r.value.id && Candidate(q, rows[k]) ensures Better(q, r.value, rows[k]) {
        BestOfRest(rows, q, id, s, k);
      }
    } else {
      r := None;
    }
  }

  lemma {:induction false} BestOfRest(rows: map<nat, Cache>, q: Query, id: nat, s: Option<Cache>, k: nat)
    requires Keyed(rows) && id in rows && Candidate(q, rows[id]) && IsBest(rows - {id}, q, s)
    requires k in rows && Candidate(q, rows[k])
    ensures s.Some? && Better(q, s.value, rows[id]) ==> k == s.value.id || Better(q, s.value, rows[k])
    ensures !(s.Some? && Better(q, s.value, rows[id])) ==> k == id || Better(q, rows[id], rows[k])
  {
    if k != id {
      assert k in rows - {id};
      if k != s.value.id { assert Better(q, s.value, rows[k]); }
      BetterTotal(q, s.value, rows[id]);
      if Better(q, rows[id], s.value) && k != s.value.id {
        BetterTransitive(q, rows[id], s.value, rows[k]);
      }
    }
  }

  /** What a job asks for that looks for this very row. */
  function QueryFor(c: Cache): Query {
    Query(JobCredential(c.repo, c.ref, "", ""), [c.key], c.version)
  }

  lemma {:induction false} BeatenForItself(d: Cache, c: Cache)
    requires d.complete && Candidate(QueryFor(d), c)
    ensures Candidate(QueryFor(d), d)
    ensures Better(QueryFor(d), c, d) ==> IdentityOf(c) == IdentityOf(d) && Newer(c, d)
  {
    var q := QueryFor(d);
    assert Refs(q.cred) == [d.ref];
    assert FirstPrefix(q.keys, d.key) == 0;
  }

  /** Rows can go without changing an answer only if they are superseded. */
  lemma {:induction false} SameAnswersSuperseded(before: map<nat, Cache>, after: map<nat, Cache>, id: nat)
    requires Keyed(before) && OnlyRemoves(before, after) && SameAnswers(before, after)
    requires id in before && id !in after && before[id].complete
    ensures Superseded(after, before[id])
  {
    var d := before[id];
    var q := QueryFor(d);
    BeatenForItself(d, d);
    var r := BestExists(before, q);
    assert IsBest(after, q, r) && r.Some?;
    BeatenForItself(d, r.value);
  }

  /** Taking completed rows away changes no answer if and only if something newer of each row's identity stays. */
  lemma {:induction false} ExactlySuperseded(before: map<nat, Cache>, after: map<nat, Cache>)
    requires Keyed(before) && OnlyRemoves(before, after) && forall id <- before :: id !in after ==> before[id].complete
    ensures SameAnswers(before, after) <==> OnlySuperseded(before, after)
  {
    if SameAnswers(before, after) {
      forall id <- before | id !in after ensures Superseded(after, before[id]) {
        SameAnswersSuperseded(before, after, id);
      }
    }
    if OnlySuperseded(before, after) {
      forall q, r ensures IsBest(before, q, r) <==> IsBest(after, q, r) {
        SupersededKeepsAnswers(before, after, q, r);
      }
    }
  }

  // ---- rows whose blob is missing ----

  /** The rows whose blob is there. */
  ghost function Present(rows: map<nat, Cache>, blobs: set<nat>): map<nat, Cache> {
    map id | id in rows && id in blobs :: rows[id]
  }

  /** Blobs went only with superseded rows, or from under rows that would not go. */
  ghost predicate OnlySupersededLost(before: map<nat, Cache>, after: map<nat, Cache>, blobs: set<nat>, blobs': set<nat>) {
    && blobs' <= blobs
    && forall id <- before :: id in blobs && id !in blobs' ==> before[id].complete && Superseded(after, before[id])
  }

  /** Where a key has a live row, its newest row is live. */
  ghost predicate NewestLive(rows: map<nat, Cache>, blobs: set<nat>) {
    forall id <- rows :: rows[id].complete && id in blobs ==> LiveNewest(rows, blobs, IdentityOf(rows[id]))
  }

  ghost predicate LiveNewest(rows: map<nat, Cache>, blobs: set<nat>, g: Identity) {
    exists m <- rows :: m in blobs && rows[m].complete && IdentityOf(rows[m]) == g && !Superseded(rows, rows[m])
  }

  /** What superseded a row before the pass, or something newer yet, still does. */
  lemma {:induction false} StillSuperseded(before: map<nat, Cache>, after: map<nat, Cache>, c: Cache)
    requires OnlySuperseded(before, after)
    ensures Superseded(before, c) <==> Superseded(after, c)
  {
    if Superseded(before, c) {
      var m :| m in before && before[m].complete && IdentityOf(before[m]) == IdentityOf(c) && Newer(before[m], c);
      if m !in after {
        var n :| n in after && after[n].complete && IdentityOf(after[n]) == IdentityOf(before[m]) && Newer(after[n], before[m]);
      }
    }
  }

  /** With the newest rows live, dropping superseded ones leaves every live answer as it was. */
  lemma {:induction false} LiveAnswersKept(before: map<nat, Cache>, after: map<nat, Cache>, blobs: set<nat>, blobs': set<nat>)
    requires Keyed(before) && OnlySuperseded(before, after) && OnlySupersededLost(before, after, blobs, blobs')
    requires NewestLive(before, blobs)
    ensures OnlySuperseded(Present(before, blobs), Present(after, blobs'))
  {
    var now := Present(after, blobs');
    forall id <- before | id in blobs && id !in now ensures Superseded(now, before[id]) {
      var d := before[id];
      assert Superseded(after, d);
      StillSuperseded(before, after, d);
      assert LiveNewest(before, blobs, IdentityOf(d));
      var m :| m in before && m in blobs && before[m].complete && IdentityOf(before[m]) == IdentityOf(d) && !Superseded(before, before[m]);
      StillSuperseded(before, after, before[m]);
      assert m in now;
      assert m != id && !Newer(d, before[m]);
    }
  }

  /** A pass that left no superseded row, and no live answer changed, found every newest row live. */
  lemma {:induction false} KeptOnlyIfLive(before: map<nat, Cache>, after: map<nat, Cache>, blobs: set<nat>, blobs': set<nat>)
    requires OnlySuperseded(before, after) && OnlySupersededLost(before, after, blobs, blobs')
    requires forall id <- after :: after[id].complete ==> !Superseded(after, after[id])
    requires OnlySuperseded(Present(before, blobs), Present(after, blobs'))
    ensures NewestLive(before, blobs)
  {
    var was, now := Present(before, blobs), Present(after, blobs');
    forall id <- before | before[id].complete && id in blobs ensures LiveNewest(before, blobs, IdentityOf(before[id])) {
      assert id in was;
      var m := id;
      if id !in now {
        m :| m in now && now[m].complete && IdentityOf(now[m]) == IdentityOf(before[id]) && Newer(now[m], before[id]);
      }
      StillSuperseded(before, after, before[m]);
    }
  }

  /** What dropping superseded rows does to the answers among live rows, before and after. */
  lemma {:induction false} LiveAnswers(before: map<nat, Cache>, after: map<nat, Cache>, blobs: set<nat>, blobs': set<nat>)
    requires Keyed(before) && OnlySuperseded(before, after) && OnlySupersededLost(before, after, blobs, blobs')
    ensures NewestLive(before, blobs) ==> SameAnswers(Present(before, blobs), Present(after, blobs'))
    ensures (forall id <- after :: after[id].complete ==> !Superseded(after, after[id])) ==>
              (SameAnswers(Present(before, blobs), Present(after, blobs')) <==> NewestLive(before, blobs))
  {
    ExactlySuperseded(Present(before, blobs), Present(after, blobs'));
    if NewestLive(before, blobs) {
      LiveAnswersKept(before, after, blobs, blobs');
    } else if forall id <- after :: after[id].complete ==> !Superseded(after, after[id]) {
      if SameAnswers(Present(before, blobs), Present(after, blobs')) {
        KeptOnlyIfLive(before, after, blobs, blobs');
      }
    }
  }

  // ---- the search the server runs ----

  /** The maximum by stamp, ties going to the higher id. */
  function Latest(caches: seq<Cache>, stamp: Cache -> int): (r: Option<Cache>)
    ensures r.None? <==> caches == []
    ensures r.Some? ==> r.value in caches
    ensures r.Some? ==> forall c <- caches ::
              stamp(c) < stamp(r.value) || (stamp(c) == stamp(r.value) && c.id <= r.value.id)
  {
    if caches == [] then None
    else
      var rest := Latest(caches[1..], stamp);
      var c := caches[0];
      if rest.None? || stamp(rest.value) < stamp(c) || (stamp(rest.value) == stamp(c) && rest.value.id <= c.id)
      then Some(c) else rest
  }

  /** The job's own ref is searched first, its base ref next, the default ref last, each once and only if it is set. */
  ghost predicate SearchOrder(cred: JobCredential, refs: seq<string>) {
    && (forall x :: x in refs <==> x == cred.ref || (x != "" && (x == cred.baseRef || x == cred.defaultRef)))
    && (forall i, j :: 0 <= i < j < |refs| ==> refs[i] != refs[j])
    && (forall i :: 0 <= i < |refs| && refs[i] == cred.ref ==> i == 0)
    && (forall i :: 0 <= i < |refs| && refs[i] == cred.baseRef && cred.baseRef != cred.ref ==> i == 1)
  }

  lemma {:induction false} RefsInOrder(cred: JobCredential)
    ensures SearchOrder(cred, Refs(cred))
  {
  }

  method SearchRefs(cred: JobCredential) returns (refs: seq<string>)
    ensures refs == Refs(cred) && SearchOrder(cred, refs)
  {
    RefsInOrder(cred);
    refs := [cred.ref];
    var fallbacks := [cred.baseRef, cred.defaultRef];
    for i := 0 to 2
      invariant i == 0 ==> refs == [cred.ref]
      invariant i == 1 ==> refs == if cred.baseRef != "" && cred.baseRef != cred.ref then [cred.ref, cred.baseRef] else [cred.ref]
      invariant i == 2 ==> refs == Refs(cred)
    {
      if fallbacks[i] != "" && fallbacks[i] !in refs {
        refs := refs + [fallbacks[i]];
      }
    }
  }

  /** The rows of one ref whose key is `prefix`, and those it is a proper prefix of. */
  method Split(caches: seq<Cache>, ref: string, prefix: string) returns (exact: seq<Cache>, partial: seq<Cache>)
    ensures forall c :: c in exact <==> c in caches && c.ref == ref && c.key == prefix
    ensures forall c :: c in partial <==> c in caches && c.ref == ref && c.key != prefix && prefix <= c.key
  {
    exact, partial := [], [];
    for i := 0 to |caches|
      invariant forall c :: c in exact <==> c in caches[..i] && c.ref == ref && c.key == prefix
      invariant forall c :: c in partial <==> c in caches[..i] && c.ref == ref && c.key != prefix && prefix <= c.key
    {
      var c := caches[i];
      assert forall x :: x in caches[..i + 1] <==> x in caches[..i] || x == c;
      if c.ref == ref && c.key == prefix {
        exact := exact + [c];
      } else if c.ref == ref && prefix <= c.key {
        partial := partial + [c];
      }
    }
    assert caches[..|caches|] == caches;
  }

  /** No candidate sits before position (i, j) of the double loop. */
  ghost predicate NoneBefore(caches: seq<Cache>, q: Query, i: nat, j: nat) {
    forall c <- caches :: Candidate(q, c) ==>
      var r := FirstAt(Refs(q.cred), c.ref);
      i < r || (i == r && j <= FirstPrefix(q.keys, c.key))
  }

  /** What the two groups at position (i, j) hold. */
  ghost predicate SplitAt(caches: seq<Cache>, q: Query, i: nat, j: nat, exact: seq<Cache>, partial: seq<Cache>)
    requires i < |Refs(q.cred)| && j < |q.keys|
  {
    && (forall c :: c in exact <==> c in caches && c.ref == Refs(q.cred)[i] && c.key == q.keys[j])
    && (forall c :: c in partial <==>
          c in caches && c.ref == Refs(q.cred)[i] && c.key != q.keys[j] && q.keys[j] <= c.key)
  }

  /** A row of the groups at (i, j) ranks exactly there. */
  lemma RankHere(caches: seq<Cache>, q: Query, i: nat, j: nat, c: Cache)
    requires NoneBefore(caches, q, i, j) && c in caches && Candidate(q, c)
    requires i < |Refs(q.cred)| && j < |q.keys| && c.ref == Refs(q.cred)[i] && q.keys[j] <= c.key
    ensures FirstAt(Refs(q.cred), c.ref) == i && FirstPrefix(q.keys, c.key) == j
    ensures Exact(q, c) <==> c.key == q.keys[j]
  {
  }

  /** The latest of the exact group, else of the partial one, beats every other candidate. */
  lemma FoundIsBest(caches: seq<Cache>, q: Query, i: nat, j: nat, exact: seq<Cache>, partial: seq<Cache>, f: Cache, d: Cache)
    requires forall c <- caches :: Candidate(q, c)
    requires NoneBefore(caches, q, i, j)
    requires i < |Refs(q.cred)| && j < |q.keys| && SplitAt(caches, q, i, j, exact, partial)
    requires Some(f) == (if exact != [] then Latest(exact, CreatedAtNano) else Latest(partial, CreatedAtNano))
    requires d in caches && d.id != f.id
    ensures f in caches && Better(q, f, d)
  {
    var group := if exact != [] then exact else partial;
    assert f in group;
    RankHere(caches, q, i, j, f);
    if d.ref == Refs(q.cred)[i] && q.keys[j] <= d.key {
      RankHere(caches, q, i, j, d);
      assert d in exact || d in partial;
    }
  }

  lemma FoundInStore(rows: map<nat, Cache>, caches: seq<Cache>, q: Query, i: nat, j: nat, exact: seq<Cache>, partial: seq<Cache>, f: Cache)
    requires Keyed(rows) && Mirror.Lists(rows, (c: Cache) => Candidate(q, c), caches)
    requires NoneBefore(caches, q, i, j)
    requires i < |Refs(q.cred)| && j < |q.keys| && SplitAt(caches, q, i, j, exact, partial)
    requires Some(f) == (if exact != [] then Latest(exact, CreatedAtNano) else Latest(partial, CreatedAtNano))
    ensures IsBest(rows, q, Some(f))
  {
    assert forall c <- caches :: Candidate(q, c) && c.id in rows && rows[c.id] == c;
    assert f in caches;
    forall id <- rows | id != f.id && Candidate(q, rows[id]) ensures Better(q, f, rows[id]) {
      FoundIsBest(caches, q, i, j, exact, partial, f, rows[id]);
    }
  }

  lemma NextRef(caches: seq<Cache>, q: Query, i: nat)
    requires NoneBefore(caches, q, i, |q.keys|)
    ensures NoneBefore(caches, q, i + 1, 0)
  {
  }

  lemma NothingInStore(rows: map<nat, Cache>, caches: seq<Cache>, q: Query)
    requires Mirror.Lists(rows, (c: Cache) => Candidate(q, c), caches) && NoneBefore(caches, q, |Refs(q.cred)|, 0)
    ensures IsBest(rows, q, None)
  {
    forall c <- caches ensures !Candidate(q, c) {
    }
  }

  lemma NothingHere(caches: seq<Cache>, q: Query, i: nat, j: nat)
    requires NoneBefore(caches, q, i, j)
    requires i < |Refs(q.cred)| && j < |q.keys| && SplitAt(caches, q, i, j, [], [])
    ensures NoneBefore(caches, q, i, j + 1)
  {
    var none: seq<Cache> := [];
    forall c <- caches | Candidate(q, c)
      ensures var r := FirstAt(Refs(q.cred), c.ref); i < r || (i == r && j + 1 <= FirstPrefix(q.keys, c.key))
    {
      assert c !in none;
    }
  }

  // ---- the answer said once more, field by field ----

  /** How early a ref is searched: 3 for never. */
  function RefRank(cred: JobCredential, ref: string): nat {
    if ref == cred.ref then 0
    else if ref != "" && ref == cred.baseRef then 1
    else if ref != "" && ref == cred.defaultRef then 2
    else 3
  }

  /** The `i`-th key is the first that begins the row's key. */
  ghost predicate FirstKey(keys: seq<string>, c: Cache, i: nat) {
    i < |keys| && keys[i] <= c.key && forall j :: 0 <= j < i ==> !(keys[j] <= c.key)
  }

  /** A row of the repository and version asked for, completed, on a ref searched, with a key that begins like one asked for. */
  ghost predicate Wanted(q: Query, c: Cache) {
    && c.repo == q.cred.repo && c.version == q.version && c.complete
    && RefRank(q.cred, c.ref) < 3 && exists i :: FirstKey(q.keys, c, i)
  }

  /** Earlier ref; then earlier key; then the very key before one that only begins like it; then newer; then higher id. */
  ghost predicate Precedes(q: Query, c: Cache, i: nat, d: Cache, j: nat)
    requires i < |q.keys|
  {
    if RefRank(q.cred, c.ref) != RefRank(q.cred, d.ref) then RefRank(q.cred, c.ref) < RefRank(q.cred, d.ref)
    else if i != j then i < j
    else if (c.key == q.keys[i]) != (d.key == q.keys[i]) then c.key == q.keys[i]
    else if c.createdAt * SECOND + c.createdAtNanos != d.createdAt * SECOND + d.createdAtNanos then
      c.createdAt * SECOND + c.createdAtNanos > d.createdAt * SECOND + d.createdAtNanos
    else c.id > d.id
  }

  ghost predicate Restored(rows: map<nat, Cache>, q: Query, r: Option<Cache>) {
    match r
    case None => forall id <- rows :: !Wanted(q, rows[id])
    case Some(c) =>
      && c.id in rows && rows[c.id] == c && Wanted(q, c)
      && forall id <- rows, i, j :: id != c.id && Wanted(q, rows[id]) && FirstKey(q.keys, c, i) && FirstKey(q.keys, rows[id], j) ==>
           Precedes(q, c, i, rows[id], j)
  }

  lemma {:induction false} RankIsPosition(cred: JobCredential, ref: string)
    ensures ref in Refs(cred) <==> RefRank(cred, ref) < 3
  {
  }

  lemma {:induction false} RanksInOrder(cred: JobCredential, a: string, b: string)
    requires a in Refs(cred) && b in Refs(cred)
    ensures FirstAt(Refs(cred), a) < FirstAt(Refs(cred), b) <==> RefRank(cred, a) < RefRank(cred, b)
  {
    RankIsPosition(cred, a);
    RankIsPosition(cred, b);
  }

  lemma {:induction false} CandidateWanted(q: Query, c: Cache)
    ensures Candidate(q, c) <==> Wanted(q, c)
    ensures forall i: nat :: FirstKey(q.keys, c, i) <==> i == FirstPrefix(q.keys, c.key) && i < |q.keys|
  {
    RankIsPosition(q.cred, c.ref);
    var k := FirstPrefix(q.keys, c.key);
    assert k < |q.keys| ==> FirstKey(q.keys, c, k);
  }

  lemma {:induction false} BetterPrecedes(q: Query, c: Cache, d: Cache)
    requires Candidate(q, c) && Candidate(q, d)
    ensures Better(q, c, d) <==> Precedes(q, c, FirstPrefix(q.keys, c.key), d, FirstPrefix(q.keys, d.key))
  {
    RanksInOrder(q.cred, c.ref, d.ref);
    RanksInOrder(q.cred, d.ref, c.ref);
  }

  /** The ranked answer is the one this describes. */
  lemma {:induction false} BestIsRestored(rows: map<nat, Cache>, q: Query, r: Option<Cache>)
    ensures IsBest(rows, q, r) <==> Restored(rows, q, r)
  {
    forall id <- rows ensures Candidate(q, rows[id]) <==> Wanted(q, rows[id]) {
      CandidateWanted(q, rows[id]);
    }
    if r.Some? {
      var c := r.value;
      CandidateWanted(q, c);
      forall id <- rows | Candidate(q, c) && Candidate(q, rows[id])
        ensures Better(q, c, rows[id]) <==>
                  forall i, j :: FirstKey(q.keys, c, i) && FirstKey(q.keys, rows[id], j) ==> Precedes(q, c, i, rows[id], j)
      {
        CandidateWanted(q, rows[id]);
        BetterPrecedes(q, c, rows[id]);
        assert FirstKey(q.keys, c, FirstPrefix(q.keys, c.key)) && FirstKey(q.keys, rows[id], FirstPrefix(q.keys, rows[id].key));
      }
    }
  }

  lemma {:induction false} BestIsAlwaysRestored(rows: map<nat, Cache>, q: Query)
    ensures forall r :: IsBest(rows, q, r) ==> Restored(rows, q, r)
  {
    forall r | IsBest(rows, q, r) ensures Restored(rows, q, r) {
      BestIsRestored(rows, q, r);
    }
  }

  /** A row on the base ref is restored when the job's own ref has none, whatever the default ref holds. */
  lemma {:induction false} BaseBeforeDefault(rows: map<nat, Cache>, q: Query, r: Option<Cache>, id: nat)
    requires IsBest(rows, q, r) && id in rows && Wanted(q, rows[id]) && rows[id].ref == q.cred.baseRef != ""
    requires forall k <- rows :: Wanted(q, rows[k]) ==> rows[k].ref != q.cred.ref
    ensures r.Some? && r.value.ref == q.cred.baseRef
  {
    BestIsRestored(rows, q, r);
    var c := r.value;
    var i :| FirstKey(q.keys, c, i);
    var j :| FirstKey(q.keys, rows[id], j);
    assert id != c.id ==> Precedes(q, c, i, rows[id], j);
  }

  method FindCache(rows: map<nat, Cache>, q: Query) returns (r: Option<Cache>)
    requires Keyed(rows)
    ensures IsBest(rows, q, r) && Restored(rows, q, r)
  {
    BestIsAlwaysRestored(rows, q);
    var refs := SearchRefs(q.cred);
    var caches := Mirror.ListRows(rows, (c: Cache) => Candidate(q, c));
    for i := 0 to |refs|
      invariant NoneBefore(caches, q, i, 0)
    {
      for j := 0 to |q.keys|
        invariant NoneBefore(caches, q, i, j)
      {
        var exact, partial := Split(caches, refs[i], q.keys[j]);
        assert SplitAt(caches, q, i, j, exact, partial);
        var found := Latest(exact, CreatedAtNano);
        if found.None? {
          found := Latest(partial, CreatedAtNano);
        }
        if found.Some? {
          FoundInStore(rows, caches, q, i, j, exact, partial, found.value);
          return found;
        }
        NothingHere(caches, q, i, j);
      }
      NextRef(caches, q, i);
    }
    NothingInStore(rows, caches, q);
    return None;
  }
}
