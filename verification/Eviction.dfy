/**
  What one size-limited eviction pass decides, as a function of the verdict each row met
  when the pass reached it: in use, not deletable, or gone.
 */
module Eviction {
  import opened CacheModel

  /** What goes wrong in a session: reading the store, checking or unlinking a blob, writing a row. */
  datatype Faults = Faults(unreadable: bool, stat: nat -> bool, unlink: nat -> bool, write: nat -> bool) {
    predicate Undeletable(id: nat) {
      unlink(id) || write(id)
    }
  }

  datatype Verdict = Evicted | Spared | Stuck | Unreached

  function Sum(s: seq<Cache>): int {
    if s == [] then 0 else Sum(s[..|s| - 1]) + s[|s| - 1].size
  }

  function Fitting(s: seq<Cache>, limit: int): (f: seq<Cache>)
    ensures |f| <= |s| && forall c :: c in f <==> c in s && c.size <= limit
  {
    if s == [] then []
    else
      var c := s[|s| - 1];
      assert s == s[..|s| - 1] + [c];
      Fitting(s[..|s| - 1], limit) + if c.size <= limit then [c] else []
  }

  function Oversized(s: seq<Cache>, limit: int): (f: seq<Cache>)
    ensures |f| <= |s| && forall c :: c in f <==> c in s && c.size > limit
  {
    if s == [] then []
    else
      var c := s[|s| - 1];
      assert s == s[..|s| - 1] + [c];
      Oversized(s[..|s| - 1], limit) + if c.size > limit then [c] else []
  }

  ghost predicate ByUse(s: seq<Cache>) {
    forall i, j :: 0 <= i < j < |s| ==> s[i].usedAt <= s[j].usedAt
  }

  ghost predicate DistinctIds(s: seq<Cache>) {
    forall i, j :: 0 <= i < j < |s| ==> s[i].id != s[j].id
  }

  /** Bytes the first `i` verdicts freed. */
  function Freed(s: seq<Cache>, v: seq<Verdict>, i: nat): int
    requires i <= |v| <= |s|
  {
    if i == 0 then 0
    else Freed(s, v, i - 1) + if v[i - 1].Evicted? then s[i - 1].size else 0
  }

  /** What still counts against the limit when the pass comes to row `i`. */
  function Left(s: seq<Cache>, v: seq<Verdict>, i: nat): int
    requires i <= |v| <= |s|
  {
    Sum(s) - Freed(s, v, i)
  }

  /** The pass skips a row exactly when the rows fit by the time it comes to it. */
  ghost predicate Plan(s: seq<Cache>, limit: int, v: seq<Verdict>) {
    && |v| == |s|
    && forall i :: 0 <= i < |v| ==> (v[i].Unreached? <==> Left(s, v, i) <= limit)
  }

  ghost predicate AllEvicted(v: seq<Verdict>) {
    forall i :: 0 <= i < |v| ==> v[i].Evicted? || v[i].Unreached?
  }

  lemma {:induction false} FreedPrefix(s: seq<Cache>, v: seq<Verdict>, x: Verdict, i: nat)
    requires i <= |v| < |s|
    ensures Freed(s, v + [x], i) == Freed(s, v, i)
  {
    if i > 0 { FreedPrefix(s, v, x, i - 1); }
  }

  /** The rows a pass never came to. */
  ghost function Pad(v: seq<Verdict>, n: nat): (p: seq<Verdict>)
    requires |v| <= n
    ensures |p| == n && v <= p && forall i :: |v| <= i < n ==> p[i].Unreached?
  {
    v + seq(n - |v|, _ => Unreached)
  }

  lemma {:induction false} FreedPad(s: seq<Cache>, v: seq<Verdict>, i: nat)
    requires i <= |s| && |v| <= |s|
    ensures Freed(s, Pad(v, |s|), i) == Freed(s, v, if i < |v| then i else |v|)
  {
    if i > 0 { FreedPad(s, v, i - 1); }
  }

  lemma {:induction false} FittingByUse(s: seq<Cache>, limit: int)
    requires ByUse(s)
    ensures ByUse(Fitting(s, limit))
  {
    if s != [] {
      FittingByUse(s[..|s| - 1], limit);
    }
  }

  /** Ids a pass took away. */
  ghost function Gone(s: seq<Cache>, v: seq<Verdict>): set<nat>
    requires |v| <= |s|
  {
    if v == [] then {}
    else Gone(s, v[..|v| - 1]) + if v[|v| - 1].Evicted? then {s[|v| - 1].id} else {}
  }

  lemma {:induction false} GoneMembers(s: seq<Cache>, v: seq<Verdict>, id: nat)
    requires |v| <= |s|
    ensures id in Gone(s, v) <==> exists i :: 0 <= i < |v| && v[i].Evicted? && s[i].id == id
  {
    if v != [] {
      GoneMembers(s, v[..|v| - 1], id);
    }
  }

  /** Of rows with distinct ids, exactly the evicted ones are gone. */
  lemma {:induction false} GoneAt(s: seq<Cache>, v: seq<Verdict>, k: nat)
    requires |v| <= |s| && k < |v| && DistinctIds(s)
    ensures s[k].id in Gone(s, v) <==> v[k].Evicted?
  {
    GoneMembers(s, v, s[k].id);
  }

  lemma {:induction false} NotGone(s: seq<Cache>, v: seq<Verdict>, id: nat)
    requires |v| <= |s| && forall c :: c in s ==> c.id != id
    ensures id !in Gone(s, v)
  {
    GoneMembers(s, v, id);
    assert forall i :: 0 <= i < |v| ==> s[i] in s;
  }

  lemma {:induction false} GoneMore(s: seq<Cache>, v: seq<Verdict>, c: Cache)
    requires |v| <= |s|
    ensures Gone(s + [c], v) == Gone(s, v)
  {
    if v != [] {
      GoneMore(s, v[..|v| - 1], c);
    }
  }

  lemma {:induction false} GonePad(s: seq<Cache>, v: seq<Verdict>, n: nat)
    requires |v| <= n <= |s|
    ensures Gone(s, Pad(v, n)) == Gone(s, v)
  {
    if n == |v| {
      assert Pad(v, n) == v;
    } else {
      assert Pad(v, n)[..n - 1] == Pad(v, n - 1);
      GonePad(s, v, n - 1);
    }
  }

  /** Spared rows were in use when the pass started; tried ones were not by its end, and stuck by a fault only. */
  ghost predicate Judged(s: seq<Cache>, v: seq<Verdict>, started: int, ended: int, faults: Faults)
    requires |v| <= |s|
  {
    forall i :: 0 <= i < |v| ==> FairVerdict(s[i], v[i], started, ended, faults)
  }

  ghost predicate FairVerdict(c: Cache, v: Verdict, started: int, ended: int, faults: Faults) {
    && (v.Spared? ==> InUse(c, started))
    && (v.Evicted? ==> !InUse(c, ended) && !faults.Undeletable(c.id))
    && (v.Stuck? ==> !InUse(c, ended) && faults.Undeletable(c.id))
  }

  /** Every row so far was reached, the limit being exceeded when the pass came to it. */
  ghost predicate AllReached(s: seq<Cache>, v: seq<Verdict>, limit: int)
    requires |v| <= |s|
  {
    forall k :: 0 <= k < |v| ==> !v[k].Unreached? && Left(s, v, k) > limit
  }

  /** One more verdict on the next row of the list. */
  lemma {:induction false} Extend(s: seq<Cache>, v: seq<Verdict>, x: Verdict, limit: int)
    requires |v| < |s| && AllReached(s, v, limit) && Left(s, v, |v|) > limit && !x.Unreached?
    ensures AllReached(s, v + [x], limit)
    ensures Freed(s, v + [x], |v| + 1) == Freed(s, v, |v|) + if x.Evicted? then s[|v|].size else 0
    ensures Gone(s, v + [x]) == Gone(s, v) + if x.Evicted? then {s[|v|].id} else {}
  {
    assert (v + [x])[..|v|] == v;
    FreedPrefix(s, v, x, |v|);
    forall k | 0 <= k <= |v| ensures !(v + [x])[k].Unreached? && Left(s, v + [x], k) > limit {
      FreedPrefix(s, v, x, k);
    }
  }

  lemma {:induction false} JudgedExtend(s: seq<Cache>, v: seq<Verdict>, x: Verdict, started: int, before: int, ended: int, faults: Faults)
    requires |v| < |s| && before <= ended && Judged(s, v, started, before, faults)
    requires FairVerdict(s[|v|], x, started, ended, faults)
    ensures Judged(s, v + [x], started, ended, faults)
  {
  }

  lemma {:induction false} JudgedMore(s: seq<Cache>, v: seq<Verdict>, c: Cache, started: int, ended: int, faults: Faults)
    requires |v| <= |s| && Judged(s, v, started, ended, faults)
    ensures Judged(s + [c], v, started, ended, faults)
  {
  }

  lemma {:induction false} NextRow(s: seq<Cache>, limit: int, i: nat)
    requires i < |s|
    ensures Fitting(s[..i + 1], limit) == Fitting(s[..i], limit) + if s[i].size <= limit then [s[i]] else []
    ensures Oversized(s[..i + 1], limit) == Oversized(s[..i], limit) + if s[i].size > limit then [s[i]] else []
  {
    assert s[..i + 1][..i] == s[..i];
  }

  /** The same for a list that grows along with its verdicts. */
  lemma {:induction false} Append(s: seq<Cache>, v: seq<Verdict>, c: Cache, x: Verdict)
    requires |v| == |s|
    ensures Gone(s + [c], v + [x]) == Gone(s, v) + if x.Evicted? then {c.id} else {}
  {
    assert (v + [x])[..|v|] == v;
    GoneMore(s, v, c);
  }

  /** Stopping because the rows fit, or because the list ends, completes the plan. */
  lemma {:induction false} Stop(s: seq<Cache>, v: seq<Verdict>, limit: int)
    requires |v| <= |s| && AllReached(s, v, limit)
    requires |v| == |s| || Left(s, v, |v|) <= limit
    ensures Plan(s, limit, Pad(v, |s|))
    ensures Freed(s, Pad(v, |s|), |s|) == Freed(s, v, |v|)
    ensures Gone(s, Pad(v, |s|)) == Gone(s, v)
  {
    var p := Pad(v, |s|);
    FreedPad(s, v, |s|);
    GonePad(s, v, |s|);
    forall k | 0 <= k < |s| ensures p[k].Unreached? <==> Left(s, p, k) <= limit {
      FreedPad(s, v, k);
    }
  }

  /** Ids stay distinct within and across the two halves of a list. */
  lemma {:induction false} FittingDistinct(s: seq<Cache>, limit: int)
    requires DistinctIds(s)
    ensures DistinctIds(Fitting(s, limit))
    ensures forall a, b :: a in Fitting(s, limit) && b in Oversized(s, limit) ==> a.id != b.id
  {
    if s != [] {
      FittingDistinct(s[..|s| - 1], limit);
    }
  }

  /** Once the rows fit, nothing more is freed. */
  lemma {:induction false} FitsFromHere(s: seq<Cache>, limit: int, v: seq<Verdict>, i: nat, k: nat)
    requires Plan(s, limit, v) && i <= k <= |s| && Left(s, v, i) <= limit
    ensures Left(s, v, k) == Left(s, v, i)
  {
    if i < k { FitsFromHere(s, limit, v, i, k - 1); }
  }

  /** Least recently used first: a survivor older than a victim was in use or would not go. */
  lemma {:induction false} OlderSurvivorsExcused(s: seq<Cache>, limit: int, v: seq<Verdict>, survivor: nat, victim: nat)
    requires Plan(s, limit, v) && ByUse(s)
    requires survivor < |s| && victim < |s| && v[victim].Evicted? && !v[survivor].Evicted?
    requires s[survivor].usedAt < s[victim].usedAt
    ensures v[survivor].Spared? || v[survivor].Stuck?
  {
    if v[survivor].Unreached? {
      assert survivor < victim;
      FitsFromHere(s, limit, v, survivor, victim);
    }
  }

  /** The pass stops as soon as the rows fit: with the last victim back they would not. */
  lemma {:induction false} LastVictimNeeded(s: seq<Cache>, limit: int, v: seq<Verdict>, last: nat, k: nat)
    requires Plan(s, limit, v) && last < k <= |s| && v[last].Evicted?
    requires forall i :: last < i < |s| ==> !v[i].Evicted?
    ensures Left(s, v, k) + s[last].size > limit
  {
    if k > last + 1 { LastVictimNeeded(s, limit, v, last, k - 1); }
  }

  /** A pass that ends above its limit has tried every fitting row. */
  lemma {:induction false} AboveLimitAllTried(s: seq<Cache>, limit: int, v: seq<Verdict>)
    requires Plan(s, limit, v) && Left(s, v, |s|) > limit
    ensures forall i :: 0 <= i < |s| ==> !v[i].Unreached?
  {
    forall i | 0 <= i < |s| ensures !v[i].Unreached? {
      if v[i].Unreached? { FitsFromHere(s, limit, v, i, |s|); }
    }
  }

  // ---- making room ----

  ghost predicate NonNegative(s: seq<Cache>) {
    forall c <- s :: c.size >= 0
  }

  lemma {:induction false} SumAppend(s: seq<Cache>, c: Cache)
    ensures Sum(s + [c]) == Sum(s) + c.size
  {
    assert (s + [c])[..|s|] == s;
  }

  lemma {:induction false} SumSplit(s: seq<Cache>, limit: int)
    ensures Sum(s) == Sum(Fitting(s, limit)) + Sum(Oversized(s, limit))
  {
    if s != [] {
      var init, c := s[..|s| - 1], s[|s| - 1];
      SumSplit(init, limit);
      if c.size <= limit {
        SumAppend(Fitting(init, limit), c);
        assert Oversized(s, limit) == Oversized(init, limit);
      } else {
        SumAppend(Oversized(init, limit), c);
        assert Fitting(s, limit) == Fitting(init, limit);
      }
    }
  }

  /** With nothing spared and nothing stuck, either everything goes or the rest fits. */
  lemma {:induction false} FreedWhenAllGo(s: seq<Cache>, limit: int, v: seq<Verdict>, i: nat)
    requires Plan(s, limit, v) && AllEvicted(v) && i <= |s|
    ensures Left(s, v, i) <= limit || Freed(s, v, i) == Sum(s[..i])
  {
    if i > 0 {
      FreedWhenAllGo(s, limit, v, i - 1);
      SumAppend(s[..i - 1], s[i - 1]);
      assert s[..i] == s[..i - 1] + [s[i - 1]];
      if Left(s, v, i - 1) <= limit { FitsFromHere(s, limit, v, i - 1, i); }
    }
  }

  /** A pass with nothing spared and nothing stuck ends within its limit or with nothing left. */
  lemma {:induction false} FitsWhenAllGo(f: seq<Cache>, limit: int, v: seq<Verdict>)
    requires Plan(f, limit, v) && AllEvicted(v)
    ensures Sum(f) - Freed(f, v, |v|) <= limit || Freed(f, v, |v|) == Sum(f)
  {
    FreedWhenAllGo(f, limit, v, |f|);
    assert f[..|f|] == f;
  }

  /** Bytes of the rows of `s` whose ids are chosen. */
  function SumOf(s: seq<Cache>, chosen: set<nat>): int {
    if s == [] then 0
    else SumOf(s[..|s| - 1], chosen) + if s[|s| - 1].id in chosen then s[|s| - 1].size else 0
  }

  /** Nothing of the list is in use, and none of it is stuck. */
  ghost predicate Quiet(s: seq<Cache>, now: int, faults: Faults) {
    forall c :: c in s ==> !InUse(c, now) && !faults.Undeletable(c.id)
  }

  lemma {:induction false} SumOfAppend(s: seq<Cache>, c: Cache, ids: set<nat>)
    ensures SumOf(s + [c], ids) == SumOf(s, ids) + if c.id in ids then c.size else 0
  {
    assert (s + [c])[..|s|] == s;
  }

  lemma {:induction false} SumOfSplit(s: seq<Cache>, limit: int, ids: set<nat>)
    ensures SumOf(s, ids) == SumOf(Fitting(s, limit), ids) + SumOf(Oversized(s, limit), ids)
  {
    if s != [] {
      var init, c := s[..|s| - 1], s[|s| - 1];
      SumOfSplit(init, limit, ids);
      if c.size <= limit {
        SumOfAppend(Fitting(init, limit), c, ids);
        assert Oversized(s, limit) == Oversized(init, limit);
      } else {
        SumOfAppend(Oversized(init, limit), c, ids);
        assert Fitting(s, limit) == Fitting(init, limit);
      }
    }
  }

  lemma {:induction false} SumOfAll(s: seq<Cache>, ids: set<nat>)
    requires forall c :: c in s ==> c.id in ids
    ensures SumOf(s, ids) == Sum(s)
  {
    if s != [] {
      assert s[|s| - 1] in s;
      SumOfAll(s[..|s| - 1], ids);
    }
  }

  lemma {:induction false} SumOfFreed(s: seq<Cache>, v: seq<Verdict>, ids: set<nat>, i: nat)
    requires i <= |v| == |s| && forall k :: 0 <= k < |s| ==> (s[k].id in ids <==> v[k].Evicted?)
    ensures SumOf(s[..i], ids) == Freed(s, v, i)
  {
    if i > 0 {
      assert s[..i][..i - 1] == s[..i - 1];
      SumOfFreed(s, v, ids, i - 1);
    }
  }

  /**
    Making room: when a pass with limit `Sum(s) - shortfall` finds nothing in use and nothing
    stuck, the bytes of the rows it takes cover the shortfall, or are all there is.
   */
  lemma {:induction false} RoomIsMade(s: seq<Cache>, shortfall: int, limit: int, v: seq<Verdict>, ids: set<nat>)
    requires limit == Sum(s) - shortfall
    requires Plan(Fitting(s, limit), limit, v) && AllEvicted(v)
    requires forall c :: c in Oversized(s, limit) ==> c.id in ids
    requires forall k :: 0 <= k < |v| ==> (Fitting(s, limit)[k].id in ids <==> v[k].Evicted?)
    ensures SumOf(s, ids) >= shortfall || SumOf(s, ids) == Sum(s)
  {
    var f, o := Fitting(s, limit), Oversized(s, limit);
    SumSplit(s, limit);
    SumOfSplit(s, limit, ids);
    SumOfAll(o, ids);
    SumOfFreed(f, v, ids, |f|);
    assert f[..|f|] == f;
    FitsWhenAllGo(f, limit, v);
  }

  lemma {:induction false} SumWithout(s: seq<Cache>, chosen: set<nat>, c: Cache)
    requires NonNegative(s)
    ensures SumOf(s, chosen) <= Sum(s)
    ensures c in s && c.id !in chosen ==> SumOf(s, chosen) + c.size <= Sum(s)
  {
    if s != [] {
      var init := s[..|s| - 1];
      assert s == init + [s[|s| - 1]];
      assert s[|s| - 1] in s;
      SumWithout(init, chosen, c);
    }
  }

  /** A row dropped as too big on its own is part of every choice that frees the shortfall. */
  lemma {:induction false} OversizedUnavoidable(s: seq<Cache>, shortfall: int, c: Cache, chosen: set<nat>)
    requires NonNegative(s) && c in Oversized(s, Sum(s) - shortfall)
    requires SumOf(s, chosen) >= shortfall
    ensures c.id in chosen
  {
    SumWithout(s, chosen, c);
  }

  // ---- ordering by use ----

  /** Rows used no earlier than all before them may follow. */
  lemma {:induction false} ByUseAppend(s: seq<Cache>, c: Cache)
    requires ByUse(s) && (s == [] || s[|s| - 1].usedAt <= c.usedAt)
    ensures ByUse(s + [c])
  {
  }

  function PlaceByUse(s: seq<Cache>, c: Cache): (r: seq<Cache>)
    requires ByUse(s)
    ensures ByUse(r) && multiset(r) == multiset(s) + multiset{c}
    ensures r != [] && r[|r| - 1] == if s == [] || s[|s| - 1].usedAt <= c.usedAt then c else s[|s| - 1]
  {
    if s == [] || s[|s| - 1].usedAt <= c.usedAt then
      ByUseAppend(s, c);
      s + [c]
    else
      var init, last := s[..|s| - 1], s[|s| - 1];
      assert s == init + [last];
      var r := PlaceByUse(init, c);
      ByUseAppend(r, last);
      r + [last]
  }

  method SortByUse(s: seq<Cache>) returns (t: seq<Cache>)
    ensures ByUse(t) && multiset(t) == multiset(s)
  {
    t := [];
    for i := 0 to |s|
      invariant ByUse(t) && multiset(t) == multiset(s[..i])
    {
      assert s[..i + 1] == s[..i] + [s[i]];
      t := PlaceByUse(t, s[i]);
    }
    assert s[..|s|] == s;
  }

  /** Reordering a list keeps its rows and their ids distinct. */
  lemma {:induction false} SamePermutation(s: seq<Cache>, t: seq<Cache>)
    requires multiset(s) == multiset(t)
    ensures forall c :: c in s <==> c in t
    ensures DistinctIds(s) ==> DistinctIds(t)
  {
    forall c ensures c in s <==> c in t {
      assert c in s <==> c in multiset(s);
      assert c in t <==> c in multiset(t);
    }
    if DistinctIds(s) {
      forall i, j | 0 <= i < j < |t| ensures t[i].id != t[j].id {
        if t[i].id == t[j].id {
          assert t[i] in s && t[j] in s;
          assert t[i] == t[j];
          Twice(t, i, j);
          Once(s, t[i]);
        }
      }
    }
  }

  lemma {:induction false} Twice(t: seq<Cache>, i: nat, j: nat)
    requires i < j < |t| && t[i] == t[j]
    ensures multiset(t)[t[i]] >= 2
  {
    assert t == t[..j] + t[j..];
    assert t[..j][i] == t[i] && t[j..][0] == t[i];
    assert t[i] in multiset(t[..j]) && t[i] in multiset(t[j..]);
  }

  lemma {:induction false} Once(s: seq<Cache>, c: Cache)
    requires DistinctIds(s)
    ensures multiset(s)[c] <= 1
  {
    if s != [] {
      var init := s[..|s| - 1];
      assert s == init + [s[|s| - 1]];
      Once(init, c);
      if s[|s| - 1] == c {
        assert c !in init;
        assert c !in multiset(init);
      }
    }
  }
}
