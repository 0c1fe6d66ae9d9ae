/**
  The in-memory mirror of the bolt bucket.  Several processes share the bucket file;
  each keeps decoded copies of its rows together with the transaction id they reflect.
 */
module Mirror {
  import opened Options
  import opened CacheModel

  /** A value in the bucket: a row in its JSON form, or bytes that do not decode. */
  datatype Stored = Encoded(row: Cache) | Corrupt

  type Bucket = map<nat, Stored>

  /** Decoding the whole bucket; the key decides the id, whatever the value says. */
  function Decode(bucket: Bucket): Option<map<nat, Cache>> {
    if forall id <- bucket :: bucket[id].Encoded? then
      Some(map id | id in bucket :: bucket[id].row.(id := id))
    else
      None
  }

  datatype Answer =
    | Row(row: Cache)
    | Rows(rows: seq<Cache>)
    | NotFound
    | Undecodable
    | Written(ok: bool)

  // ---- what the answers must be, by decoding the bucket afresh each time ----

  function GetAnswer(bucket: Bucket, id: nat): Answer {
    match Decode(bucket)
    case None => Undecodable
    case Some(rows) => if id in rows then Row(rows[id]) else NotFound
  }

  ghost predicate AscendingIds(s: seq<Cache>) {
    forall i, j :: 0 <= i < j < |s| ==> s[i].id < s[j].id
  }

  /** `s` lists exactly the rows that match, in id order. */
  ghost predicate Lists(rows: map<nat, Cache>, p: Cache -> bool, s: seq<Cache>) {
    && AscendingIds(s)
    && (forall i :: 0 <= i < |s| ==> s[i].id in rows && rows[s[i].id] == s[i] && p(s[i]))
    && (forall id <- rows :: p(rows[id]) ==> rows[id] in s)
  }

  ghost predicate IsFindAnswer(bucket: Bucket, p: Cache -> bool, a: Answer) {
    match Decode(bucket)
    case None => a == Undecodable
    case Some(rows) => a.Rows? && Lists(rows, p, a.rows)
  }

  ghost predicate Within(s: seq<Cache>, t: seq<Cache>) {
    forall c :: c in s ==> c in t
  }

  /** Dropping the last row of one ascending list keeps its rows inside the other, shortened likewise. */
  lemma InitWithin(s: seq<Cache>, t: seq<Cache>)
    requires |s| > 0 && |t| > 0 && AscendingIds(s)
    requires s[|s| - 1] == t[|t| - 1]
    requires Within(s, t)
    ensures Within(s[..|s| - 1], t[..|t| - 1])
  {
    var init := s[..|s| - 1];
    forall c | c in init ensures c in t[..|t| - 1] {
      assert c in s;
      var k :| 0 <= k < |t| && t[k] == c;
      assert t[..|t| - 1][k] == c;
    }
  }

  lemma LastSame(s: seq<Cache>, t: seq<Cache>)
    requires |s| > 0 && |t| > 0 && AscendingIds(s) && AscendingIds(t)
    requires Within(s, t) && Within(t, s)
    ensures s[|s| - 1] == t[|t| - 1]
  {
    assert s[|s| - 1] in t && t[|t| - 1] in s;
  }

  lemma {:induction false} SameMembers(s: seq<Cache>, t: seq<Cache>)
    requires AscendingIds(s) && AscendingIds(t)
    requires Within(s, t) && Within(t, s)
    ensures s == t
    decreases |s|
  {
    assert (|s| > 0 ==> s[0] in t) && (|t| > 0 ==> t[0] in s);
    if s != [] && t != [] {
      LastSame(s, t);
      InitWithin(s, t);
      InitWithin(t, s);
      SameMembers(s[..|s| - 1], t[..|t| - 1]);
      assert s == s[..|s| - 1] + [s[|s| - 1]] && t == t[..|t| - 1] + [t[|t| - 1]];
    }
  }

  /** There is one listing only, so a find has exactly one right answer. */
  lemma ListsUnique(rows: map<nat, Cache>, p: Cache -> bool, s: seq<Cache>, t: seq<Cache>)
    requires Lists(rows, p, s) && Lists(rows, p, t)
    ensures s == t
  {
    SameMembers(s, t);
  }

  function Insert(s: seq<Cache>, k: nat, c: Cache): (t: seq<Cache>)
    requires k <= |s|
    ensures |t| == |s| + 1 && t[k] == c
    ensures forall i :: 0 <= i < k ==> t[i] == s[i]
    ensures forall i :: k < i < |t| ==> t[i] == s[i - 1]
    ensures forall x :: x in t <==> x == c || x in s
  {
    assert s == s[..k] + s[k..];
    s[..k] + [c] + s[k..]
  }

  lemma InsertAscends(s: seq<Cache>, c: Cache, k: nat)
    requires AscendingIds(s) && k <= |s|
    requires forall i :: 0 <= i < k ==> s[i].id < c.id
    requires forall i :: k <= i < |s| ==> c.id < s[i].id
    ensures AscendingIds(Insert(s, k, c))
  {
    var t := Insert(s, k, c);
    forall i, j | 0 <= i < j < |t| ensures t[i].id < t[j].id {
      if i != k && j != k {
        var i', j' := if i < k then i else i - 1, if j < k then j else j - 1;
        assert s[i'].id < s[j'].id;
      }
    }
  }

  /** One more matching row, put where its id belongs, extends a listing. */
  lemma InsertLists(rows: map<nat, Cache>, p: Cache -> bool, s: seq<Cache>, c: Cache, k: nat)
    requires Lists(rows, p, s) && c.id !in rows && p(c)
    requires k <= |s| && (forall i :: 0 <= i < k ==> s[i].id < c.id) && (k < |s| ==> c.id <= s[k].id)
    ensures Lists(rows[c.id := c], p, Insert(s, k, c))
  {
    forall i | k <= i < |s| ensures c.id < s[i].id {
      assert s[i] in s && s[k] in s;
    }
    InsertAscends(s, c, k);
    var t, more := Insert(s, k, c), rows[c.id := c];
    forall i | 0 <= i < |t| ensures t[i].id in more && more[t[i].id] == t[i] && p(t[i]) {
      assert t[i] in t;
      if t[i] != c {
        var j :| 0 <= j < |s| && s[j] == t[i];
      }
    }
    forall id <- more | p(more[id]) ensures more[id] in t {
      assert id != c.id ==> rows[id] in s;
    }
  }

  /** How many rows of an ascending list come before `id`. */
  function Position(rows: seq<Cache>, id: nat): (k: nat)
    ensures k <= |rows|
    ensures forall i :: 0 <= i < k ==> rows[i].id < id
    ensures k < |rows| ==> id <= rows[k].id
  {
    if rows == [] || id <= rows[0].id then 0 else 1 + Position(rows[1..], id)
  }

  /** Ranges over the rows in any order and files the matching ones by id. */
  method ListRows(rows: map<nat, Cache>, p: Cache -> bool) returns (s: seq<Cache>)
    requires Keyed(rows)
    ensures Lists(rows, p, s)
  {
    s := [];
    var ids := rows.Keys;
    while ids != {}
      invariant ids <= rows.Keys
      invariant Lists(rows - ids, p, s)
      decreases ids
    {
      var id :| id in ids;
      var c := rows[id];
      if p(c) {
        var k := Position(s, id);
        InsertLists(rows - ids, p, s, c, k);
        s := Insert(s, k, c);
      }
      assert rows - (ids - {id}) == (rows - ids)[id := c];
      ids := ids - {id};
    }
    assert rows - ids == rows;
  }

  // ---- the heap ----

  /** What a Go `*Cache` points at. */
  class Entry {
    var row: Cache
    constructor (row: Cache)
      ensures this.row == row
    {
      this.row := row;
    }
  }

  ghost predicate Holds(entries: seq<Entry>, rows: seq<Cache>)
    reads entries
  {
    |entries| == |rows| && forall i :: 0 <= i < |rows| ==> entries[i].row == rows[i]
  }

  method CopyAll(rows: seq<Cache>) returns (entries: seq<Entry>)
    ensures Holds(entries, rows)
    ensures forall e <- entries :: fresh(e)
  {
    entries := [];
    for i := 0 to |rows|
      invariant |entries| == i && forall j :: 0 <= j < i ==> entries[j].row == rows[j]
      invariant forall e <- entries :: fresh(e)
    {
      var copied := new Entry(rows[i]);
      entries := entries + [copied];
    }
  }

  /** Decodes every row into an entry of its own; one corrupt row and nothing is decoded. */
  method DecodeAll(bucket: Bucket) returns (entries: Option<map<nat, Entry>>)
    ensures entries.Some? <==> Decode(bucket).Some?
    ensures entries.Some? ==> entries.value.Keys == bucket.Keys
    ensures entries.Some? ==> forall id <- entries.value :: fresh(entries.value[id]) && entries.value[id].row == Decode(bucket).value[id]
  {
    var decoded: map<nat, Entry> := map[];
    var keys := bucket.Keys;
    while keys != {}
      invariant keys <= bucket.Keys
      invariant decoded.Keys == bucket.Keys - keys
      invariant forall id <- decoded :: fresh(decoded[id])
      invariant forall id <- decoded :: bucket[id].Encoded? && decoded[id].row == bucket[id].row.(id := id)
      decreases keys
    {
      var id :| id in keys;
      if bucket[id].Corrupt? {
        return None;
      }
      var entry := new Entry(bucket[id].row.(id := id));
      decoded := decoded[id := entry];
      keys := keys - {id};
    }
    return Some(decoded);
  }

  /** The bolt file: the committed bucket and the id of the transaction that committed it. */
  class Bolt {
    var txid: nat
    var bucket: Bucket
    var legacyIndexes: bool

    /** Another process commits; ids only grow, and one it took may be one rolled back here. */
    method OtherProcessCommits(bucket: Bucket)
      modifies this
      ensures this.bucket == bucket && txid > old(txid)
    {
      var next :| next > txid;
      txid := next;
      this.bucket := bucket;
    }
  }

  datatype Write = Put(row: Cache) | Delete(id: nat)

  function Apply(bucket: Bucket, w: Write): Bucket {
    match w
    case Put(row) => bucket[row.id := Encoded(row)]
    case Delete(id) => bucket - {id}
  }

  function ApplyAll(bucket: Bucket, writes: seq<Write>): Bucket {
    if writes == [] then bucket
    else Apply(ApplyAll(bucket, writes[..|writes| - 1]), writes[|writes| - 1])
  }

  datatype Op =
    | DoGet(id: nat)
    | DoFind(p: Cache -> bool)
    | DoUpdate(writes: seq<Write>, commit: bool)
    | DoSave(row: Cache, commit: bool)
    | DoDropIndexes(commit: bool)
    | OtherCommits(bucket: Bucket)
    | CallerOverwrites(row: Cache)

  /** What a step does to the bucket, with no mirror in sight. */
  function StepBucket(bucket: Bucket, op: Op): Bucket {
    match op
    case DoUpdate(writes, commit) => if commit then ApplyAll(bucket, writes) else bucket
    case DoSave(row, commit) => if commit && row.id in bucket then Apply(bucket, Put(row)) else bucket
    case OtherCommits(other) => other
    case _ => bucket
  }

  function BucketAfter(bucket: Bucket, ops: seq<Op>): Bucket {
    if ops == [] then bucket
    else StepBucket(BucketAfter(bucket, ops[..|ops| - 1]), ops[|ops| - 1])
  }

  ghost predicate IsAnswer(bucket: Bucket, op: Op, a: Answer) {
    match op
    case DoGet(id) => a == GetAnswer(bucket, id)
    case DoFind(p) => IsFindAnswer(bucket, p, a)
    case DoUpdate(_, commit) => a == Written(commit)
    case DoSave(row, commit) => a == Written(commit && row.id in bucket)
    case _ => a == Written(true)
  }

  /** A bucket decodes as a whole or not at all, each row as it was stored but under the id of its key. */
  lemma {:induction false} DecodesAsStored(bucket: Bucket)
    ensures Decode(bucket).None? <==> exists id <- bucket :: bucket[id].Corrupt?
    ensures Decode(bucket).Some? ==> Decode(bucket).value.Keys == bucket.Keys
    ensures Decode(bucket).Some? ==> forall id <- bucket ::
              bucket[id].Encoded? && Decode(bucket).value[id] == bucket[id].row.(id := Decode(bucket).value[id].id) && Decode(bucket).value[id].id == id
  {
  }

  /** A row put is the one got, a row deleted is not found, and no other answer changes. */
  lemma {:induction false} ReadsWhatWasWritten(bucket: Bucket, row: Cache, id: nat)
    requires Decode(bucket).Some?
    ensures GetAnswer(Apply(bucket, Put(row)), row.id) == Row(row) && GetAnswer(Apply(bucket, Delete(id)), id) == NotFound
    ensures forall other :: other != row.id ==> GetAnswer(Apply(bucket, Put(row)), other) == GetAnswer(bucket, other)
    ensures forall other :: other != id ==> GetAnswer(Apply(bucket, Delete(id)), other) == GetAnswer(bucket, other)
  {
  }

  /** Saving brings no row back: it rewrites one that is there, or changes nothing. */
  lemma {:induction false} SavingAddsNone(bucket: Bucket, row: Cache, commit: bool)
    ensures StepBucket(bucket, DoSave(row, commit)).Keys == bucket.Keys
    ensures commit && row.id in bucket && Decode(bucket).Some? ==> GetAnswer(StepBucket(bucket, DoSave(row, commit)), row.id) == Row(row)
    ensures !commit || row.id !in bucket ==> StepBucket(bucket, DoSave(row, commit)) == bucket
  {
  }

  /** A run has one possible log of answers: the mirror cannot be told from decoding afresh. */
  lemma AnswersDetermined(bucket: Bucket, op: Op, a: Answer, b: Answer)
    requires IsAnswer(bucket, op, a) && IsAnswer(bucket, op, b)
    ensures a == b
  {
    if op.DoFind? && Decode(bucket).Some? {
      ListsUnique(Decode(bucket).value, op.p, a.rows, b.rows);
    }
  }

  /** Each answer so far is the one decoding the bucket at that moment gives. */
  ghost predicate Faithful(bucket: Bucket, ops: seq<Op>, answers: seq<Answer>) {
    && |answers| <= |ops|
    && forall i :: 0 <= i < |answers| ==> IsAnswer(BucketAfter(bucket, ops[..i]), ops[i], answers[i])
  }

  lemma {:induction false} FaithfulStep(bucket: Bucket, ops: seq<Op>, answers: seq<Answer>, a: Answer)
    requires Faithful(bucket, ops, answers) && |answers| < |ops|
    requires IsAnswer(BucketAfter(bucket, ops[..|answers|]), ops[|answers|], a)
    ensures Faithful(bucket, ops, answers + [a])
  {
    var more := answers + [a];
    forall i | 0 <= i < |more| ensures IsAnswer(BucketAfter(bucket, ops[..i]), ops[i], more[i]) {
      assert i < |answers| ==> more[i] == answers[i];
    }
  }

  lemma {:induction false} BucketStep(bucket: Bucket, ops: seq<Op>, i: nat)
    requires i < |ops|
    ensures BucketAfter(bucket, ops[..i + 1]) == StepBucket(BucketAfter(bucket, ops[..i]), ops[i])
  {
    assert ops[..i + 1][..i] == ops[..i];
  }

  class CacheDB {
    const bolt: Bolt
    var tx: int
    var byID: Option<map<nat, Entry>>
    var pending: Option<Bucket>   // the bucket inside the running write transaction
    var handed: set<Entry>        // entries some caller holds and may overwrite at any time

    ghost predicate Agrees(bucket: Bucket)
      requires byID.Some?
      reads this, Mirrored()
    {
      match Decode(bucket)
      case None => false
      case Some(rows) => rows.Keys == byID.value.Keys && forall id <- rows :: byID.value[id].row == rows[id]
    }

    function Mirrored(): set<Entry>
      reads this
    {
      if byID.Some? then set id | id in byID.value :: byID.value[id] else {}
    }

    /** Between transactions. */
    ghost predicate Valid()
      reads this, bolt, Mirrored()
    {
      && pending.None?
      && Mirrored() !! handed
      && (byID.Some? ==> tx <= bolt.txid && (tx == bolt.txid ==> Agrees(bolt.bucket)))
    }

    /** Inside a write transaction. */
    ghost predicate Writing()
      reads this, bolt, Mirrored()
    {
      && pending.Some?
      && Mirrored() !! handed
      && tx == bolt.txid + 1
      && (byID.Some? ==> Agrees(pending.value))
    }

    /** The mirror answers without decoding anything. */
    predicate Current()
      reads this, bolt
    {
      byID.Some? && tx == bolt.txid
    }

    constructor (bolt: Bolt)
      ensures Valid() && this.bolt == bolt && handed == {}
    {
      this.bolt := bolt;
      tx, byID, pending, handed := 0, None, None, {};
    }

    method Load() returns (ok: bool)
      requires Valid()
      modifies this`tx, this`byID
      ensures Valid()
      ensures ok <==> Decode(bolt.bucket).Some? || old(Current())
      ensures ok ==> Current() && Agrees(bolt.bucket)
      ensures old(Current()) ==> byID == old(byID) && tx == old(tx)
      ensures !ok ==> byID == old(byID) && tx == old(tx)
      ensures fresh(Mirrored() - old(Mirrored()))
    {
      if byID.Some? && tx == bolt.txid {
        return true;
      }
      var decoded := DecodeAll(bolt.bucket);
      if decoded.None? {
        return false;
      }
      byID, tx := decoded, bolt.txid;
      return true;
    }

    method Get(id: nat) returns (found: bool, entry: Entry?, ghost answer: Answer)
      requires Valid()
      modifies this`tx, this`byID, this`handed
      ensures Valid()
      ensures answer == GetAnswer(bolt.bucket, id)
      ensures found <==> entry != null
      ensures entry != null <==> answer.Row?
      ensures entry != null ==> fresh(entry) && entry in handed && entry.row == answer.row
      ensures handed == old(handed) + (if entry != null then {entry} else {})
      ensures old(Current()) ==> byID == old(byID) && tx == old(tx)
    {
      answer := GetAnswer(bolt.bucket, id);
      var ok := Load();
      if !ok || id !in byID.value {
        return false, null, answer;
      }
      entry := new Entry(byID.value[id].row);
      handed := handed + {entry};
      found := true;
    }

    method Matching(p: Cache -> bool) returns (listed: seq<Cache>)
      requires byID.Some? && Agrees(bolt.bucket)
      ensures Lists(Decode(bolt.bucket).value, p, listed)
    {
      var rows := map id | id in byID.value :: byID.value[id].row;
      assert rows == Decode(bolt.bucket).value;
      listed := ListRows(rows, p);
    }

    method HandOut(rows: seq<Cache>) returns (entries: seq<Entry>)
      requires Valid()
      modifies this`handed
      ensures Valid() && Holds(entries, rows)
      ensures forall e <- entries :: fresh(e)
      ensures handed == old(handed) + (set e | e in entries)
    {
      entries := CopyAll(rows);
      handed := handed + (set e | e in entries);
    }

    /** Copies of the matching rows, in id order. */
    method Find(p: Cache -> bool) returns (ok: bool, entries: seq<Entry>, ghost found: seq<Cache>)
      requires Valid()
      modifies this`tx, this`byID, this`handed
      ensures Valid()
      ensures ok <==> Decode(bolt.bucket).Some?
      ensures ok ==> Lists(Decode(bolt.bucket).value, p, found) && Holds(entries, found)
      ensures forall e <- entries :: fresh(e)
      ensures handed == old(handed) + (set e | e in entries)
      ensures old(Current()) ==> byID == old(byID) && tx == old(tx)
    {
      entries, found := [], [];
      ok := Load();
      if !ok {
        return;
      }
      var listed := Matching(p);
      found := listed;
      entries := HandOut(listed);
    }

    /** The start of a write transaction. */
    method BeginUpdate()
      requires Valid()
      modifies this`tx, this`byID, this`pending
      ensures Writing() && pending == Some(bolt.bucket)
      ensures old(Current()) ==> byID == old(byID)
      ensures Mirrored() <= old(Mirrored())
    {
      if tx != bolt.txid {
        byID := None;
      }
      tx := bolt.txid + 1;
      pending := Some(bolt.bucket);
    }

    method PutRow(entry: Entry)
      requires Writing()
      modifies this`byID, this`pending, this`handed
      ensures Writing() && pending == Some(Apply(old(pending.value), Put(entry.row)))
      ensures handed == old(handed) + {entry}
      ensures byID.Some? <==> old(byID.Some?)
    {
      if byID.Some? {
        var copied := new Entry(entry.row);
        byID := Some(byID.value[entry.row.id := copied]);
      }
      pending := Some(pending.value[entry.row.id := Encoded(entry.row)]);
      handed := handed + {entry};
    }

    method DeleteRow(id: nat)
      requires Writing()
      modifies this`byID, this`pending
      ensures Writing() && pending == Some(Apply(old(pending.value), Delete(id)))
      ensures byID.Some? <==> old(byID.Some?)
      ensures Mirrored() <= old(Mirrored())
    {
      if byID.Some? {
        byID := Some(byID.value - {id});
      }
      pending := Some(pending.value - {id});
    }

    /** The end of a write transaction: it commits, or it rolls back and the mirror is dropped. */
    method EndUpdate(commit: bool)
      requires Writing()
      modifies this`byID, this`pending, bolt
      ensures Valid()
      ensures bolt.bucket == (if commit then old(pending.value) else old(bolt.bucket))
      ensures bolt.txid == (if commit then old(bolt.txid) + 1 else old(bolt.txid))
      ensures commit && old(byID.Some?) ==> Current()
      ensures Mirrored() <= old(Mirrored())
    {
      if commit {
        bolt.bucket, bolt.txid := pending.value, bolt.txid + 1;
      } else {
        byID := None;
      }
      pending := None;
    }

    method Update(writes: seq<Write>, commit: bool)
      requires Valid()
      modifies this, bolt
      ensures Valid()
      ensures bolt.bucket == (if commit then ApplyAll(old(bolt.bucket), writes) else old(bolt.bucket))
      ensures old(Current()) && commit ==> Current()
      ensures handed >= old(handed) && fresh(handed - old(handed))
    {
      BeginUpdate();
      for i := 0 to |writes|
        invariant Writing() && pending == Some(ApplyAll(old(bolt.bucket), writes[..i]))
        invariant old(Current()) ==> byID.Some?
        invariant bolt.bucket == old(bolt.bucket) && bolt.txid == old(bolt.txid)
        invariant handed >= old(handed) && fresh(handed - old(handed))
      {
        assert writes[..i + 1][..i] == writes[..i];
        match writes[i] {
          case Put(row) =>
            var mine := new Entry(row);
            PutRow(mine);
          case Delete(id) =>
            DeleteRow(id);
        }
      }
      assert writes[..|writes|] == writes;
      EndUpdate(commit);
    }

    /** Rewrites a stored row; once it is gone the transaction rolls back. */
    method Save(entry: Entry, commit: bool) returns (ok: bool)
      requires Valid()
      modifies this, bolt
      ensures Valid()
      ensures ok <==> commit && entry.row.id in old(bolt.bucket)
      ensures bolt.bucket == (if ok then Apply(old(bolt.bucket), Put(entry.row)) else old(bolt.bucket))
      ensures handed <= old(handed) + {entry} && handed >= old(handed)
      ensures old(Current()) && ok ==> Current()
    {
      BeginUpdate();
      ok := entry.row.id in pending.value && commit;
      if entry.row.id in pending.value {
        PutRow(entry);
      }
      EndUpdate(ok);
    }

    /** Drops the index buckets of older versions, a commit the mirror does not take part in. */
    method DropLegacyIndexes(commit: bool) returns (ok: bool)
      requires Valid()
      modifies bolt
      ensures Valid()
      ensures bolt.bucket == old(bolt.bucket)
      ensures ok <==> !old(bolt.legacyIndexes) || commit
      ensures ok ==> !bolt.legacyIndexes
    {
      if !bolt.legacyIndexes {
        return true;
      }
      if commit {
        bolt.legacyIndexes, bolt.txid := false, bolt.txid + 1;
      }
      ok := commit;
    }

    /** One step of a run, by this process, by another one, or by a caller holding an entry. */
    method Perform(op: Op) returns (a: Answer)
      requires Valid()
      modifies this, bolt, handed
      ensures Valid()
      ensures bolt.bucket == StepBucket(old(bolt.bucket), op)
      ensures IsAnswer(old(bolt.bucket), op, a)
      ensures handed >= old(handed) && fresh(handed - old(handed))
    {
      match op {
        case DoGet(id) =>
          var found, entry, answer := Get(id);
          if entry != null {
            a := Row(entry.row);
          } else {
            var decodable := forall k <- bolt.bucket :: bolt.bucket[k].Encoded?;
            a := if decodable then NotFound else Undecodable;
          }
        case DoFind(p) =>
          var ok, entries, found := Find(p);
          if ok {
            a := Rows(seq(|entries|, i requires 0 <= i < |entries| reads entries => entries[i].row));
            assert a.rows == found;
          } else {
            a := Undecodable;
          }
        case DoUpdate(writes, commit) =>
          Update(writes, commit);
          a := Written(commit);
        case DoSave(row, commit) =>
          var mine := new Entry(row);
          var ok := Save(mine, commit);
          a := Written(ok);
        case DoDropIndexes(commit) =>
          var ok := DropLegacyIndexes(commit);
          a := Written(true);
        case OtherCommits(bucket) =>
          bolt.OtherProcessCommits(bucket);
          a := Written(true);
        case CallerOverwrites(row) =>
          if handed != {} {
            var entry :| entry in handed;
            entry.row := row;
          }
          a := Written(true);
      }
    }

    /** Over a whole run every answer is the one decoding the bucket at that moment gives. */
    method Run(ops: seq<Op>) returns (answers: seq<Answer>)
      requires Valid()
      modifies this, bolt, handed
      ensures Valid()
      ensures bolt.bucket == BucketAfter(old(bolt.bucket), ops)
      ensures |answers| == |ops| && Faithful(old(bolt.bucket), ops, answers)
    {
      answers := [];
      for i := 0 to |ops|
        invariant Valid() && |answers| == i
        invariant bolt.bucket == BucketAfter(old(bolt.bucket), ops[..i])
        invariant handed >= old(handed) && fresh(handed - old(handed))
        invariant Faithful(old(bolt.bucket), ops, answers)
      {
        var a := Perform(ops[i]);
        FaithfulStep(old(bolt.bucket), ops, answers, a);
        BucketStep(old(bolt.bucket), ops, i);
        answers := answers + [a];
      }
      assert ops[..|ops|] == ops;
    }
  }
}
