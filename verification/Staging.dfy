/**
  The staging directory of an upload.  Parts are files named by their offset, blocks are
  files named by a digest of their id until a block list puts them in order, and a commit
  appends the parts in name order into the blob.
 */
module Staging {
  import opened Options
  import opened Names

  newtype byte = x: int | 0 <= x < 256
  type Bytes = seq<byte>

  /** What a staged file holds: uploaded bytes, or the block list recorded by an earlier ordering. */
  datatype File = Data(bytes: Bytes) | BlockList(ids: seq<string>)

  type Directory = map<string, File>

  const BLOCK_PREFIX: string := "block-"
  const LIST_NAME: string := "block-list"

  predicate IsPart(name: string) {
    !(BLOCK_PREFIX <= name)
  }

  function PartName(offset: nat): string {
    Hex(offset, WIDTH)
  }

  /** What an upload has staged so far, without file names. */
  datatype Staged = Staged(parts: map<nat, Bytes>, blocks: map<string, Bytes>, list: Option<seq<string>>)

  const NOTHING: Staged := Staged(map[], map[], None)

  // ---- what a commit must produce ----

  ghost predicate AscendingOffsets(offsets: seq<nat>) {
    forall i, j :: 0 <= i < j < |offsets| ==> offsets[i] < offsets[j]
  }

  ghost predicate Enumerates(offsets: seq<nat>, parts: map<nat, Bytes>) {
    AscendingOffsets(offsets) && forall o :: o in offsets <==> o in parts
  }

  function Joined(parts: map<nat, Bytes>, offsets: seq<nat>): Bytes
    requires forall o <- offsets :: o in parts
  {
    if offsets == [] then [] else Joined(parts, offsets[..|offsets| - 1]) + parts[offsets[|offsets| - 1]]
  }

  /** The parts one after the other, in numeric order of their offsets. */
  ghost predicate InOffsetOrder(parts: map<nat, Bytes>, blob: Bytes) {
    exists offsets :: Enumerates(offsets, parts) && blob == Joined(parts, offsets)
  }

  /** The listed blocks one after the other, in list order. */
  function Concatenated(blocks: map<string, Bytes>, ids: seq<string>): Bytes
    requires forall i :: 0 <= i < |ids| ==> ids[i] in blocks
  {
    if ids == [] then [] else Concatenated(blocks, ids[..|ids| - 1]) + blocks[ids[|ids| - 1]]
  }

  /** One after the other, from the first on. */
  lemma {:induction false} JoinedInTurn(parts: map<nat, Bytes>, a: seq<nat>, b: seq<nat>)
    requires (forall o <- a :: o in parts) && forall o <- b :: o in parts
    ensures forall o <- a + b :: o in parts
    ensures Joined(parts, a + b) == Joined(parts, a) + Joined(parts, b)
    ensures forall o <- parts :: Joined(parts, [o]) == parts[o]
  {
    forall o <- parts ensures Joined(parts, [o]) == parts[o] {
      assert [o][..0] == [] && [] + parts[o] == parts[o];
    }
    if b == [] {
      assert a + b == a && Joined(parts, a) + [] == Joined(parts, a);
    } else {
      var init, o := b[..|b| - 1], b[|b| - 1];
      assert (a + b)[..|a + b| - 1] == a + init && (a + b)[|a + b| - 1] == o;
      JoinedInTurn(parts, a, init);
      assert Joined(parts, a) + Joined(parts, init) + parts[o] == Joined(parts, a) + (Joined(parts, init) + parts[o]);
    }
  }

  lemma {:induction false} ConcatenatedInTurn(blocks: map<string, Bytes>, a: seq<string>, b: seq<string>)
    requires (forall i :: 0 <= i < |a| ==> a[i] in blocks) && forall i :: 0 <= i < |b| ==> b[i] in blocks
    ensures forall i :: 0 <= i < |a + b| ==> (a + b)[i] in blocks
    ensures Concatenated(blocks, a + b) == Concatenated(blocks, a) + Concatenated(blocks, b)
    ensures forall id <- blocks :: Concatenated(blocks, [id]) == blocks[id]
  {
    forall id <- blocks ensures Concatenated(blocks, [id]) == blocks[id] {
      assert [id][..0] == [] && [] + blocks[id] == blocks[id];
    }
    if b == [] {
      assert a + b == a && Concatenated(blocks, a) + [] == Concatenated(blocks, a);
    } else {
      var init, id := b[..|b| - 1], b[|b| - 1];
      assert (a + b)[..|a + b| - 1] == a + init && (a + b)[|a + b| - 1] == id;
      ConcatenatedInTurn(blocks, a, init);
      assert Concatenated(blocks, a) + Concatenated(blocks, init) + blocks[id] == Concatenated(blocks, a) + (Concatenated(blocks, init) + blocks[id]);
    }
  }

  /** The parts that ordering the first `n` listed blocks makes. */
  function OrderedParts(blocks: map<string, Bytes>, ids: seq<string>, n: nat): map<nat, Bytes>
    requires n <= |ids| && forall i :: 0 <= i < n ==> ids[i] in blocks
  {
    map i: nat | i < n :: blocks[ids[i]]
  }

  lemma {:induction false} LastOffset(parts: map<nat, Bytes>, a: seq<nat>, b: seq<nat>)
    requires Enumerates(a, parts) && Enumerates(b, parts) && |a| > 0 && |b| > 0
    ensures a[|a| - 1] == b[|b| - 1]
  {
    assert a[|a| - 1] in b && b[|b| - 1] in a;
  }

  lemma {:induction false} WithoutLast(parts: map<nat, Bytes>, a: seq<nat>)
    requires Enumerates(a, parts) && |a| > 0
    ensures Enumerates(a[..|a| - 1], parts - {a[|a| - 1]})
  {
    var init, x := a[..|a| - 1], a[|a| - 1];
    assert a == init + [x];
    forall o ensures o in init <==> o in parts - {x} {
      assert o in a <==> o in parts;
    }
  }

  lemma {:induction false} SameOnceLastIsBack(a: seq<nat>, b: seq<nat>)
    requires |a| > 0 && |b| > 0 && a[|a| - 1] == b[|b| - 1] && a[..|a| - 1] == b[..|b| - 1]
    ensures a == b
  {
    assert a == a[..|a| - 1] + [a[|a| - 1]] && b == b[..|b| - 1] + [b[|b| - 1]];
  }

  lemma {:induction false} BothEmpty(parts: map<nat, Bytes>, a: seq<nat>, b: seq<nat>)
    requires Enumerates(a, parts) && Enumerates(b, parts)
    ensures a == [] <==> b == []
  {
    assert (|a| > 0 ==> a[0] in b) && (|b| > 0 ==> b[0] in a);
  }

  lemma {:induction false} EnumerationUnique(parts: map<nat, Bytes>, a: seq<nat>, b: seq<nat>)
    requires Enumerates(a, parts) && Enumerates(b, parts)
    ensures a == b
    decreases |a|
  {
    BothEmpty(parts, a, b);
    if a != [] {
      LastOffset(parts, a, b);
      WithoutLast(parts, a);
      WithoutLast(parts, b);
      EnumerationUnique(parts - {a[|a| - 1]}, a[..|a| - 1], b[..|b| - 1]);
      SameOnceLastIsBack(a, b);
    }
  }

  /** Committing has one possible outcome. */
  lemma OffsetOrderUnique(parts: map<nat, Bytes>, x: Bytes, y: Bytes)
    requires InOffsetOrder(parts, x) && InOffsetOrder(parts, y)
    ensures x == y
  {
    var a :| Enumerates(a, parts) && x == Joined(parts, a);
    var b :| Enumerates(b, parts) && y == Joined(parts, b);
    EnumerationUnique(parts, a, b);
  }

  function UpTo(n: nat): (s: seq<nat>)
    ensures |s| == n && forall i :: 0 <= i < n ==> s[i] == i
  {
    if n == 0 then [] else UpTo(n - 1) + [n - 1]
  }

  lemma {:induction false} JoinedIsConcatenated(blocks: map<string, Bytes>, ids: seq<string>, parts: map<nat, Bytes>, n: nat)
    requires n <= |ids| && forall i :: 0 <= i < n ==> ids[i] in blocks && i in parts && parts[i] == blocks[ids[i]]
    ensures Joined(parts, UpTo(n)) == Concatenated(blocks, ids[..n])
  {
    if n > 0 {
      JoinedIsConcatenated(blocks, ids, parts, n - 1);
      assert UpTo(n)[..n - 1] == UpTo(n - 1);
      assert ids[..n][..n - 1] == ids[..n - 1];
    }
  }

  lemma {:induction false} UpToEnumerates(blocks: map<string, Bytes>, ids: seq<string>)
    requires forall i :: 0 <= i < |ids| ==> ids[i] in blocks
    ensures Enumerates(UpTo(|ids|), OrderedParts(blocks, ids, |ids|))
  {
    var all := UpTo(|ids|);
    forall o: nat | o < |ids| ensures o in all { assert all[o] == o; }
  }

  /** Offset order over ordered blocks is list order. */
  lemma {:induction false} OrderedPartsInListOrder(blocks: map<string, Bytes>, ids: seq<string>, blob: Bytes)
    requires forall i :: 0 <= i < |ids| ==> ids[i] in blocks
    requires InOffsetOrder(OrderedParts(blocks, ids, |ids|), blob)
    ensures blob == Concatenated(blocks, ids)
  {
    var parts := OrderedParts(blocks, ids, |ids|);
    var offsets :| Enumerates(offsets, parts) && blob == Joined(parts, offsets);
    UpToEnumerates(blocks, ids);
    EnumerationUnique(parts, offsets, UpTo(|ids|));
    JoinedIsConcatenated(blocks, ids, parts, |ids|);
    assert ids[..|ids|] == ids;
  }

  // ---- how a directory holds what is staged ----

  const MAX_OFFSET: nat := 0x8000_0000_0000_0000   // offsets are 64-bit and not negative

  type Digest = string -> string

  function BlockName(digest: Digest, b: string): string {
    BLOCK_PREFIX + digest(b)
  }

  /** SHA-256 in hexadecimal, taken to be free of collisions. */
  ghost predicate Collisionless(digest: Digest) {
    (forall b :: digest(b) != "list") && forall a, b :: digest(a) == digest(b) ==> a == b
  }

  lemma {:induction false} WideEnough()
    ensures MAX_OFFSET <= Pow16(WIDTH)
  {
    assert Pow16(4) == 0x1_0000;
    assert Pow16(8) == 0x1_0000_0000 by { assert Pow16(6) == 0x100_0000; }
    assert Pow16(12) == 0x1_0000_0000_0000 by { assert Pow16(10) == 0x100_0000_0000; }
    assert Pow16(14) == 0x100_0000_0000_0000;
  }

  lemma {:induction false} PartNames(o: nat)
    requires o < MAX_OFFSET
    ensures Value(PartName(o)) == o && IsPart(PartName(o))
  {
    WideEnough();
    ValueOfHex(o, WIDTH);
    HexForm(o, WIDTH);
    HexIsPart(PartName(o));
  }

  lemma {:induction false} HexIsPart(name: string)
    requires HexDigits(name)
    ensures IsPart(name)
  {
    assert BLOCK_PREFIX[1] == 'l' && 'l' !in DIGITS;
    assert |name| > 1 ==> name[1] in DIGITS;
  }

  lemma {:induction false} BlockNames(digest: Digest, b: string)
    requires Collisionless(digest)
    ensures !IsPart(BlockName(digest, b)) && BlockName(digest, b) != LIST_NAME
    ensures forall c :: BlockName(digest, c) == BlockName(digest, b) ==> c == b
  {
    assert BlockName(digest, b)[6..] == digest(b);
    assert LIST_NAME[6..] == "list";
    forall c | BlockName(digest, c) == BlockName(digest, b) ensures c == b {
      assert BlockName(digest, c)[6..] == digest(c);
    }
  }

  /** The part files are exactly the staged parts. */
  ghost predicate PartsHeld(dir: Directory, parts: map<nat, Bytes>) {
    && (forall o <- parts :: o < MAX_OFFSET && PartName(o) in dir && dir[PartName(o)] == Data(parts[o]))
    && (forall name <- dir :: IsPart(name) ==> Value(name) in parts && name == PartName(Value(name)))
  }

  /** The block files are exactly the staged blocks. */
  ghost predicate BlocksHeld(digest: Digest, dir: Directory, blocks: map<string, Bytes>) {
    && (forall b <- blocks :: BlockName(digest, b) in dir && dir[BlockName(digest, b)] == Data(blocks[b]))
    && (forall name <- dir :: !IsPart(name) && name != LIST_NAME ==> exists b <- blocks :: name == BlockName(digest, b))
  }

  ghost predicate ListHeld(dir: Directory, list: Option<seq<string>>) {
    if list.Some? then LIST_NAME in dir && dir[LIST_NAME] == BlockList(list.value) else LIST_NAME !in dir
  }

  ghost predicate Holds(digest: Digest, dir: Directory, st: Staged) {
    PartsHeld(dir, st.parts) && BlocksHeld(digest, dir, st.blocks) && ListHeld(dir, st.list)
  }

  /** Nothing but the file `name` differs. */
  ghost predicate OnlyDiffers(dir: Directory, dir': Directory, name: string) {
    forall n :: n != name ==> (n in dir <==> n in dir') && (n in dir ==> dir[n] == dir'[n])
  }

  lemma {:induction false} PartsFrame(dir: Directory, dir': Directory, name: string, parts: map<nat, Bytes>)
    requires OnlyDiffers(dir, dir', name) && !IsPart(name) && PartsHeld(dir, parts)
    ensures PartsHeld(dir', parts)
  {
    forall o <- parts ensures PartName(o) != name { PartNames(o); }
  }

  lemma {:induction false} BlocksFrame(digest: Digest, dir: Directory, dir': Directory, name: string, blocks: map<string, Bytes>)
    requires Collisionless(digest) && OnlyDiffers(dir, dir', name) && (IsPart(name) || name == LIST_NAME)
    requires BlocksHeld(digest, dir, blocks)
    ensures BlocksHeld(digest, dir', blocks)
  {
    forall b <- blocks ensures BlockName(digest, b) != name { BlockNames(digest, b); }
  }

  lemma {:induction false} PartsPut(dir: Directory, parts: map<nat, Bytes>, o: nat, data: Bytes)
    requires PartsHeld(dir, parts) && o < MAX_OFFSET
    ensures PartsHeld(dir[PartName(o) := Data(data)], parts[o := data])
    ensures PartsHeld(dir - {PartName(o)}, parts - {o})
  {
    PartNames(o);
    forall p <- parts ensures Value(PartName(p)) == p { PartNames(p); }
  }

  lemma {:induction false} BlockPut(digest: Digest, dir: Directory, blocks: map<string, Bytes>, b: string, data: Bytes)
    requires Collisionless(digest) && BlocksHeld(digest, dir, blocks)
    ensures BlocksHeld(digest, dir[BlockName(digest, b) := Data(data)], blocks[b := data])
  {
    BlockNames(digest, b);
    forall name <- dir | !IsPart(name) && name != LIST_NAME && name != BlockName(digest, b)
      ensures exists c <- blocks[b := data] :: name == BlockName(digest, c)
    {
      var c :| c in blocks && name == BlockName(digest, c);
      assert c in blocks[b := data];
    }
  }

  lemma {:induction false} BlockDropped(digest: Digest, dir: Directory, blocks: map<string, Bytes>, b: string)
    requires Collisionless(digest) && BlocksHeld(digest, dir, blocks)
    ensures BlocksHeld(digest, dir - {BlockName(digest, b)}, blocks - {b})
  {
    BlockNames(digest, b);
    forall name <- dir | !IsPart(name) && name != LIST_NAME && name != BlockName(digest, b)
      ensures exists c <- blocks - {b} :: name == BlockName(digest, c)
    {
      var c :| c in blocks && name == BlockName(digest, c);
      assert c in blocks - {b};
    }
  }

  lemma {:induction false} PutPart(digest: Digest, dir: Directory, st: Staged, o: nat, data: Bytes)
    requires Collisionless(digest) && Holds(digest, dir, st) && o < MAX_OFFSET
    ensures Holds(digest, dir[PartName(o) := Data(data)], st.(parts := st.parts[o := data]))
  {
    PartNames(o);
    PartsPut(dir, st.parts, o, data);
    BlocksFrame(digest, dir, dir[PartName(o) := Data(data)], PartName(o), st.blocks);
  }

  lemma {:induction false} DropPart(digest: Digest, dir: Directory, st: Staged, o: nat)
    requires Collisionless(digest) && Holds(digest, dir, st) && o < MAX_OFFSET
    ensures Holds(digest, dir - {PartName(o)}, st.(parts := st.parts - {o}))
  {
    PartNames(o);
    PartsPut(dir, st.parts, o, []);
    BlocksFrame(digest, dir, dir - {PartName(o)}, PartName(o), st.blocks);
  }

  lemma {:induction false} PutBlock(digest: Digest, dir: Directory, st: Staged, b: string, data: Bytes)
    requires Collisionless(digest) && Holds(digest, dir, st)
    ensures Holds(digest, dir[BlockName(digest, b) := Data(data)], st.(blocks := st.blocks[b := data]))
  {
    BlockNames(digest, b);
    BlockPut(digest, dir, st.blocks, b, data);
    PartsFrame(dir, dir[BlockName(digest, b) := Data(data)], BlockName(digest, b), st.parts);
  }

  lemma {:induction false} DropBlock(digest: Digest, dir: Directory, st: Staged, b: string)
    requires Collisionless(digest) && Holds(digest, dir, st)
    ensures Holds(digest, dir - {BlockName(digest, b)}, st.(blocks := st.blocks - {b}))
  {
    BlockNames(digest, b);
    BlockDropped(digest, dir, st.blocks, b);
    PartsFrame(dir, dir - {BlockName(digest, b)}, BlockName(digest, b), st.parts);
  }

  lemma {:induction false} PutList(digest: Digest, dir: Directory, st: Staged, ids: seq<string>)
    requires Collisionless(digest) && Holds(digest, dir, st)
    ensures Holds(digest, dir[LIST_NAME := BlockList(ids)], st.(list := Some(ids)))
  {
    PartsFrame(dir, dir[LIST_NAME := BlockList(ids)], LIST_NAME, st.parts);
    BlocksFrame(digest, dir, dir[LIST_NAME := BlockList(ids)], LIST_NAME, st.blocks);
  }

  // ---- the storage itself ----

  /** One block given its place. */
  function Moved(st: Staged, b: string, offset: nat): Staged
    requires b in st.blocks
  {
    st.(parts := st.parts[offset := st.blocks[b]], blocks := st.blocks - {b})
  }

  /** The first `n` listed blocks moved in turn, or None when one of them is not there. */
  function MovedUpTo(st: Staged, ids: seq<string>, n: nat): Option<Staged>
    requires n <= |ids|
  {
    if n == 0 then Some(st)
    else
      var before := MovedUpTo(st, ids, n - 1);
      if before.None? || ids[n - 1] !in before.value.blocks then None
      else Some(Moved(before.value, ids[n - 1], n - 1))
  }

  lemma {:induction false} MovedNext(st: Staged, ids: seq<string>, i: nat, cur: Staged)
    requires i < |ids| && MovedUpTo(st, ids, i) == Some(cur)
    ensures MovedUpTo(st, ids, i + 1) == if ids[i] in cur.blocks then Some(Moved(cur, ids[i], i)) else None
  {
  }

  /** All listed blocks in their places, and the list recorded. */
  ghost predicate AllPlaced(st: Staged, ids: seq<string>, after: Staged) {
    MovedUpTo(st, ids, |ids|).Some? && after == MovedUpTo(st, ids, |ids|).value.(list := Some(ids))
  }

  /** The blocks before `at` in their places, and that one missing. */
  ghost predicate PlacedUpTo(st: Staged, ids: seq<string>, at: nat, after: Staged) {
    at < |ids| && MovedUpTo(st, ids, at) == Some(after) && ids[at] !in after.blocks
  }

  /** What ordering `ids` makes of an upload. */
  ghost predicate OrderingResult(st: Staged, ids: seq<string>, r: Ordering, after: Staged) {
    match r
    case Ordered => st.list.None? && AllPlaced(st, ids, after)
    case Repeated => st.list == Some(ids) && after == st
    case DifferentList => st.list.Some? && st.list != Some(ids) && after == st
    case Missing(at) => st.list.None? && PlacedUpTo(st, ids, at, after)
    case NoDirectory => ids == [] && st.list.None? && after == st
  }

  predicate Distinct(ids: seq<string>) {
    forall i, j :: 0 <= i < j < |ids| ==> ids[i] != ids[j]
  }

  lemma SameTwice(a: map<nat, Staged>, b: map<nat, Staged>, c: map<nat, Staged>, id: nat)
    requires OthersSame(a, b, id) && OthersSame(b, c, id)
    ensures OthersSame(a, c, id)
  {
  }

  /** The list is the one recorded, or can be applied: all its blocks are staged, each listed once. */
  predicate Orderable(st: Staged, ids: seq<string>) {
    st.list == Some(ids) || (st.list.None? && Distinct(ids) && forall b <- ids :: b in st.blocks)
  }

  /** Ordering returned without an error. */
  predicate Succeeded(r: Ordering) {
    r.Ordered? || r.Repeated?
  }

  /** No other upload is touched. */
  ghost predicate OthersSame(before: map<nat, Staged>, after: map<nat, Staged>, id: nat) {
    forall k :: k != id ==> (k in before <==> k in after) && (k in before ==> before[k] == after[k])
  }

  datatype Ordering = Ordered | Repeated | DifferentList | Missing(at: nat) | NoDirectory
  datatype Outcome = Written(size: int) | NothingStaged | NothingUploaded | SizeMismatch(written: int)

  /** What a commit of upload `id` makes of the blobs. */
  ghost predicate CommitResult(staged: map<nat, Staged>, blobs: map<nat, Bytes>, id: nat, size: int, r: Outcome, after: map<nat, Bytes>) {
    match r
    case NothingStaged => id !in staged && after == blobs
    case NothingUploaded => id in staged && staged[id].parts == map[] && after == blobs - {id}
    case SizeMismatch(written) =>
      && id in staged && staged[id].parts != map[] && size >= 0 && size != written && after == blobs - {id}
      && exists blob :: InOffsetOrder(staged[id].parts, blob) && |blob| == written
    case Written(written) =>
      && id in staged && staged[id].parts != map[] && (size >= 0 ==> size == written)
      && id in after && after == blobs[id := after[id]]
      && InOffsetOrder(staged[id].parts, after[id]) && |after[id]| == written
  }

  /** The directory's file names in listing order. */
  method ReadDir(dir: Directory) returns (names: seq<string>)
    ensures Listed(names) && forall n :: n in names <==> n in dir
  {
    names := [];
    var todo := dir.Keys;
    while todo != {}
      invariant Listed(names) && forall n :: n in names <==> n in dir && n !in todo
      decreases todo
    {
      var n :| n in todo;
      names := PlaceName(names, n);
      todo := todo - {n};
    }
  }

  /** The names of parts among those listed, in the same order. */
  method Parts(files: seq<string>) returns (names: seq<string>)
    requires Listed(files)
    ensures Listed(names) && forall n :: n in names <==> n in files && IsPart(n)
  {
    names := [];
    for i := 0 to |files|
      invariant forall n :: n in names <==> n in files[..i] && IsPart(n)
      invariant Listed(names)
    {
      assert files[..i + 1] == files[..i] + [files[i]];
      if IsPart(files[i]) {
        ListedNext(files, i, names);
        names := names + [files[i]];
      }
    }
    assert files[..|files|] == files;
  }

  lemma {:induction false} ListedNext(files: seq<string>, i: nat, names: seq<string>)
    requires Listed(files) && i < |files| && Listed(names) && forall n :: n in names ==> n in files[..i]
    ensures Listed(names + [files[i]])
  {
    forall k | 0 <= k < |names| ensures LexLess(names[k], files[i]) {
      assert names[k] in files[..i];
    }
  }

  function Appended(dir: Directory, names: seq<string>): Bytes
    requires forall n <- names :: n in dir && dir[n].Data?
  {
    if names == [] then [] else Appended(dir, names[..|names| - 1]) + dir[names[|names| - 1]].bytes
  }

  function Offsets(names: seq<string>): (o: seq<nat>)
    ensures |o| == |names| && forall i :: 0 <= i < |o| ==> o[i] == Value(names[i])
  {
    if names == [] then [] else Offsets(names[..|names| - 1]) + [Value(names[|names| - 1])]
  }

  /** Part names in listing order are the offsets in numeric order. */
  lemma {:induction false} NamesEnumerate(dir: Directory, parts: map<nat, Bytes>, names: seq<string>)
    requires PartsHeld(dir, parts) && Listed(names) && forall n :: n in names <==> n in dir && IsPart(n)
    ensures Enumerates(Offsets(names), parts)
    ensures forall n <- names :: n in dir && dir[n].Data? && Value(n) in parts && dir[n] == Data(parts[Value(n)])
  {
    var offsets := Offsets(names);
    forall n <- names ensures n in dir && Value(n) in parts && dir[n] == Data(parts[Value(n)]) {
      assert n == PartName(Value(n));
    }
    forall i, j | 0 <= i < j < |offsets| ensures offsets[i] < offsets[j] {
      assert names[i] in names && names[j] in names;
      HexForm(Value(names[i]), WIDTH);
      HexForm(Value(names[j]), WIDTH);
      ValueOrdered(names[i], names[j]);
    }
    forall o ensures o in offsets <==> o in parts {
      if o in parts {
        PartNames(o);
        var k :| 0 <= k < |names| && names[k] == PartName(o);
        assert offsets[k] == o;
      }
      if o in offsets {
        var k :| 0 <= k < |offsets| && offsets[k] == o;
        assert names[k] in names;
      }
    }
  }

  lemma {:induction false} AppendedIsJoined(dir: Directory, parts: map<nat, Bytes>, names: seq<string>)
    requires forall n <- names :: n in dir && dir[n].Data? && Value(n) in parts && dir[n] == Data(parts[Value(n)])
    requires forall o <- Offsets(names) :: o in parts
    ensures Appended(dir, names) == Joined(parts, Offsets(names))
  {
    if names != [] {
      var init := names[..|names| - 1];
      assert Offsets(names)[..|names| - 1] == Offsets(init);
      assert forall o <- Offsets(init) :: o in Offsets(names);
      assert names[|names| - 1] in names;
      AppendedIsJoined(dir, parts, init);
    }
  }

  class Storage {
    const digest: Digest
    var dirs: map<nat, Directory>   // the staging directories that exist
    var blobs: map<nat, Bytes>
    ghost var staged: map<nat, Staged>

    ghost predicate Valid()
      reads this
    {
      && Collisionless(digest)
      && dirs.Keys == staged.Keys
      && forall id <- dirs :: Holds(digest, dirs[id], staged[id])
    }

    ghost function StagedFor(id: nat): Staged
      reads this
    {
      if id in staged then staged[id] else NOTHING
    }

    constructor (digest: Digest)
      requires Collisionless(digest)
      ensures Valid() && this.digest == digest && dirs == map[] && blobs == map[]
    {
      this.digest, dirs, blobs, staged := digest, map[], map[], map[];
    }

    /** The directory as it is, or an empty one to create. */
    function DirFor(id: nat): (dir: Directory)
      requires Valid()
      reads this
      ensures Holds(digest, dir, StagedFor(id))
    {
      if id in dirs then dirs[id] else map[]
    }

    method Install(id: nat, dir: Directory, ghost st: Staged)
      requires Valid() && Holds(digest, dir, st)
      modifies this`dirs, this`staged
      ensures Valid() && dirs == old(dirs)[id := dir] && staged == old(staged)[id := st]
    {
      dirs, staged := dirs[id := dir], staged[id := st];
    }

    /** Stages a part; a copy that breaks off leaves no file, not even an earlier one. */
    method Write(id: nat, offset: nat, data: Bytes, copied: bool)
      requires Valid() && offset < MAX_OFFSET
      modifies this`dirs, this`staged
      ensures Valid()
      ensures var st := old(StagedFor(id));
              staged == old(staged)[id := st.(parts := if copied then st.parts[offset := data] else st.parts - {offset})]
    {
      var dir := DirFor(id);
      ghost var st := StagedFor(id);
      if copied {
        PutPart(digest, dir, st, offset, data);
        Install(id, dir[PartName(offset) := Data(data)], st.(parts := st.parts[offset := data]));
      } else {
        DropPart(digest, dir, st, offset);
        Install(id, dir - {PartName(offset)}, st.(parts := st.parts - {offset}));
      }
    }

    method WriteBlock(id: nat, blockID: string, data: Bytes, copied: bool)
      requires Valid()
      modifies this`dirs, this`staged
      ensures Valid()
      ensures var st := old(StagedFor(id));
              staged == old(staged)[id := st.(blocks := if copied then st.blocks[blockID := data] else st.blocks - {blockID})]
    {
      var dir := DirFor(id);
      ghost var st := StagedFor(id);
      if copied {
        PutBlock(digest, dir, st, blockID, data);
        Install(id, dir[BlockName(digest, blockID) := Data(data)], st.(blocks := st.blocks[blockID := data]));
      } else {
        DropBlock(digest, dir, st, blockID);
        Install(id, dir - {BlockName(digest, blockID)}, st.(blocks := st.blocks - {blockID}));
      }
    }

    /** Moves one staged block to its place in the order. */
    method Rename(id: nat, blockID: string, offset: nat) returns (ok: bool)
      requires Valid() && offset < MAX_OFFSET
      modifies this`dirs, this`staged
      ensures Valid()
      ensures ok <==> blockID in old(StagedFor(id)).blocks
      ensures ok ==> id in staged && staged[id] == Moved(old(StagedFor(id)), blockID, offset) && OthersSame(old(staged), staged, id)
      ensures !ok ==> staged == old(staged) && dirs == old(dirs)
    {
      var name := BlockName(digest, blockID);
      BlockNames(digest, blockID);
      if id !in dirs || name !in dirs[id] {
        return false;
      }
      var dir := dirs[id];
      ghost var st := staged[id];
      var file := dir[name];
      DropBlock(digest, dir, st, blockID);
      PutPart(digest, dir - {name}, st.(blocks := st.blocks - {blockID}), offset, file.bytes);
      Install(id, (dir - {name})[PartName(offset) := file], Moved(st, blockID, offset));
      return true;
    }

    /** Gives listed block `i` its place, those before it having theirs. */
    method MoveNext(id: nat, ids: seq<string>, i: nat, ghost st: Staged) returns (ok: bool)
      requires Valid() && i < |ids| < MAX_OFFSET && MovedUpTo(st, ids, i) == Some(StagedFor(id))
      modifies this`dirs, this`staged
      ensures Valid()
      ensures ok ==> id in old(staged) && id in staged && MovedUpTo(st, ids, i + 1) == Some(StagedFor(id)) && OthersSame(old(staged), staged, id)
      ensures !ok ==> ids[i] !in StagedFor(id).blocks && staged == old(staged)
    {
      MovedNext(st, ids, i, StagedFor(id));
      ok := Rename(id, ids[i], i);
    }

    /** Gives the listed blocks their places, up to the first one that is missing. */
    method MoveAll(id: nat, ids: seq<string>) returns (moved: nat)
      requires Valid() && |ids| < MAX_OFFSET
      modifies this`dirs, this`staged
      ensures Valid() && moved <= |ids|
      ensures MovedUpTo(old(StagedFor(id)), ids, moved) == Some(StagedFor(id))
      ensures moved < |ids| ==> ids[moved] !in StagedFor(id).blocks
      ensures (id in staged <==> id in old(staged)) && (moved > 0 ==> id in staged)
      ensures OthersSame(old(staged), staged, id)
    {
      ghost var st := StagedFor(id);
      for i := 0 to |ids|
        invariant Valid()
        invariant MovedUpTo(st, ids, i) == Some(StagedFor(id))
        invariant (id in staged <==> id in old(staged)) && (i > 0 ==> id in staged)
        invariant OthersSame(old(staged), staged, id)
      {
        var ok := MoveNext(id, ids, i, st);
        if !ok {
          return i;
        }
      }
      return |ids|;
    }

    /**
      Renames the listed blocks into list order.  A list already recorded is only compared;
      a block that is missing stops the pass with the ones before it already moved.
     */
    method OrderBlocks(id: nat, ids: seq<string>) returns (r: Ordering)
      requires Valid() && |ids| < MAX_OFFSET
      modifies this`dirs, this`staged
      ensures Valid()
      ensures OrderingResult(old(StagedFor(id)), ids, r, StagedFor(id)) && OthersSame(old(staged), staged, id)
      ensures r.NoDirectory? ==> id !in old(dirs)
      ensures Succeeded(r) <==> id in old(dirs) && Orderable(old(StagedFor(id)), ids)
    {
      r := Order(id, ids);
      OrderingSucceeds(old(StagedFor(id)), ids, r, StagedFor(id), id in old(dirs));
    }

    method Order(id: nat, ids: seq<string>) returns (r: Ordering)
      requires Valid() && |ids| < MAX_OFFSET
      modifies this`dirs, this`staged
      ensures Valid()
      ensures OrderingResult(old(StagedFor(id)), ids, r, StagedFor(id)) && OthersSame(old(staged), staged, id)
      ensures r.NoDirectory? ==> id !in old(dirs)
      ensures Succeeded(r) ==> id in old(dirs)
    {
      var recorded := Recorded(id);
      if recorded.Some? {
        return if recorded.value == ids then Repeated else DifferentList;
      }
      r := MoveAndRecord(id, ids);
    }

    /** The block list recorded earlier, if there is one. */
    function Recorded(id: nat): (list: Option<seq<string>>)
      requires Valid()
      reads this
      ensures list == StagedFor(id).list && (list.Some? ==> id in dirs)
    {
      if id in dirs && LIST_NAME in dirs[id] then Some(dirs[id][LIST_NAME].ids) else None
    }

    method MoveAndRecord(id: nat, ids: seq<string>) returns (r: Ordering)
      requires Valid() && |ids| < MAX_OFFSET && StagedFor(id).list.None?
      modifies this`dirs, this`staged
      ensures Valid()
      ensures r.Ordered? || r.Missing? || r.NoDirectory?
      ensures OrderingResult(old(StagedFor(id)), ids, r, StagedFor(id)) && OthersSame(old(staged), staged, id)
      ensures r.NoDirectory? ==> id !in old(dirs)
      ensures r.Ordered? ==> id in old(dirs)
    {
      ghost var st := StagedFor(id);
      var moved := MoveAll(id, ids);
      if moved < |ids| {
        r := Missing(moved);
      } else {
        ghost var all := staged;
        r := RecordMoved(id, ids, st);
        SameTwice(old(staged), all, staged, id);
      }
    }

    method RecordMoved(id: nat, ids: seq<string>, ghost st: Staged) returns (r: Ordering)
      requires Valid() && st.list.None? && MovedUpTo(st, ids, |ids|) == Some(StagedFor(id)) && (ids != [] ==> id in dirs)
      modifies this`dirs, this`staged
      ensures Valid()
      ensures r == if id in old(dirs) then Ordered else NoDirectory
      ensures OrderingResult(st, ids, r, StagedFor(id)) && OthersSame(old(staged), staged, id)
    {
      var recorded := RecordList(id, ids);
      r := if recorded then Ordered else NoDirectory;
    }

    method RecordList(id: nat, ids: seq<string>) returns (ok: bool)
      requires Valid()
      modifies this`dirs, this`staged
      ensures Valid()
      ensures ok <==> id in old(dirs)
      ensures ok ==> id in staged && staged[id] == old(StagedFor(id)).(list := Some(ids)) && OthersSame(old(staged), staged, id)
      ensures OthersSame(old(staged), staged, id)
      ensures !ok ==> staged == old(staged)
    {
      if id !in dirs {
        return false;
      }
      var dir := dirs[id];
      PutList(digest, dir, staged[id], ids);
      Install(id, dir[LIST_NAME := BlockList(ids)], staged[id].(list := Some(ids)));
      return true;
    }

    /** The part files in listing order; blocks and the recorded list are left out. */
    method TempNames(id: nat) returns (names: seq<string>)
      requires Valid() && id in dirs
      ensures Listed(names) && forall n :: n in names <==> n in dirs[id] && IsPart(n)
    {
      var files := ReadDir(dirs[id]);
      names := Parts(files);
    }

    /** Appends the parts into the first one, each removed once copied. */
    method Assemble(dir: Directory, names: seq<string>) returns (blob: Bytes)
      requires names != [] && Listed(names) && forall n <- names :: n in dir && dir[n].Data?
      ensures blob == Appended(dir, names)
    {
      blob := dir[names[0]].bytes;
      var rest := dir - {names[0]};
      assert names[..1] == [names[0]] && Appended(dir, []) == [];
      assert Appended(dir, names[..1]) == blob;
      LexIrreflexive(names[0]);
      for i := 1 to |names|
        invariant blob == Appended(dir, names[..i])
        invariant forall k :: i <= k < |names| ==> names[k] in rest && rest[names[k]] == dir[names[k]]
      {
        assert names[..i + 1][..i] == names[..i];
        blob := blob + rest[names[i]].bytes;
        forall k | i < k < |names| ensures names[k] != names[i] {
          LexIrreflexive(names[i]);
        }
        rest := rest - {names[i]};
      }
      assert names[..|names|] == names;
    }

    /** The blob the staged parts make, if there are any. */
    method AssembleAll(id: nat) returns (blob: Option<Bytes>)
      requires Valid() && id in dirs
      ensures blob.None? <==> staged[id].parts == map[]
      ensures blob.Some? ==> InOffsetOrder(staged[id].parts, blob.value)
    {
      ghost var parts := staged[id].parts;
      var names := TempNames(id);
      NamesEnumerate(dirs[id], parts, names);
      if names == [] {
        assert Offsets(names) == [];
        return None;
      }
      assert Offsets(names)[0] in parts;
      var all := Assemble(dirs[id], names);
      AppendedIsJoined(dirs[id], parts, names);
      return Some(all);
    }

    /** Assembles the blob and clears the staging directory, whatever comes of it. */
    method Commit(id: nat, size: int) returns (r: Outcome)
      requires Valid()
      modifies this
      ensures Valid() && staged == old(staged) - {id}
      ensures CommitResult(old(staged), old(blobs), id, size, r, blobs)
    {
      if id !in dirs {
        assert staged == staged - {id};
        return NothingStaged;
      }
      var blob := AssembleAll(id);
      dirs, staged := dirs - {id}, staged - {id};
      if blob.None? {
        blobs := blobs - {id};
        return NothingUploaded;
      }
      if size >= 0 && |blob.value| != size {
        blobs := blobs - {id};
        return SizeMismatch(|blob.value|);
      }
      blobs := blobs[id := blob.value];
      return Written(|blob.value|);
    }

    /** Drops the blob, then whatever is staged; a blob that cannot be unlinked leaves both. */
    method Remove(id: nat, stuck: bool) returns (ok: bool)
      requires Valid()
      modifies this
      ensures Valid() && (ok <==> !(stuck && id in old(blobs)))
      ensures ok ==> staged == old(staged) - {id} && blobs == old(blobs) - {id}
      ensures !ok ==> staged == old(staged) && blobs == old(blobs)
    {
      ok := !(stuck && id in blobs);
      if !ok {
        return;
      }
      blobs, dirs, staged := blobs - {id}, dirs - {id}, staged - {id};
    }
  }

  // ---- what staging and committing amount to ----

  function First(ids: seq<string>, n: nat): set<string>
    requires n <= |ids|
  {
    set i | 0 <= i < n :: ids[i]
  }

  lemma {:induction false} FirstNext(ids: seq<string>, n: nat)
    requires n < |ids|
    ensures First(ids, n + 1) == First(ids, n) + {ids[n]}
  {
  }

  lemma {:induction false} OneMoreOrdered(st: Staged, ids: seq<string>, n: nat)
    requires n < |ids| && forall i :: 0 <= i <= n ==> ids[i] in st.blocks
    ensures st.parts + OrderedParts(st.blocks, ids, n + 1) == (st.parts + OrderedParts(st.blocks, ids, n))[n := st.blocks[ids[n]]]
  {
  }

  /** What the first moves leave. */
  lemma {:induction false} MovesShape(st: Staged, ids: seq<string>, n: nat)
    requires n <= |ids| && MovedUpTo(st, ids, n).Some?
    ensures forall i :: 0 <= i < n ==> ids[i] in st.blocks
    ensures var after := MovedUpTo(st, ids, n).value;
            && after.list == st.list
            && after.parts == st.parts + OrderedParts(st.blocks, ids, n)
            && after.blocks == st.blocks - First(ids, n)
  {
    if n > 0 {
      MovesShape(st, ids, n - 1);
      var before, b := MovedUpTo(st, ids, n - 1).value, ids[n - 1];
      assert MovedUpTo(st, ids, n).value == Moved(before, b, n - 1);
      assert b in before.blocks && before.blocks[b] == st.blocks[b];
      OneMoreOrdered(st, ids, n - 1);
      FirstNext(ids, n - 1);
      assert (st.blocks - First(ids, n - 1)) - {b} == st.blocks - (First(ids, n - 1) + {b});
    }
  }

  /** The moves succeed exactly when the listed blocks are there, each listed once. */
  lemma {:induction false} MovesSucceed(st: Staged, ids: seq<string>, n: nat)
    requires n <= |ids|
    ensures MovedUpTo(st, ids, n).Some? <==> Distinct(ids[..n]) && forall i :: 0 <= i < n ==> ids[i] in st.blocks
  {
    if n > 0 {
      MovesSucceed(st, ids, n - 1);
      assert ids[..n][..n - 1] == ids[..n - 1] && ids[..n][n - 1] == ids[n - 1];
      if MovedUpTo(st, ids, n - 1).Some? {
        MovesShape(st, ids, n - 1);
        assert ids[n - 1] in MovedUpTo(st, ids, n - 1).value.blocks <==>
               ids[n - 1] in st.blocks && forall i :: 0 <= i < n - 1 ==> ids[i] != ids[n - 1];
        assert Distinct(ids[..n]) <==> Distinct(ids[..n - 1]) && forall i :: 0 <= i < n - 1 ==> ids[..n][i] != ids[..n][n - 1];
      } else {
        assert Distinct(ids[..n]) ==> Distinct(ids[..n - 1]);
      }
    }
  }

  /** Blocks staged in any order, then listed: the commit is the listed blocks in list order, and no others. */
  lemma {:induction false} ListedBlocksCommitted(st: Staged, ids: seq<string>, after: Staged, blob: Bytes)
    requires st.parts == map[] && OrderingResult(st, ids, Ordered, after)
    requires InOffsetOrder(after.parts, blob)
    ensures forall i :: 0 <= i < |ids| ==> ids[i] in st.blocks
    ensures blob == Concatenated(st.blocks, ids)
  {
    MovesShape(st, ids, |ids|);
    assert after.parts == OrderedParts(st.blocks, ids, |ids|);
    OrderedPartsInListOrder(st.blocks, ids, blob);
  }

  /**
    Ordering returns without an error if and only if there is a directory and the list is the one
    recorded, or none was recorded and the listed blocks are all staged, each listed once.
   */
  lemma {:induction false} OrderingSucceeds(st: Staged, ids: seq<string>, r: Ordering, after: Staged, made: bool)
    requires OrderingResult(st, ids, r, after)
    requires (!made ==> st == NOTHING) && (r.NoDirectory? ==> !made) && (Succeeded(r) ==> made)
    ensures Succeeded(r) <==> made && Orderable(st, ids)
    ensures r.Repeated? <==> st.list == Some(ids)
  {
    MovesSucceed(st, ids, |ids|);
    assert ids[..|ids|] == ids;
    if r.Missing? {
      MovesShape(st, ids, r.at);
      assert ids[r.at] in ids;
      assert ids[r.at] in st.blocks ==> ids[r.at] in First(ids, r.at);
    }
  }

  /** Once recorded, the same list changes nothing and another one is refused. */
  lemma {:induction false} OrderingTwice(st: Staged, ids: seq<string>, first: Staged, again: seq<string>, r: Ordering, second: Staged)
    requires OrderingResult(st, ids, Ordered, first) && OrderingResult(first, again, r, second)
    ensures second == first && r == if again == ids then Repeated else DifferentList
  {
  }

  /**
    A list that failed at a missing block, its first block moved already, fails again at that
    first block even after the missing one is uploaded.
   */
  lemma {:induction false} RetryAfterMissingFails(st: Staged, ids: seq<string>, at: nat, failed: Staged, data: Bytes, r: Ordering, after: Staged)
    requires OrderingResult(st, ids, Missing(at), failed) && at > 0 && ids[at] != ids[0]
    requires OrderingResult(failed.(blocks := failed.blocks[ids[at] := data]), ids, r, after)
    ensures r == Missing(0)
  {
    MovesShape(st, ids, at);
    var retry := failed.(blocks := failed.blocks[ids[at] := data]);
    assert ids[0] !in retry.blocks;
    MovesSucceed(retry, ids, |ids|);
    if r.Missing? && r.at > 0 {
      MovesSucceed(retry, ids, r.at);
    }
  }
}
