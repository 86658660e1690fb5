/** Snapshots on a git branch: an index, one blob per commit, optional manifests. */
module SnapshotStore {
  import opened Wrappers
  import opened GitTree

  datatype Meta = Meta(size: nat, createdAt: int)

  datatype Content = Snapshot(bytes: string) | Manifest(text: string) | Index(entries: map<string, Meta>)

  datatype Snap = Snap(blob: string, createdAt: int)

  datatype StoreError = NotFound(sha: string)

  // ---------------------------------------------------------------- paths

  /** What a path of the branch stands for. */
  datatype Slot = SnapSlot(sha: string) | ManifestSlot(sha: string) | IndexSlot

  function DirOf(slot: Slot): string {
    if slot.SnapSlot? then "snapshots" else "manifests"
  }

  function SuffixOf(slot: Slot): string {
    if slot.SnapSlot? then "cmsnap" else "json"
  }

  function IndexPath(): string {
    "index.json"
  }

  function PathOf(slot: Slot): string {
    if slot.IndexSlot? then IndexPath() else JoinedPath(DirOf(slot), slot.sha, SuffixOf(slot))
  }

  function JoinedPath(dir: string, name: string, suffix: string): string {
    dir + "/" + (name + "." + suffix)
  }

  /** A commit id: a file name without slash. */
  predicate PlainSha(sha: string) {
    sha != "" && '/' !in sha
  }

  predicate PlainSlot(slot: Slot) {
    !slot.IndexSlot? ==> PlainSha(slot.sha)
  }

  /** `Path(path).stem` for a path below one directory: the name up to its last dot,
      unless the dot comes first or last. */
  function Stem(path: string): string {
    var name := if '/' in path then Rest(path) else path;
    var i := LastDot(name);
    if 0 < i < |name| - 1 then name[..i] else name
  }

  /** Where the last dot is, or -1. */
  function LastDot(name: string): (i: int)
    ensures -1 <= i < |name|
    ensures i >= 0 ==> name[i] == '.'
    ensures forall k :: i < k < |name| ==> name[k] != '.'
  {
    if name == "" then -1
    else if name[|name| - 1] == '.' then |name| - 1
    else
      var i := LastDot(name[..|name| - 1]);
      assert forall k :: i < k < |name| - 1 ==> name[..|name| - 1][k] == name[k];
      i
  }

  lemma {:induction false} StemOfName(name: string, suffix: string)
    requires '.' !in suffix
    ensures LastDot(name + "." + suffix) == |name|
  {
    var full := name + "." + suffix;
    assert full[|name|] == '.';
    forall k | |name| < k < |full|
      ensures full[k] != '.'
    {
      assert full[k] == suffix[k - |name| - 1];
    }
  }

  lemma JoinedParts(dir: string, name: string, suffix: string)
    requires '/' !in dir && '/' !in suffix && '.' !in suffix && suffix != "" && PlainSha(name)
    ensures
      var p := JoinedPath(dir, name, suffix);
      '/' in p && Head(p) == dir && Rest(p) == name + "." + suffix && '/' !in Rest(p) && Stem(p) == name
  {
    HeadOfJoined(dir, name + "." + suffix);
    StemOfName(name, suffix);
    assert (name + "." + suffix)[..|name|] == name;
  }

  lemma Names(slot: Slot)
    ensures '/' !in DirOf(slot) && '/' !in SuffixOf(slot) && '.' !in SuffixOf(slot) && SuffixOf(slot) != ""
    ensures DirOf(slot) != ""
    ensures '/' !in IndexPath() && IndexPath() != ""
  {
  }

  lemma DirsDiffer(a: Slot, b: Slot)
    requires DirOf(a) == DirOf(b)
    ensures a.SnapSlot? == b.SnapSlot?
  {
    assert "snapshots"[0] != "manifests"[0];
  }

  lemma SlotPath(slot: Slot)
    requires PlainSlot(slot)
    ensures slot.IndexSlot? <==> '/' !in PathOf(slot)
    ensures !slot.IndexSlot? ==>
      Head(PathOf(slot)) == DirOf(slot) && '/' !in Rest(PathOf(slot)) && Stem(PathOf(slot)) == slot.sha
    ensures WellFormed(PathOf(slot))
  {
    Names(slot);
    if !slot.IndexSlot? {
      JoinedParts(DirOf(slot), slot.sha, SuffixOf(slot));
    }
  }

  lemma PathInjective(a: Slot, b: Slot)
    requires PlainSlot(a) && PlainSlot(b) && PathOf(a) == PathOf(b)
    ensures a == b
  {
    SlotPath(a);
    SlotPath(b);
    if !a.IndexSlot? {
      DirsDiffer(a, b);
    }
  }

  /** The layout of the branch. */
  lemma PathsAre(sha: string)
    ensures PathOf(SnapSlot(sha)) == "snapshots/" + sha + ".cmsnap"
    ensures PathOf(ManifestSlot(sha)) == "manifests/" + sha + ".json"
    ensures PathOf(IndexSlot) == "index.json"
  {
    assert "snapshots" + "/" + (sha + "." + "cmsnap") == "snapshots/" + sha + ".cmsnap";
    assert "manifests" + "/" + (sha + "." + "json") == "manifests/" + sha + ".json";
  }

  /** At most one slash: no path lies below another. */
  lemma SlotsPrefixFree(a: Slot, b: Slot)
    requires PlainSlot(a) && PlainSlot(b)
    ensures !(PathOf(a) + "/" <= PathOf(b))
  {
    SlotPath(a);
    SlotPath(b);
    Names(a);
    OneSlash(PathOf(a), PathOf(b));
    if a.IndexSlot? && !b.IndexSlot? {
      IndexIsNoDir(b);
    }
  }

  lemma IndexIsNoDir(slot: Slot)
    ensures IndexPath() != DirOf(slot)
  {
    assert IndexPath()[0] == 'i' && "snapshots"[0] == 's' && "manifests"[0] == 'm';
  }

  lemma OneSlash(p: string, q: string)
    requires '/' in q ==> '/' !in Rest(q)
    ensures p + "/" <= q ==> '/' in q && '/' !in p && Head(q) == p
  {
    if p + "/" <= q {
      var h := q[|p| + 1..];
      assert q == p + "/" + h;
      if '/' in p {
        JoinedAgain(p);
        var below := Rest(p) + "/" + h;
        assert below[|Rest(p)|] == '/';
        assert q == Head(p) + "/" + below;
        HeadOfJoined(Head(p), below);
      } else {
        HeadOfJoined(p, h);
      }
    }
  }

  // ---------------------------------------------------------------- what the branch holds

  type Shelf = map<string, Snap>

  function IndexOf(shelf: Shelf): map<string, Meta> {
    map s | s in shelf :: Meta(|shelf[s].blob|, shelf[s].createdAt)
  }

  /** The content that belongs at a slot. */
  function Stored(shelf: Shelf, manifests: map<string, string>, slot: Slot): Option<Content> {
    match slot
    case SnapSlot(sha) => if sha in shelf then Some(Snapshot(shelf[sha].blob)) else None
    case ManifestSlot(sha) => if sha in manifests then Some(Manifest(manifests[sha])) else None
    case IndexSlot => Some(Index(IndexOf(shelf)))
  }

  /** The flat entries are exactly the snapshots, the manifests and the index, whose
      keys are the commits with a snapshot blob. */
  ghost predicate Holds(entries: map<string, Content>, shelf: Shelf, manifests: map<string, string>) {
    && (forall s :: s in shelf ==> PlainSha(s)) && manifests.Keys <= shelf.Keys
    && (forall slot :: PlainSlot(slot) ==> Entry(entries, PathOf(slot)) == Stored(shelf, manifests, slot))
    && (forall p :: p in entries ==> exists slot :: PlainSlot(slot) && PathOf(slot) == p)
  }

  lemma HeldIsGood(entries: map<string, Content>, shelf: Shelf, manifests: map<string, string>)
    requires Holds(entries, shelf, manifests)
    ensures Good(entries)
  {
    forall p | p in entries
      ensures WellFormed(p)
    {
      var slot :| PlainSlot(slot) && PathOf(slot) == p;
      SlotPath(slot);
    }
    forall p, q | p in entries && q in entries
      ensures !(p + "/" <= q)
    {
      var a :| PlainSlot(a) && PathOf(a) == p;
      var b :| PlainSlot(b) && PathOf(b) == q;
      SlotsPrefixFree(a, b);
    }
  }

  /** What is left of the branch's contents when only some snapshots are kept. */
  function Restrict<V>(m: map<string, V>, keep: set<string>): map<string, V> {
    map s | s in m && s in keep :: m[s]
  }

  /** One entry more, and the index rewritten. */
  lemma WriteHolds(entries: map<string, Content>, shelf: Shelf, manifests: map<string, string>, sha: string,
                   blob: string, manifest: Option<string>, now: int)
    requires Holds(entries, shelf, manifests) && PlainSha(sha)
    ensures
      var shelf' := shelf[sha := Snap(blob, now)];
      var manifests' := if manifest.Some? then manifests[sha := manifest.value] else manifests;
      Holds(Written(entries, sha, blob, manifest, IndexOf(shelf)[sha := Meta(|blob|, now)]), shelf', manifests')
  {
    var shelf' := shelf[sha := Snap(blob, now)];
    var manifests' := if manifest.Some? then manifests[sha := manifest.value] else manifests;
    var index := IndexOf(shelf)[sha := Meta(|blob|, now)];
    var after := Written(entries, sha, blob, manifest, index);
    assert index == IndexOf(shelf');
    forall slot | PlainSlot(slot)
      ensures Entry(after, PathOf(slot)) == Stored(shelf', manifests', slot)
    {
      WrittenAt(entries, sha, blob, manifest, index, slot);
      assert Entry(entries, PathOf(slot)) == Stored(shelf, manifests, slot);
    }
    WrittenPaths(entries, sha, blob, manifest, index);
  }

  function Written(entries: map<string, Content>, sha: string, blob: string, manifest: Option<string>,
                   index: map<string, Meta>): map<string, Content> {
    var snapped := entries[PathOf(SnapSlot(sha)) := Snapshot(blob)];
    var documented := if manifest.Some? then snapped[PathOf(ManifestSlot(sha)) := Manifest(manifest.value)]
      else snapped;
    documented[PathOf(IndexSlot) := Index(index)]
  }

  lemma WrittenAt(entries: map<string, Content>, sha: string, blob: string, manifest: Option<string>,
                  index: map<string, Meta>, slot: Slot)
    requires PlainSha(sha) && PlainSlot(slot)
    ensures Entry(Written(entries, sha, blob, manifest, index), PathOf(slot)) ==
      if slot == IndexSlot then Some(Index(index))
      else if slot == ManifestSlot(sha) && manifest.Some? then Some(Manifest(manifest.value))
      else if slot == SnapSlot(sha) then Some(Snapshot(blob))
      else Entry(entries, PathOf(slot))
  {
    if PathOf(slot) == PathOf(IndexSlot) {
      PathInjective(slot, IndexSlot);
    }
    if PathOf(slot) == PathOf(ManifestSlot(sha)) {
      PathInjective(slot, ManifestSlot(sha));
    }
    if PathOf(slot) == PathOf(SnapSlot(sha)) {
      PathInjective(slot, SnapSlot(sha));
    }
  }

  lemma WrittenPaths(entries: map<string, Content>, sha: string, blob: string, manifest: Option<string>,
                     index: map<string, Meta>)
    requires PlainSha(sha)
    requires forall p :: p in entries ==> exists slot :: PlainSlot(slot) && PathOf(slot) == p
    ensures forall p :: p in Written(entries, sha, blob, manifest, index) ==>
      exists slot :: PlainSlot(slot) && PathOf(slot) == p
  {
    assert PlainSlot(SnapSlot(sha)) && PlainSlot(ManifestSlot(sha)) && PlainSlot(IndexSlot);
  }

  // ---------------------------------------------------------------- garbage collection

  datatype StoreEntry = StoreEntry(sha: string, createdAt: int)

  /** Python's stable sort, newest first. */
  function NewestFirst(list: seq<StoreEntry>): seq<StoreEntry> {
    if list == [] then [] else Inserted(list[0], NewestFirst(list[1..]))
  }

  function Inserted(e: StoreEntry, list: seq<StoreEntry>): seq<StoreEntry> {
    if list == [] || e.createdAt >= list[0].createdAt then [e] + list else [list[0]] + Inserted(e, list[1..])
  }

  ghost predicate Descending(list: seq<StoreEntry>) {
    forall i, j :: 0 <= i < j < |list| ==> list[i].createdAt >= list[j].createdAt
  }

  lemma {:induction false} InsertedIs(e: StoreEntry, list: seq<StoreEntry>)
    requires Descending(list)
    ensures Descending(Inserted(e, list)) && multiset(Inserted(e, list)) == multiset{e} + multiset(list)
  {
    if list != [] && e.createdAt < list[0].createdAt {
      InsertedIs(e, list[1..]);
      assert list == [list[0]] + list[1..];
      Prepended(list, e, Inserted(e, list[1..]));
    }
  }

  lemma Prepended(list: seq<StoreEntry>, e: StoreEntry, tail: seq<StoreEntry>)
    requires list != [] && Descending(list) && Descending(tail) && e.createdAt < list[0].createdAt
    requires multiset(tail) == multiset{e} + multiset(list[1..])
    ensures Descending([list[0]] + tail)
  {
    forall i | 0 <= i < |tail|
      ensures list[0].createdAt >= tail[i].createdAt
    {
      MemberOf(tail, e, list[1..], i);
    }
  }

  lemma MemberOf(tail: seq<StoreEntry>, e: StoreEntry, list: seq<StoreEntry>, i: nat)
    requires multiset(tail) == multiset{e} + multiset(list) && i < |tail|
    ensures tail[i] == e || tail[i] in list
  {
    assert tail[i] in multiset(tail);
  }

  lemma {:induction false} NewestFirstIs(list: seq<StoreEntry>)
    ensures Descending(NewestFirst(list)) && multiset(NewestFirst(list)) == multiset(list)
  {
    if list != [] {
      NewestFirstIs(list[1..]);
      InsertedIs(list[0], NewestFirst(list[1..]));
      assert list == [list[0]] + list[1..];
    }
  }

  /** How many elements the slice `[:k]` takes of `n`; a negative `k` counts from the end. */
  function SliceLength(n: nat, k: int): (r: nat)
    ensures r <= n
  {
    if k >= n then n else if k >= 0 then k else if n + k >= 0 then n + k else 0
  }

  /** `keep` is a choice of the `n` most recent snapshots. */
  ghost predicate MostRecent(shelf: Shelf, keep: set<string>, n: nat) {
    && keep <= shelf.Keys && |keep| == n
    && forall a, b :: a in keep && b in shelf && b !in keep ==> shelf[a].createdAt >= shelf[b].createdAt
  }

  /** `list` lists the index, each commit once. */
  ghost predicate Lists(list: seq<StoreEntry>, shelf: Shelf) {
    && (forall i :: 0 <= i < |list| ==> list[i].sha in shelf && list[i].createdAt == shelf[list[i].sha].createdAt)
    && (forall s :: s in shelf ==> StoreEntry(s, shelf[s].createdAt) in list)
    && (forall i, j :: 0 <= i < j < |list| ==> list[i].sha != list[j].sha)
  }

  function ShasOf(list: seq<StoreEntry>): set<string> {
    set i | 0 <= i < |list| :: list[i].sha
  }

  lemma {:induction false} ShasCount(list: seq<StoreEntry>)
    requires forall i, j :: 0 <= i < j < |list| ==> list[i].sha != list[j].sha
    ensures |ShasOf(list)| == |list|
  {
    if list != [] {
      var init := list[..|list| - 1];
      ShasCount(init);
      assert ShasOf(list) == ShasOf(init) + {list[|list| - 1].sha};
      assert list[|list| - 1].sha !in ShasOf(init);
    }
  }

  lemma SortedStillLists(list: seq<StoreEntry>, sorted: seq<StoreEntry>, shelf: Shelf)
    requires Lists(list, shelf) && multiset(sorted) == multiset(list)
    ensures Lists(sorted, shelf) && |sorted| == |list|
  {
    assert |multiset(sorted)| == |sorted| && |multiset(list)| == |list|;
    forall e
      ensures e in sorted <==> e in list
    {
      assert e in multiset(sorted) <==> e in multiset(list);
    }
    forall i | 0 <= i < |sorted|
      ensures sorted[i].sha in shelf && sorted[i].createdAt == shelf[sorted[i].sha].createdAt
    {
      assert sorted[i] in list;
    }
    forall i, j | 0 <= i < j < |sorted|
      ensures sorted[i].sha != sorted[j].sha
    {
      if sorted[i] == sorted[j] {
        Twice(sorted, i, j);
        Once(list, sorted[i]);
      }
    }
  }

  lemma Twice(list: seq<StoreEntry>, i: int, j: int)
    requires 0 <= i < j < |list| && list[i] == list[j]
    ensures multiset(list)[list[i]] >= 2
  {
    assert list == list[..j] + [list[j]] + list[j + 1..];
    assert list[i] in list[..j];
  }

  lemma {:induction false} Once(list: seq<StoreEntry>, e: StoreEntry)
    requires forall i, j :: 0 <= i < j < |list| ==> list[i].sha != list[j].sha
    ensures multiset(list)[e] <= 1
  {
    if list != [] {
      var init, last := list[..|list| - 1], list[|list| - 1];
      assert list == init + [last];
      Once(init, e);
      if e == last {
        assert e !in init;
      }
    }
  }

  lemma ListIsComplete(list: seq<StoreEntry>, shelf: Shelf)
    requires Lists(list, shelf)
    ensures |list| == |shelf|
  {
    ShasCount(list);
    forall s | s in shelf
      ensures s in ShasOf(list)
    {
      assert StoreEntry(s, shelf[s].createdAt) in list;
    }
    assert ShasOf(list) == shelf.Keys;
    assert |shelf| == |shelf.Keys|;
  }

  /** A descending list starts with its most recent entries. */
  lemma PrefixIsMostRecent(sorted: seq<StoreEntry>, shelf: Shelf, n: nat)
    requires Lists(sorted, shelf) && Descending(sorted) && n <= |sorted|
    ensures MostRecent(shelf, ShasOf(sorted[..n]), n)
  {
    var first := sorted[..n];
    ShasCount(first);
    forall a, b | a in ShasOf(first) && b in shelf && b !in ShasOf(first)
      ensures shelf[a].createdAt >= shelf[b].createdAt
    {
      var i :| 0 <= i < |first| && first[i].sha == a;
      var e := StoreEntry(b, shelf[b].createdAt);
      assert e in sorted;
      var j :| 0 <= j < |sorted| && sorted[j] == e;
      OutsidePrefix(sorted, n, j);
    }
  }

  lemma OutsidePrefix(sorted: seq<StoreEntry>, n: nat, j: nat)
    requires n <= |sorted| && j < |sorted| && sorted[j].sha !in ShasOf(sorted[..n])
    ensures j >= n
  {
    forall k | 0 <= k < n
      ensures sorted[k].sha in ShasOf(sorted[..n])
    {
      assert sorted[..n][k] == sorted[k];
    }
  }

  /** The first `k` entries of the sorted list are the most recent snapshots. */
  lemma SlicedIsMostRecent(list: seq<StoreEntry>, shelf: Shelf, k: int)
    requires Lists(list, shelf)
    ensures |list| == |shelf| == |NewestFirst(list)|
    ensures MostRecent(shelf, ShasOf(NewestFirst(list)[..SliceLength(|list|, k)]), SliceLength(|list|, k))
  {
    NewestFirstIs(list);
    SortedStillLists(list, NewestFirst(list), shelf);
    ListIsComplete(list, shelf);
    PrefixIsMostRecent(NewestFirst(list), shelf, SliceLength(|list|, k));
  }

  /** Does garbage collection drop the path? */
  predicate Pruned(p: string, keep: set<string>) {
    '/' in p && Head(p) in {"snapshots", "manifests"} && Stem(p) !in keep
  }

  function PrunedBy(keep: set<string>): string -> bool {
    (p: string) => Pruned(p, keep)
  }

  function Without(entries: map<string, Content>, drop: string -> bool): map<string, Content> {
    map p | p in entries && !drop(p) :: entries[p]
  }

  function Doomed(entries: map<string, Content>, drop: string -> bool): set<string> {
    set p | p in entries && drop(p)
  }

  lemma PrunedSlot(slot: Slot, keep: set<string>)
    requires PlainSlot(slot)
    ensures Pruned(PathOf(slot), keep) <==> !slot.IndexSlot? && slot.sha !in keep
  {
    SlotPath(slot);
  }

  lemma GcHolds(entries: map<string, Content>, shelf: Shelf, manifests: map<string, string>, keep: set<string>)
    requires Holds(entries, shelf, manifests)
    ensures Holds(Without(entries, PrunedBy(keep))[PathOf(IndexSlot) := Index(IndexOf(Restrict(shelf, keep)))],
                  Restrict(shelf, keep), Restrict(manifests, keep))
  {
    var kept, docs := Restrict(shelf, keep), Restrict(manifests, keep);
    var after := Without(entries, PrunedBy(keep))[PathOf(IndexSlot) := Index(IndexOf(kept))];
    forall slot | PlainSlot(slot)
      ensures Entry(after, PathOf(slot)) == Stored(kept, docs, slot)
    {
      assert Entry(entries, PathOf(slot)) == Stored(shelf, manifests, slot);
      PrunedSlot(slot, keep);
      if PathOf(slot) == PathOf(IndexSlot) {
        PathInjective(slot, IndexSlot);
      }
    }
    assert PlainSlot(IndexSlot);
  }

  class SnapshotStore {
    /** The tree of the branch's last commit. */
    var tip: Option<Tree<Content>>
    ghost var shelf: Shelf
    ghost var manifests: map<string, string>

    ghost predicate Valid()
      reads this
    {
      match tip
      case None => shelf == map[] && manifests == map[]
      case Some(t) => Plain(t) && Holds(Flatten(t), shelf, manifests)
    }

    constructor ()
      ensures Valid() && shelf == map[] && manifests == map[]
    {
      tip, shelf, manifests := None, map[], map[];
    }

    method Has(sha: string) returns (has: bool)
      requires Valid() && PlainSha(sha)
      ensures has <==> sha in shelf
    {
      if tip.None? {
        return false;
      }
      FoundIsStored(tip.value, shelf, manifests, SnapSlot(sha));
      has := Find(tip.value, PathOf(SnapSlot(sha))).Some?;
    }

    method Read(sha: string) returns (r: Result<string, StoreError>)
      requires Valid() && PlainSha(sha)
      ensures r == if sha in shelf then Ok(shelf[sha].blob) else Err(NotFound(sha))
    {
      if tip.None? {
        return Err(NotFound(sha));
      }
      FoundIsStored(tip.value, shelf, manifests, SnapSlot(sha));
      var found := Find(tip.value, PathOf(SnapSlot(sha)));
      r := if found.Some? && found.value.Snapshot? then Ok(found.value.bytes) else Err(NotFound(sha));
    }

    method ReadIndex() returns (index: map<string, Meta>)
      requires Valid()
      ensures index == IndexOf(shelf)
      ensures index.Keys == shelf.Keys
      ensures forall s :: s in shelf ==> index[s] == Meta(|shelf[s].blob|, shelf[s].createdAt)
    {
      if tip.None? {
        return map[];
      }
      FoundIsStored(tip.value, shelf, manifests, IndexSlot);
      var found := Find(tip.value, PathOf(IndexSlot));
      index := if found.Some? && found.value.Index? then found.value.entries else map[];
    }

    method ListLocal() returns (list: seq<StoreEntry>)
      requires Valid()
      ensures Lists(list, shelf)
    {
      var index := ReadIndex();
      list := [];
      var todo := index.Keys;
      while todo != {}
        invariant todo <= shelf.Keys
        invariant forall i :: 0 <= i < |list| ==>
          list[i].sha in shelf && list[i].sha !in todo && list[i].createdAt == shelf[list[i].sha].createdAt
        invariant forall s :: s in shelf && s !in todo ==> StoreEntry(s, shelf[s].createdAt) in list
        invariant forall i, j :: 0 <= i < j < |list| ==> list[i].sha != list[j].sha
        decreases todo
      {
        var s :| s in todo;
        list := list + [StoreEntry(s, index[s].createdAt)];
        todo := todo - {s};
      }
    }

    /** Commit the entries as the new tip. */
    method Commit(entries: map<string, Content>, ghost shelf': Shelf, ghost manifests': map<string, string>)
      requires Holds(entries, shelf', manifests')
      modifies this
      ensures Valid() && shelf == shelf' && manifests == manifests'
    {
      HeldIsGood(entries, shelf', manifests');
      var t := BuildTree(entries);
      BuiltIsPlain(entries);
      FlattenUndoesBuild(entries);
      tip, shelf, manifests := Some(t), shelf', manifests';
    }

    /** Nothing happens if the commit already has exactly this blob. */
    method Write(sha: string, blob: string, manifest: Option<string>, now: int) returns (created: bool)
      requires Valid() && PlainSha(sha)
      modifies this
      ensures Valid()
      ensures created <==> !(sha in old(shelf) && old(shelf)[sha].blob == blob)
      ensures shelf == if created then old(shelf)[sha := Snap(blob, now)] else old(shelf)
      ensures manifests == if created && manifest.Some? then old(manifests)[sha := manifest.value] else old(manifests)
    {
      var has := Has(sha);
      if has {
        var existing := Read(sha);
        if existing == Ok(blob) {
          return false;
        }
      }
      var index := ReadIndex();
      var entries: map<string, Content> := map[];
      if tip.Some? {
        entries := Flatten(tip.value);
        WriteHolds(entries, shelf, manifests, sha, blob, manifest, now);
      } else {
        FirstWriteHolds(sha, blob, manifest, now);
      }
      Commit(Written(entries, sha, blob, manifest, index[sha := Meta(|blob|, now)]), shelf[sha := Snap(blob, now)],
        if manifest.Some? then manifests[sha := manifest.value] else manifests);
      created := true;
    }

    method MostRecentShas(keepLast: int) returns (count: nat, keep: set<string>)
      requires Valid()
      ensures count == |shelf|
      ensures MostRecent(shelf, keep, SliceLength(|shelf|, keepLast)) && manifests.Keys <= shelf.Keys
    {
      var list := ListLocal();
      SlicedIsMostRecent(list, shelf, keepLast);
      count, keep := |list|, ShasOf(NewestFirst(list)[..SliceLength(|list|, keepLast)]);
    }

    /** Keeps the `keepLast` most recent snapshots, by the time of their last change,
        and counts every path that it removes. */
    method Gc(keepLast: int) returns (removed: nat, ghost keep: set<string>)
      requires Valid()
      modifies this
      ensures Valid()
      ensures MostRecent(old(shelf), keep, SliceLength(|old(shelf)|, keepLast))
      ensures shelf == Restrict(old(shelf), keep) && manifests == Restrict(old(manifests), keep)
      ensures removed == |old(shelf).Keys - keep| + |old(manifests).Keys - keep|
    {
      var count, kept := MostRecentShas(keepLast);
      keep := kept;
      if count <= keepLast || tip.None? {
        EverythingIsKept(shelf, manifests, kept);
        return 0, kept;
      }
      removed := DropOthers(kept);
    }

    /** Remove what belongs to no kept commit, and commit if there was anything. */
    method DropOthers(keep: set<string>) returns (removed: nat)
      requires Valid() && tip.Some?
      modifies this
      ensures Valid()
      ensures shelf == Restrict(old(shelf), keep) && manifests == Restrict(old(manifests), keep)
      ensures removed == |old(shelf).Keys - keep| + |old(manifests).Keys - keep|
    {
      var entries, index;
      entries, removed := Prune(Flatten(tip.value), PrunedBy(keep));
      PrunedCount(Flatten(tip.value), shelf, manifests, keep);
      if removed == 0 {
        NothingPruned(shelf, manifests, keep);
        return;
      }
      index := ReadIndex();
      GcHolds(Flatten(tip.value), shelf, manifests, keep);
      RestrictIndex(shelf, keep);
      Commit(entries[PathOf(IndexSlot) := Index(Restrict(index, keep))], Restrict(shelf, keep),
             Restrict(manifests, keep));
    }
  }

  lemma RestrictIndex(shelf: Shelf, keep: set<string>)
    ensures Restrict(IndexOf(shelf), keep) == IndexOf(Restrict(shelf, keep))
  {
  }

  /** Delete the paths one by one. */
  method Prune(entries0: map<string, Content>, drop: string -> bool)
    returns (entries: map<string, Content>, removed: nat)
    ensures entries == Without(entries0, drop)
    ensures removed == |Doomed(entries0, drop)|
  {
    entries, removed := entries0, 0;
    var todo := entries0.Keys;
    ghost var gone: set<string> := {};
    while todo != {}
      invariant todo <= entries0.Keys && gone <= entries0.Keys - todo
      invariant forall p :: p in entries0 && p !in todo ==> (p in gone <==> drop(p))
      invariant entries == entries0 - gone && removed == |gone|
      decreases todo
    {
      var p :| p in todo;
      todo := todo - {p};
      if drop(p) {
        entries, removed := entries - {p}, removed + 1;
        gone := gone + {p};
      }
    }
    assert gone == Doomed(entries0, drop);
  }

  lemma AllAreKept(shelf: Shelf, keep: set<string>)
    requires keep <= shelf.Keys && |keep| == |shelf|
    ensures keep == shelf.Keys
  {
    assert |shelf| == |shelf.Keys| == |keep + (shelf.Keys - keep)|;
    assert shelf.Keys == keep + (shelf.Keys - keep);
    assert |shelf.Keys - keep| == 0;
  }

  lemma EverythingIsKept(shelf: Shelf, manifests: map<string, string>, keep: set<string>)
    requires keep <= shelf.Keys && |keep| == |shelf| && manifests.Keys <= shelf.Keys
    ensures Restrict(shelf, keep) == shelf && Restrict(manifests, keep) == manifests
    ensures |shelf.Keys - keep| == 0 && |manifests.Keys - keep| == 0
  {
    AllAreKept(shelf, keep);
    assert shelf.Keys - keep == {} && manifests.Keys - keep == {};
  }

  lemma NothingPruned(shelf: Shelf, manifests: map<string, string>, keep: set<string>)
    requires |shelf.Keys - keep| + |manifests.Keys - keep| == 0
    ensures Restrict(shelf, keep) == shelf && Restrict(manifests, keep) == manifests
  {
    NothingOutside(shelf, keep);
    NothingOutside(manifests, keep);
  }

  lemma NothingOutside<V>(m: map<string, V>, keep: set<string>)
    requires |m.Keys - keep| == 0
    ensures Restrict(m, keep) == m
  {
    assert m.Keys - keep == {};
    assert forall s :: s in m ==> s !in m.Keys - keep;
  }

  function SlotOf(sha: string, snaps: bool): Slot {
    if snaps then SnapSlot(sha) else ManifestSlot(sha)
  }

  /** The paths of some commits' snapshots or manifests. */
  function SlotPaths(shas: set<string>, snaps: bool): set<string> {
    set s | s in shas :: PathOf(SlotOf(s, snaps))
  }

  lemma SlotPathsCount(shas: set<string>, snaps: bool)
    requires forall s :: s in shas ==> PlainSha(s)
    ensures |SlotPaths(shas, snaps)| == |shas|
  {
    if shas != {} {
      var s :| s in shas;
      var rest := shas - {s};
      SlotPathsCount(rest, snaps);
      OneMorePath(rest, s, snaps);
      assert rest + {s} == shas;
    }
  }

  lemma OneMorePath(shas: set<string>, s: string, snaps: bool)
    requires s !in shas && PlainSha(s) && forall r :: r in shas ==> PlainSha(r)
    ensures |SlotPaths(shas + {s}, snaps)| == |SlotPaths(shas, snaps)| + 1
  {
    PathsGrow(shas, s, snaps);
    NewPath(shas, s, snaps);
  }

  lemma PathsGrow(shas: set<string>, s: string, snaps: bool)
    ensures SlotPaths(shas + {s}, snaps) == SlotPaths(shas, snaps) + {PathOf(SlotOf(s, snaps))}
  {
  }

  lemma NewPath(shas: set<string>, s: string, snaps: bool)
    requires s !in shas && PlainSha(s) && forall r :: r in shas ==> PlainSha(r)
    ensures PathOf(SlotOf(s, snaps)) !in SlotPaths(shas, snaps)
  {
    forall r | r in shas
      ensures PathOf(SlotOf(r, snaps)) != PathOf(SlotOf(s, snaps))
    {
      if PathOf(SlotOf(r, snaps)) == PathOf(SlotOf(s, snaps)) {
        PathInjective(SlotOf(r, snaps), SlotOf(s, snaps));
      }
    }
  }

  lemma PrunedCount(entries: map<string, Content>, shelf: Shelf, manifests: map<string, string>, keep: set<string>)
    requires Holds(entries, shelf, manifests)
    ensures |Doomed(entries, PrunedBy(keep))| == |shelf.Keys - keep| + |manifests.Keys - keep|
  {
    var snaps, docs := SlotPaths(shelf.Keys - keep, true), SlotPaths(manifests.Keys - keep, false);
    SlotPathsCount(shelf.Keys - keep, true);
    SlotPathsCount(manifests.Keys - keep, false);
    PrunedPaths(entries, shelf, manifests, keep);
    forall p | p in snaps
      ensures p !in docs
    {
      var s :| s in shelf.Keys - keep && p == PathOf(SnapSlot(s));
      forall m | m in manifests.Keys - keep
        ensures PathOf(ManifestSlot(m)) != p
      {
        if PathOf(ManifestSlot(m)) == p {
          PathInjective(ManifestSlot(m), SnapSlot(s));
        }
      }
    }
    assert |snaps + docs| == |snaps| + |docs|;
  }

  lemma PrunedPaths(entries: map<string, Content>, shelf: Shelf, manifests: map<string, string>, keep: set<string>)
    requires Holds(entries, shelf, manifests)
    ensures Doomed(entries, PrunedBy(keep)) == SlotPaths(shelf.Keys - keep, true) +
      SlotPaths(manifests.Keys - keep, false)
  {
    var both := SlotPaths(shelf.Keys - keep, true) + SlotPaths(manifests.Keys - keep, false);
    forall p | p in Doomed(entries, PrunedBy(keep))
      ensures p in both
    {
      PrunedIsListed(entries, shelf, manifests, keep, p);
    }
    forall p | p in both
      ensures p in Doomed(entries, PrunedBy(keep))
    {
      if s :| s in shelf.Keys - keep && p == PathOf(SlotOf(s, true)) {
        ListedIsPruned(entries, shelf, manifests, keep, SnapSlot(s));
      } else {
        var m :| m in manifests.Keys - keep && p == PathOf(SlotOf(m, false));
        ListedIsPruned(entries, shelf, manifests, keep, ManifestSlot(m));
      }
    }
  }

  lemma PrunedIsListed(entries: map<string, Content>, shelf: Shelf, manifests: map<string, string>, keep: set<string>,
                       p: string)
    requires Holds(entries, shelf, manifests) && p in entries && Pruned(p, keep)
    ensures p in SlotPaths(shelf.Keys - keep, true) + SlotPaths(manifests.Keys - keep, false)
  {
    var slot :| PlainSlot(slot) && PathOf(slot) == p;
    assert Entry(entries, p) == Stored(shelf, manifests, slot);
    PrunedSlot(slot, keep);
    if slot.SnapSlot? {
      assert slot == SlotOf(slot.sha, true);
    } else {
      assert slot == SlotOf(slot.sha, false);
    }
  }

  lemma ListedIsPruned(entries: map<string, Content>, shelf: Shelf, manifests: map<string, string>, keep: set<string>,
                       slot: Slot)
    requires Holds(entries, shelf, manifests) && PlainSlot(slot) && Stored(shelf, manifests, slot).Some?
    requires !slot.IndexSlot? && slot.sha !in keep
    ensures PathOf(slot) in Doomed(entries, PrunedBy(keep))
  {
    assert Entry(entries, PathOf(slot)) == Stored(shelf, manifests, slot);
    PrunedSlot(slot, keep);
  }

  lemma FoundIsStored(t: Tree<Content>, shelf: Shelf, manifests: map<string, string>, slot: Slot)
    requires Plain(t) && Holds(Flatten(t), shelf, manifests) && PlainSlot(slot)
    ensures Find(t, PathOf(slot)) == Stored(shelf, manifests, slot)
  {
    PathsAreFound(t, PathOf(slot));
    assert Entry(Flatten(t), PathOf(slot)) == Stored(shelf, manifests, slot);
  }

  lemma FirstWriteHolds(sha: string, blob: string, manifest: Option<string>, now: int)
    requires PlainSha(sha)
    ensures Holds(Written(map[], sha, blob, manifest, map[sha := Meta(|blob|, now)]), map[sha := Snap(blob, now)],
              if manifest.Some? then map[sha := manifest.value] else map[])
  {
    var index := map[sha := Meta(|blob|, now)];
    var entries := Written(map[], sha, blob, manifest, index);
    var shelf: Shelf := map[sha := Snap(blob, now)];
    var manifests := if manifest.Some? then map[sha := manifest.value] else map[];
    assert IndexOf(shelf) == index;
    forall slot | PlainSlot(slot)
      ensures Entry(entries, PathOf(slot)) == Stored(shelf, manifests, slot)
    {
      WrittenAt(map[], sha, blob, manifest, index, slot);
    }
    WrittenPaths(map[], sha, blob, manifest, index);
  }

  // ---------------------------------------------------------------- runs

  datatype Op = Write(sha: string, blob: string, now: int) | Collect(keepLast: int, keep: set<string>)

  function Apply(shelf: Shelf, op: Op): Shelf {
    match op
    case Write(sha, blob, now) => if sha in shelf && shelf[sha].blob == blob then shelf
      else shelf[sha := Snap(blob, now)]
    case Collect(_, keep) => Restrict(shelf, keep)
  }

  function Run(ops: seq<Op>): Shelf {
    if ops == [] then map[] else Apply(Run(ops[..|ops| - 1]), ops[|ops| - 1])
  }

  /** Each collection keeps some choice of the most recent snapshots. */
  ghost predicate Allowed(ops: seq<Op>) {
    forall i :: 0 <= i < |ops| && ops[i].Collect? ==>
      MostRecent(Run(ops[..i]), ops[i].keep, SliceLength(|Run(ops[..i])|, ops[i].keepLast))
  }

  function LastWritten(ops: seq<Op>, sha: string): Option<string> {
    if ops == [] then None
    else
      var op := ops[|ops| - 1];
      if op.Write? && op.sha == sha then Some(op.blob) else LastWritten(ops[..|ops| - 1], sha)
  }

  /** A snapshot that is still there reads as the last blob written for it. */
  lemma {:induction false} ReadsLastWritten(ops: seq<Op>, sha: string)
    ensures sha in Run(ops) ==> LastWritten(ops, sha) == Some(Run(ops)[sha].blob)
  {
    if ops != [] {
      ReadsLastWritten(ops[..|ops| - 1], sha);
    }
  }

  /** A commit that was written and is gone was collected after its last write, when
      as many others as were kept were at least as recent. */
  lemma {:induction false} OnlyCollectionLoses(ops: seq<Op>, sha: string)
    requires Allowed(ops)
    ensures LastWritten(ops, sha).Some? && sha !in Run(ops) ==>
      exists i :: 0 <= i < |ops| && ops[i].Collect? && sha in Run(ops[..i]) && sha !in ops[i].keep
        && forall other :: other in ops[i].keep ==> Run(ops[..i])[other].createdAt >= Run(ops[..i])[sha].createdAt
  {
    if LastWritten(ops, sha).Some? && sha !in Run(ops) {
      var n := |ops| - 1;
      var init, op := ops[..n], ops[n];
      if sha in Run(init) {
        assert op.Collect? && sha !in op.keep;
      } else {
        assert forall i :: 0 <= i < n ==> init[..i] == ops[..i] && init[i] == ops[i];
        OnlyCollectionLoses(init, sha);
        var i :| 0 <= i < |init| && init[i].Collect? && sha in Run(init[..i]) && sha !in init[i].keep
          && forall other :: other in init[i].keep ==> Run(init[..i])[other].createdAt >= Run(init[..i])[sha].createdAt;
        assert ops[i] == init[i] && ops[..i] == init[..i];
      }
    }
  }

  /** A collection leaves exactly `keepLast` snapshots, or all if there are fewer;
      a negative number drops that many. */
  lemma CollectionSize(shelf: Shelf, keepLast: int, keep: set<string>)
    requires MostRecent(shelf, keep, SliceLength(|shelf|, keepLast))
    ensures
      var n := |Apply(shelf, Collect(keepLast, keep))|;
      n == if keepLast >= |shelf| then |shelf| else if keepLast >= 0 then keepLast
           else if |shelf| + keepLast >= 0 then |shelf| + keepLast else 0
  {
    assert Restrict(shelf, keep).Keys == keep;
    assert |Restrict(shelf, keep)| == |Restrict(shelf, keep).Keys|;
  }

  /** The snapshots that are more recent than one of them. */
  ghost function Newer(shelf: Shelf, sha: string): set<string>
    requires sha in shelf
  {
    set s | s in shelf && shelf[s].createdAt > shelf[sha].createdAt
  }

  lemma {:induction false} Newest(shelf: Shelf, shas: set<string>) returns (sha: string)
    requires shas != {} && shas <= shelf.Keys
    ensures sha in shas && forall s :: s in shas ==> shelf[sha].createdAt >= shelf[s].createdAt
    decreases |shas|
  {
    sha :| sha in shas;
    if shas != {sha} {
      var other := Newest(shelf, shas - {sha});
      assert forall s :: s in shas ==> s == sha || s in shas - {sha};
      if shelf[other].createdAt > shelf[sha].createdAt {
        sha := other;
      }
    }
  }

  lemma SomethingOutside<T>(few: set<T>, all: set<T>)
    requires |few| < |all|
    ensures all - few != {}
  {
    if all - few == {} {
      forall x | x in all
        ensures x in few
      {
        assert x !in all - few;
      }
      SubsetIsSmall(all, few);
    }
  }

  /** A choice that is too small grows by the newest of the others. */
  lemma {:induction false} ChoiceGrows(shelf: Shelf, few: set<string>, n: nat) returns (keep: set<string>)
    requires MostRecent(shelf, few, |few|) && |few| <= n <= |shelf|
    ensures MostRecent(shelf, keep, n) && few <= keep
    decreases n - |few|
  {
    keep := few;
    if |few| < n {
      assert |shelf| == |shelf.Keys|;
      SomethingOutside(few, shelf.Keys);
      var sha := Newest(shelf, shelf.Keys - few);
      assert |few + {sha}| == |few| + 1;
      keep := ChoiceGrows(shelf, few + {sha}, n);
    }
  }

  /** Some collection to `n` snapshots keeps this one exactly when fewer than `n` are more recent. */
  lemma KeptIff(shelf: Shelf, sha: string, n: nat)
    requires sha in shelf && n <= |shelf|
    ensures (exists keep :: MostRecent(shelf, keep, n) && sha in keep) <==> |Newer(shelf, sha)| < n
  {
    var newer := Newer(shelf, sha);
    if |newer| < n {
      assert |newer + {sha}| == |newer| + 1;
      var keep := ChoiceGrows(shelf, newer + {sha}, n);
    }
    forall keep | MostRecent(shelf, keep, n) && sha in keep
      ensures |newer| < n
    {
      assert newer + {sha} <= keep;
      SubsetIsSmall(newer + {sha}, keep);
    }
  }

  /** Writing an unchanged blob does not make a snapshot recent: whether a collection
      can keep it still depends on how many were written after the first write. */
  lemma RewriteKeepsItsAge(shelf: Shelf, sha: string, now: int, keepLast: int)
    requires sha in shelf
    ensures
      var after := Apply(shelf, Write(sha, shelf[sha].blob, now));
      (exists keep :: MostRecent(after, keep, SliceLength(|after|, keepLast)) && sha in keep)
      <==> |Newer(shelf, sha)| < SliceLength(|shelf|, keepLast)
  {
    KeptIff(shelf, sha, SliceLength(|shelf|, keepLast));
  }

  /** A changed blob does: nothing is more recent, so any collection but an empty one can keep it. */
  lemma FreshWriteIsKept(shelf: Shelf, sha: string, blob: string, now: int, keepLast: int)
    requires sha !in shelf || shelf[sha].blob != blob
    requires forall s :: s in shelf ==> shelf[s].createdAt <= now
    ensures
      var after := Apply(shelf, Write(sha, blob, now));
      (exists keep :: MostRecent(after, keep, SliceLength(|after|, keepLast)) && sha in keep)
      <==> SliceLength(|after|, keepLast) > 0
  {
    var after := Apply(shelf, Write(sha, blob, now));
    KeptIff(after, sha, SliceLength(|after|, keepLast));
    assert Newer(after, sha) == {};
  }
}
