/**
 Ids of a new scan are replaced by those of the previous one wherever the full paths agree. Everything new gets
 an id above all ids in use.
 */
module PathRemap {
  import opened Basics
  import opened Records

  type File = FileRecord<string>
  type Directory = DirectoryRecord<string>
  type Volume = VolumeRecord<string>

  type IdsByPath = map<string, U64>

  // ---------- Files ----------

  /** Later records replace earlier ones with the same path. */
  function KnownFiles(previous: seq<File>): IdsByPath {
    if previous == [] then map[]
    else KnownFiles(previous[..|previous| - 1])[previous[|previous| - 1].fullPath := previous[|previous| - 1].id]
  }

  function MaxFileId(files: seq<File>): U64 {
    if files == [] then 0 else MaxU64(MaxFileId(files[..|files| - 1]), files[|files| - 1].id)
  }

  function NextFileId(previous: seq<File>, current: seq<File>): U64 {
    SatAdd(MaxU64(MaxFileId(previous), MaxFileId(current)), 1)
  }

  datatype RemappedFiles = RemappedFiles(files: seq<File>, next: U64)

  function RemapFiles(known: IdsByPath, current: seq<File>, next: U64): RemappedFiles {
    if current == [] then RemappedFiles([], next)
    else
      var before, f := RemapFiles(known, current[..|current| - 1], next), current[|current| - 1];
      if f.fullPath in known then RemappedFiles(before.files + [f.(id := known[f.fullPath])], before.next)
      else RemappedFiles(before.files + [f.(id := before.next)], SatAdd(before.next, 1))
  }

  method RemapCurrentFilesByPath(previous: seq<File>, current: seq<File>) returns (result: seq<File>)
    ensures result == RemapFiles(KnownFiles(previous), current, NextFileId(previous, current)).files
  {
    var known := KnownFiles(previous);
    var first := NextFileId(previous, current);
    var next := first;
    result := current;
    assert current[..0] == [];
    for i := 0 to |current|
      invariant |result| == |current| && forall k :: i <= k < |current| ==> result[k] == current[k]
      invariant RemapFiles(known, current[..i], first) == RemappedFiles(result[..i], next)
    {
      hide KnownFiles, NextFileId;
      assert current[..i + 1][..i] == current[..i];
      ghost var done := result[..i];
      assert result[i] == current[i];
      if result[i].fullPath in known {
        result := result[i := result[i].(id := known[result[i].fullPath])];
      } else {
        result := result[i := result[i].(id := next)];
        next := SatAdd(next, 1);
      }
      assert result[..i + 1] == done + [result[i]];
    }
    assert result[..|current|] == result && current[..|current|] == current;
  }

  lemma {:induction false} KnownFilesAre(previous: seq<File>, path: string)
    ensures path in KnownFiles(previous) ==>
              exists i ::
                0 <= i < |previous| && previous[i].fullPath == path && previous[i].id == KnownFiles(previous)[path]
                && forall j :: i < j < |previous| ==> previous[j].fullPath != path
    ensures forall i :: 0 <= i < |previous| && previous[i].fullPath == path ==> path in KnownFiles(previous)
  {
    if previous != [] {
      var n := |previous| - 1;
      KnownFilesAre(previous[..n], path);
      assert forall i :: 0 <= i < n ==> previous[..n][i] == previous[i];
    }
  }

  lemma {:induction false} MaxFileIdIs(files: seq<File>)
    ensures forall i :: 0 <= i < |files| ==> files[i].id <= MaxFileId(files)
  {
    if files != [] {
      MaxFileIdIs(files[..|files| - 1]);
    }
  }

  /** The first fresh id follows the largest one in use. */
  lemma NextFileIdFollows(previous: seq<File>, current: seq<File>)
    requires MaxU64(MaxFileId(previous), MaxFileId(current)) < U64_MAX
    ensures forall f :: f in previous || f in current ==> f.id < NextFileId(previous, current)
    ensures NextFileId(previous, current) == 1
            || exists f :: (f in previous || f in current) && f.id == NextFileId(previous, current) - 1
  {
    MaxFileIdIs(previous);
    MaxFileIdIs(current);
    MaxFileIdIsReached(previous);
    MaxFileIdIsReached(current);
  }

  lemma {:induction false} MaxFileIdIsReached(files: seq<File>)
    ensures MaxFileId(files) == 0 || exists f <- files :: f.id == MaxFileId(files)
  {
    if files != [] {
      var n := |files| - 1;
      MaxFileIdIsReached(files[..n]);
      assert files == files[..n] + [files[n]];
      assert files[n] in files;
    }
  }

  /** A known file takes its former id, another one a fresh id. */
  predicate RemappedFile(known: IdsByPath, before: File, after: File, low: nat, high: nat) {
    && after == before.(id := after.id)
    && if before.fullPath in known then after.id == known[before.fullPath] else low <= after.id < high
  }

  /** No fresh id is given twice. */
  ghost predicate FilesRemapped(known: IdsByPath, current: seq<File>, next: U64, r: RemappedFiles) {
    && |r.files| == |current| && next <= r.next <= next + |current|
    && (forall i :: 0 <= i < |current| ==> RemappedFile(known, current[i], r.files[i], next, r.next))
    && (forall i, j :: 0 <= i < j < |current| && current[i].fullPath !in known && current[j].fullPath !in known ==>
          r.files[i].id < r.files[j].id)
  }

  lemma FilesRemappedStep(known: IdsByPath, current: seq<File>, next: U64, r: RemappedFiles, f: File)
    requires FilesRemapped(known, current, next, r) && next + |current| + 1 <= U64_MAX
    ensures FilesRemapped(known, current + [f], next,
                          if f.fullPath in known then RemappedFiles(r.files + [f.(id := known[f.fullPath])], r.next)
                          else RemappedFiles(r.files + [f.(id := r.next)], r.next + 1))
  {
    var more := current + [f];
    var high := if f.fullPath in known then r.next else r.next + 1;
    forall i | 0 <= i < |current| && more[i].fullPath !in known ensures r.files[i].id < r.next {
      assert RemappedFile(known, current[i], r.files[i], next, r.next);
    }
    forall i | 0 <= i < |current| ensures RemappedFile(known, more[i], r.files[i], next, high) {
      assert RemappedFile(known, current[i], r.files[i], next, r.next);
    }
  }

  lemma {:induction false} RemapFilesAre(known: IdsByPath, current: seq<File>, next: U64)
    requires next + |current| <= U64_MAX
    ensures FilesRemapped(known, current, next, RemapFiles(known, current, next))
  {
    if current != [] {
      hide FilesRemapped;
      var n := |current| - 1;
      RemapFilesAre(known, current[..n], next);
      RemapFilesBounded(known, current[..n], next);
      FilesRemappedStep(known, current[..n], next, RemapFiles(known, current[..n], next), current[n]);
      assert current[..n] + [current[n]] == current;
    } else {
      assert FilesRemapped(known, [], next, RemappedFiles([], next));
    }
  }

  lemma RemapFilesBounded(known: IdsByPath, current: seq<File>, next: U64)
    requires FilesRemapped(known, current, next, RemapFiles(known, current, next))
    ensures RemapFiles(known, current, next).next <= next + |current|
  {
  }

  ghost predicate Shared(known: IdsByPath, paths: seq<string>) {
    exists i, j :: 0 <= i < j < |paths| && paths[i] == paths[j] && paths[i] in known
  }

  function FilePaths(files: seq<File>): (paths: seq<string>)
    ensures |paths| == |files| && forall i :: 0 <= i < |files| ==> paths[i] == files[i].fullPath
  {
    seq(|files|, i requires 0 <= i < |files| => files[i].fullPath)
  }

  /** Different previous paths belong to different previous files. */
  ghost predicate Injective(known: IdsByPath) {
    forall p, q :: p in known && q in known && known[p] == known[q] ==> p == q
  }

  ghost predicate BelowNext(known: IdsByPath, next: U64) {
    forall p <- known :: known[p] < next
  }

  /** The counter of fresh ids never saturates. */
  ghost predicate FileIdsSuffice(previous: seq<File>, current: seq<File>) {
    MaxU64(MaxFileId(previous), MaxFileId(current)) + 1 + |current| <= U64_MAX
  }

  lemma KnownFilesInjective(previous: seq<File>, current: seq<File>)
    requires UniqueIds(previous) && FileIdsSuffice(previous, current)
    ensures Injective(KnownFiles(previous)) && BelowNext(KnownFiles(previous), NextFileId(previous, current))
    ensures NextFileId(previous, current) + |current| <= U64_MAX
  {
    hide KnownFiles;
    var known := KnownFiles(previous);
    forall p, q | p in known && q in known && known[p] == known[q] ensures p == q {
      KnownFilesAre(previous, p);
      KnownFilesAre(previous, q);
    }
    MaxFileIdIs(previous);
    MaxFileIdIs(current);
    forall p | p in known ensures known[p] < NextFileId(previous, current) {
      KnownFilesAre(previous, p);
    }
  }

  /** The new ids are unique exactly when no path of the previous scan occurs twice in the new one. */
  lemma RemappedFilesAreUnique(known: IdsByPath, current: seq<File>, next: U64)
    requires next + |current| <= U64_MAX && Injective(known) && BelowNext(known, next)
    ensures UniqueIds(RemapFiles(known, current, next).files) <==> !Shared(known, FilePaths(current))
  {
    hide RemapFiles;
    RemapFilesAre(known, current, next);
    var r, high, paths := RemapFiles(known, current, next).files, RemapFiles(known, current, next).next,
      FilePaths(current);
    assert forall i :: 0 <= i < |current| ==> RemappedFile(known, current[i], r[i], next, high);
    if i, j :| 0 <= i < j < |paths| && paths[i] == paths[j] && paths[i] in known {
      assert r[i].id == known[paths[i]] == r[j].id;
    }
    if !Shared(known, paths) {
      forall i, j | 0 <= i < j < |r| ensures r[i].id != r[j].id {
        assert paths[i] in known && paths[j] in known ==> paths[i] != paths[j];
      }
    }
  }

  // ---------- Directories ----------

  /** A directory without a path is never matched. */
  function KnownDirectories(previous: seq<Directory>): IdsByPath {
    if previous == [] then map[]
    else
      var before, d := KnownDirectories(previous[..|previous| - 1]), previous[|previous| - 1];
      if d.fullPath == "" then before else before[d.fullPath := d.id]
  }

  function DirectoryIds(ds: seq<Directory>): set<U64> {
    set i | 0 <= i < |ds| :: ds[i].id
  }

  function MaxId(ids: seq<U64>): U64 {
    if ids == [] then 0 else MaxU64(MaxId(ids[..|ids| - 1]), ids[|ids| - 1])
  }

  function IdList(ds: seq<Directory>): seq<U64> {
    seq(|ds|, i requires 0 <= i < |ds| => ds[i].id)
  }

  function ParentList(ds: seq<Directory>): seq<U64> {
    if ds == [] then []
    else
      var d := ds[|ds| - 1];
      ParentList(ds[..|ds| - 1]) + match d.parent case Some(p) => [p] case None => []
  }

  function FileParentList(files: seq<File>): (parents: seq<U64>)
    ensures |parents| == |files| && forall i :: 0 <= i < |files| ==> parents[i] == files[i].parent
  {
    seq(|files|, i requires 0 <= i < |files| => files[i].parent)
  }

  /** All references to directories; the volumes come in whatever order their table lists them. */
  function References(current: seq<Directory>, files: seq<File>, roots: seq<U64>): seq<U64> {
    ParentList(current) + FileParentList(files) + roots
  }

  function InUse(previous: seq<Directory>, current: seq<Directory>, files: seq<File>, roots: seq<U64>): seq<U64> {
    IdList(previous) + IdList(current) + References(current, files, roots)
  }

  function NextDirectoryId(inUse: seq<U64>): U64 {
    SatAdd(MaxId(inUse), 1)
  }

  lemma {:induction false} MaxIdIsReached(ids: seq<U64>)
    ensures forall i <- ids :: i <= MaxId(ids)
    ensures MaxId(ids) == 0 || MaxId(ids) in ids
  {
    if ids != [] {
      var n := |ids| - 1;
      MaxIdIsReached(ids[..n]);
      assert ids == ids[..n] + [ids[n]];
    }
  }

  /** The first fresh directory id follows the largest one in use. */
  lemma NextDirectoryIdFollows(inUse: seq<U64>)
    requires U64_MAX !in inUse
    ensures forall i <- inUse :: i < NextDirectoryId(inUse)
    ensures NextDirectoryId(inUse) == 1 || NextDirectoryId(inUse) - 1 in inUse
  {
    MaxIdIsReached(inUse);
  }

  type IdMap = map<U64, U64>

  datatype Assigned = Assigned(ids: IdMap, next: U64)

  /** Directories with a known path take its id, the others the next free one. */
  function AssignDirectories(known: IdsByPath, current: seq<Directory>, next: U64): Assigned {
    if current == [] then Assigned(map[], next)
    else
      var before, d := AssignDirectories(known, current[..|current| - 1], next), current[|current| - 1];
      if d.fullPath in known then Assigned(before.ids[d.id := known[d.fullPath]], before.next)
      else Assigned(before.ids[d.id := before.next], SatAdd(before.next, 1))
  }

  /** A dangling reference stays as it is unless it would now mean some directory. */
  function AssignReference(previous: set<U64>, before: Assigned, reference: U64): Assigned {
    if reference in before.ids then before
    else if reference in previous || reference in before.ids.Values then
      Assigned(before.ids[reference := before.next], SatAdd(before.next, 1))
    else Assigned(before.ids[reference := reference], before.next)
  }

  function AssignReferences(previous: set<U64>, start: Assigned, references: seq<U64>): Assigned {
    if references == [] then start
    else AssignReference(previous, AssignReferences(previous, start, references[..|references| - 1]),
                         references[|references| - 1])
  }

  function AssignAll(previous: seq<Directory>, current: seq<Directory>, references: seq<U64>, next: U64): Assigned {
    AssignReferences(DirectoryIds(previous), AssignDirectories(KnownDirectories(previous), current, next), references)
  }

  ghost predicate Covers(ids: IdMap, current: seq<Directory>, files: seq<File>, volumes: map<U64, Volume>) {
    && (forall i :: 0 <= i < |current| ==> CoversDirectory(ids, current[i]))
    && (forall i :: 0 <= i < |files| ==> files[i].parent in ids)
    && (forall v <- volumes :: volumes[v].root in ids)
  }

  predicate CoversDirectory(ids: IdMap, d: Directory) {
    d.id in ids && (d.parent.Some? ==> d.parent.value in ids)
  }

  function RenamedDirectory(d: Directory, ids: IdMap): Directory
    requires CoversDirectory(ids, d)
  {
    d.(id := ids[d.id], parent := match d.parent case Some(p) => Some(ids[p]) case None => None)
  }

  predicate Lists(order: seq<U64>, volumes: map<U64, Volume>) {
    (forall v <- order :: v in volumes) && (forall v <- volumes.Keys :: v in order)
  }

  function Roots(volumes: map<U64, Volume>, order: seq<U64>): (roots: seq<U64>)
    requires Lists(order, volumes)
    ensures |roots| == |order| && forall i :: 0 <= i < |order| ==> roots[i] == volumes[order[i]].root
  {
    seq(|order|, i requires 0 <= i < |order| => volumes[order[i]].root)
  }

  /** The ids that the remap settles on, for one listing of the volumes. */
  function SettledIds(previous: seq<Directory>, current: seq<Directory>, files: seq<File>, roots: seq<U64>): IdMap {
    AssignAll(previous, current, References(current, files, roots),
              NextDirectoryId(InUse(previous, current, files, roots))).ids
  }

  /** Every reference, wherever it stands, is replaced by the id it was settled on. */
  ghost predicate RenamedBy(ids: IdMap, current: seq<Directory>, files: seq<File>, volumes: map<U64, Volume>,
                            ds: seq<Directory>, fs: seq<File>, vs: map<U64, Volume>) {
    && Covers(ids, current, files, volumes)
    && |ds| == |current| && (forall i :: 0 <= i < |ds| ==> ds[i] == RenamedDirectory(current[i], ids))
    && |fs| == |files| && (forall i :: 0 <= i < |fs| ==> fs[i] == files[i].(parent := ids[files[i].parent]))
    && vs.Keys == volumes.Keys && (forall v <- vs :: vs[v] == volumes[v].(root := ids[volumes[v].root]))
  }

  method RemapCurrentDirectoryIdsByPath(previous: seq<Directory>, current: seq<Directory>, files: seq<File>,
                                        volumes: map<U64, Volume>, order: seq<U64>)
    returns (ds: seq<Directory>, fs: seq<File>, vs: map<U64, Volume>)
    requires Lists(order, volumes)
    ensures RenamedBy(SettledIds(previous, current, files, Roots(volumes, order)), current, files, volumes, ds, fs, vs)
  {
    hide InUse, NextDirectoryId;
    var roots := Roots(volumes, order);
    var next := NextDirectoryId(InUse(previous, current, files, roots));
    var settled := AssignEach(KnownDirectories(previous), current, next);
    settled := ResolveEach(DirectoryIds(previous), settled, References(current, files, roots));
    var ids := settled.ids;
    EverythingIsCovered(previous, current, files, volumes, order);
    ds, fs, vs := RenameAll(ids, current, files, volumes);
  }

  method RenameAll(ids: IdMap, current: seq<Directory>, files: seq<File>, volumes: map<U64, Volume>)
    returns (ds: seq<Directory>, fs: seq<File>, vs: map<U64, Volume>)
    requires Covers(ids, current, files, volumes)
    ensures RenamedBy(ids, current, files, volumes, ds, fs, vs)
  {
    ds, fs := current, files;
    for i := 0 to |current|
      invariant |ds| == |current|
      invariant forall k :: 0 <= k < |ds| ==> ds[k] == if k < i then RenamedDirectory(current[k], ids) else current[k]
    {
      ds := ds[i := RenamedDirectory(ds[i], ids)];
    }
    for i := 0 to |files|
      invariant |fs| == |files|
      invariant forall k ::
                  0 <= k < |fs| ==> fs[k] == if k < i then files[k].(parent := ids[files[k].parent]) else files[k]
    {
      fs := fs[i := fs[i].(parent := ids[fs[i].parent])];
    }
    vs := map v | v in volumes :: volumes[v].(root := ids[volumes[v].root]);
  }

  method AssignEach(known: IdsByPath, current: seq<Directory>, first: U64) returns (settled: Assigned)
    ensures settled == AssignDirectories(known, current, first)
  {
    settled := Assigned(map[], first);
    for i := 0 to |current|
      invariant settled == AssignDirectories(known, current[..i], first)
    {
      assert current[..i + 1][..i] == current[..i];
      if current[i].fullPath in known {
        settled := Assigned(settled.ids[current[i].id := known[current[i].fullPath]], settled.next);
      } else {
        settled := Assigned(settled.ids[current[i].id := settled.next], SatAdd(settled.next, 1));
      }
    }
    assert current[..|current|] == current;
  }

  method ResolveEach(previous: set<U64>, start: Assigned, references: seq<U64>) returns (settled: Assigned)
    ensures settled == AssignReferences(previous, start, references)
  {
    settled := start;
    for i := 0 to |references|
      invariant settled == AssignReferences(previous, start, references[..i])
    {
      assert references[..i + 1][..i] == references[..i];
      var reference := references[i];
      if reference !in settled.ids {
        if reference in previous || reference in settled.ids.Values {
          settled := Assigned(settled.ids[reference := settled.next], SatAdd(settled.next, 1));
        } else {
          settled := Assigned(settled.ids[reference := reference], settled.next);
        }
      }
    }
    assert references[..|references|] == references;
  }

  // ---------- Every reference is settled ----------

  lemma {:induction false} AssignedKeys(known: IdsByPath, current: seq<Directory>, next: U64, id: U64)
    ensures id in AssignDirectories(known, current, next).ids <==> exists i :: 0 <= i < |current| && current[i].id == id
  {
    if current != [] {
      var n := |current| - 1;
      AssignedKeys(known, current[..n], next, id);
      assert forall i :: 0 <= i < n ==> current[..n][i] == current[i];
    }
  }

  lemma {:induction false} ResolvedKeys(previous: set<U64>, start: Assigned, references: seq<U64>, id: U64)
    ensures id in AssignReferences(previous, start, references).ids <==> id in start.ids || id in references
  {
    if references != [] {
      var n := |references| - 1;
      ResolvedKeys(previous, start, references[..n], id);
      assert references == references[..n] + [references[n]];
    }
  }

  lemma {:induction false} ParentIsListed(ds: seq<Directory>, i: nat)
    requires i < |ds| && ds[i].parent.Some?
    ensures ds[i].parent.value in ParentList(ds)
  {
    if i < |ds| - 1 {
      ParentIsListed(ds[..|ds| - 1], i);
    }
  }

  lemma EverythingIsCovered(previous: seq<Directory>, current: seq<Directory>, files: seq<File>,
                            volumes: map<U64, Volume>, order: seq<U64>)
    requires Lists(order, volumes)
    ensures Covers(SettledIds(previous, current, files, Roots(volumes, order)), current, files, volumes)
  {
    hide AssignDirectories, AssignReferences, KnownDirectories, NextDirectoryId, InUse, ParentList, FileParentList;
    var roots := Roots(volumes, order);
    var references := References(current, files, roots);
    var next := NextDirectoryId(InUse(previous, current, files, roots));
    var start := AssignDirectories(KnownDirectories(previous), current, next);
    forall i | 0 <= i < |current| ensures CoversDirectory(SettledIds(previous, current, files, roots), current[i]) {
      AssignedKeys(KnownDirectories(previous), current, next, current[i].id);
      ResolvedKeys(DirectoryIds(previous), start, references, current[i].id);
      if current[i].parent.Some? {
        ParentIsListed(current, i);
        ResolvedKeys(DirectoryIds(previous), start, references, current[i].parent.value);
      }
    }
    forall i | 0 <= i < |files| ensures files[i].parent in SettledIds(previous, current, files, roots) {
      assert FileParentList(files)[i] == files[i].parent;
      ResolvedKeys(DirectoryIds(previous), start, references, files[i].parent);
    }
    forall v | v in volumes ensures volumes[v].root in SettledIds(previous, current, files, roots) {
      var k :| 0 <= k < |order| && order[k] == v;
      assert roots[k] in references;
      ResolvedKeys(DirectoryIds(previous), start, references, volumes[v].root);
    }
  }
}
