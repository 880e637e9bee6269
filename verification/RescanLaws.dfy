/** What a path-matched rescan guarantees about the stored files and about the reported changes. */
module RescanLaws {
  import opened Basics
  import opened Records
  import opened SortedMaps
  import opened FileDiff
  import opened PathRemap
  import opened StableIds
  import opened Rescan

  type File = FileRecord<string>
  type Directory = DirectoryRecord<string>

  // ---------- Snapshots list every record once ----------

  ghost predicate KeyedFiles(t: Transaction) {
    forall id <- t.files :: t.files[id].id == id
  }

  ghost predicate WellKeyed(t: Transaction) {
    KeyedFiles(t) && UniqueDirectories(t.directories)
  }

  lemma ListedAt(t: Transaction, i: nat)
    requires KeyedFiles(t) && i < |t.files|
    ensures FilesWithPaths(t)[i].id == SortedKeys(t.files.Keys)[i] && FilesWithPaths(t)[i].id in t.files
    ensures FilesWithPaths(t)[i] == WithPath(t.directories, t.files[FilesWithPaths(t)[i].id])
  {
    SortedKeysAre(t.files.Keys);
    assert SortedKeys(t.files.Keys)[i] in SortedKeys(t.files.Keys);
  }

  lemma ListedIdsRise(t: Transaction)
    requires KeyedFiles(t)
    ensures RisingIds(FilesWithPaths(t)) && UniqueIds(FilesWithPaths(t))
  {
    var files, keys := FilesWithPaths(t), SortedKeys(t.files.Keys);
    SortedKeysAre(t.files.Keys);
    forall i | 0 <= i < |files| ensures files[i].id == keys[i] {
      ListedAt(t, i);
    }
  }

  lemma ListedById(t: Transaction, id: U64)
    requires KeyedFiles(t)
    ensures id in ById(FilesWithPaths(t)) <==> id in t.files
    ensures id in t.files ==> ById(FilesWithPaths(t))[id] == WithPath(t.directories, t.files[id])
  {
    hide ById, FilesWithPaths, WithPath;
    var files := FilesWithPaths(t);
    ByIdFinds(files, id);
    ListedIdsRise(t);
    SortedKeysAre(t.files.Keys);
    if id in t.files {
      assert id in SortedKeys(t.files.Keys);
      var i :| 0 <= i < |t.files| && SortedKeys(t.files.Keys)[i] == id;
      ListedAt(t, i);
    }
    if id in ById(files) {
      var i :| 0 <= i < |files| && files[i].id == id;
      ListedAt(t, i);
    }
  }

  lemma StoredAsListed(t: Transaction)
    requires KeyedFiles(t)
    ensures StoredAs(t.files, FilesWithPaths(t))
  {
    hide ById, FilesWithPaths;
    ListedIdsRise(t);
    forall id: U64
      ensures id in ById(FilesWithPaths(t)) <==> id in t.files
      ensures id in t.files ==> t.files[id] == ById(FilesWithPaths(t))[id].(fullPath := t.files[id].fullPath)
    {
      ListedById(t, id);
    }
    assert t.files.Keys == ById(FilesWithPaths(t)).Keys;
  }

  lemma DirectoriesByIdFinds(ds: seq<Directory>, id: U64)
    requires UniqueDirectories(ds)
    ensures id in DirectoriesById(ds) <==> exists i :: 0 <= i < |ds| && ds[i].id == id
    ensures forall i :: 0 <= i < |ds| && ds[i].id == id ==> DirectoriesById(ds)[id] == ds[i]
  {
    CollectedAt(ds, DirectoryId, id);
    if i :| 0 <= i < |ds| && ds[i].id == id {
      assert DirectoryId(ds[i]) == id;
    }
  }

  lemma DirectoryListedAt(t: Transaction, i: nat)
    requires WellKeyed(t) && i < |SnapshotDirectories(t)|
    ensures SnapshotDirectories(t)[i].id == SortedKeys(DirectoriesById(t.directories).Keys)[i]
  {
    var m := DirectoriesById(t.directories);
    SortedKeysAre(m.Keys);
    var id := SortedKeys(m.Keys)[i];
    assert id in SortedKeys(m.Keys);
    DirectoriesByIdFinds(t.directories, id);
  }

  lemma DirectoriesListed(t: Transaction)
    requires WellKeyed(t)
    ensures UniqueDirectories(SnapshotDirectories(t))
  {
    hide DirectoriesById;
    SortedKeysAre(DirectoriesById(t.directories).Keys);
    forall i | 0 <= i < |SnapshotDirectories(t)|
      ensures SnapshotDirectories(t)[i].id == SortedKeys(DirectoriesById(t.directories).Keys)[i]
    {
      DirectoryListedAt(t, i);
    }
  }

  lemma DirectoryIsListed(t: Transaction, d: Directory) returns (i: nat)
    requires WellKeyed(t) && d in t.directories
    ensures i < |SnapshotDirectories(t)| && SnapshotDirectories(t)[i] == d
  {
    hide DirectoriesById, SortedKeys, UniqueDirectories;
    var m := DirectoriesById(t.directories);
    DirectoriesByIdFinds(t.directories, d.id);
    SortedKeysAre(m.Keys);
    assert d.id in m.Keys && d.id in SortedKeys(m.Keys);
    i :| 0 <= i < |SortedKeys(m.Keys)| && SortedKeys(m.Keys)[i] == d.id;
  }

  // ---------- The files of the new scan, renumbered ----------

  ghost predicate UniquePaths(files: seq<File>) {
    forall i, j :: 0 <= i < j < |files| ==> files[i].fullPath != files[j].fullPath
  }

  /** Two scans with unique non-empty paths, and no id at the end of its range. */
  ghost predicate Rescannable(s: Transaction, t: Transaction, order: seq<U64>) {
    && WellKeyed(s) && WellKeyed(t) && Lists(order, t.volumes)
    && UniquePaths(FilesWithPaths(s)) && UniquePaths(FilesWithPaths(t))
    && (forall f <- FilesWithPaths(t) :: f.fullPath != "")
    && FileIdsSuffice(FilesWithPaths(s), FilesWithPaths(t))
  }

  ghost function MatchedFiles(s: Transaction, t: Transaction): seq<File> {
    RemapFiles(KnownFiles(FilesWithPaths(s)), FilesWithPaths(t), NextFileId(FilesWithPaths(s), FilesWithPaths(t))).files
  }

  ghost function FinalIds(s: Transaction, t: Transaction, order: seq<U64>): IdMap
    requires Lists(order, t.volumes)
  {
    SettledIds(s.directories, SnapshotDirectories(t), MatchedFiles(s, t), Roots(t.volumes, order))
  }

  lemma FinalIdsCover(s: Transaction, t: Transaction, order: seq<U64>)
    requires Lists(order, t.volumes)
    ensures Covers(FinalIds(s, t, order), SnapshotDirectories(t), MatchedFiles(s, t), t.volumes)
  {
    EverythingIsCovered(s.directories, SnapshotDirectories(t), MatchedFiles(s, t), t.volumes, order);
  }

  /** The files of the new scan under their final ids. */
  ghost function FinalFiles(s: Transaction, t: Transaction, order: seq<U64>): seq<File>
    requires Lists(order, t.volumes)
  {
    FinalIdsCover(s, t, order);
    RenamedFiles(MatchedFiles(s, t), FinalIds(s, t, order))
  }

  /** A final file is the scanned one except for its ids; its own id is that of the stored file with its path, if
      there is one. */
  ghost predicate FinalFile(s: Transaction, t: Transaction, order: seq<U64>, scanned: File, after: File)
    requires Lists(order, t.volumes)
  {
    var previous, ids := FilesWithPaths(s), FinalIds(s, t, order);
    && scanned.parent in ids && after == scanned.(id := after.id, parent := ids[scanned.parent])
    && forall k :: 0 <= k < |previous| ==> (previous[k].id == after.id <==> previous[k].fullPath == scanned.fullPath)
  }

  lemma MatchedFilesAre(s: Transaction, t: Transaction, order: seq<U64>)
    requires Rescannable(s, t, order)
    ensures var previous, scanned, files := FilesWithPaths(s), FilesWithPaths(t), MatchedFiles(s, t);
            && |files| == |scanned| && UniqueIds(files)
            && forall i :: 0 <= i < |files| ==>
                 files[i] == scanned[i].(id := files[i].id)
                 && forall k ::
                      0 <= k < |previous| ==>
                        (previous[k].id == files[i].id <==> previous[k].fullPath == scanned[i].fullPath)
  {
    hide FilesWithPaths, RemapFiles, KnownFiles;
    var previous, scanned := FilesWithPaths(s), FilesWithPaths(t);
    var known, next := KnownFiles(previous), NextFileId(previous, scanned);
    ListedIdsRise(s);
    KnownFilesInjective(previous, scanned);
    RemapFilesAre(known, scanned, next);
    RemappedFilesAreUnique(known, scanned, next);
    var r := RemapFiles(known, scanned, next);
    forall i | 0 <= i < |scanned| ensures RemappedFile(known, scanned[i], r.files[i], next, r.next) {
    }
    MaxFileIdIs(previous);
    forall i, k | 0 <= i < |scanned| && 0 <= k < |previous|
      ensures previous[k].id == r.files[i].id <==> previous[k].fullPath == scanned[i].fullPath
    {
      KnownFilesAre(previous, scanned[i].fullPath);
      assert RemappedFile(known, scanned[i], r.files[i], next, r.next);
    }
  }

  lemma FinalFilesAre(s: Transaction, t: Transaction, order: seq<U64>)
    requires Rescannable(s, t, order)
    ensures var scanned, files := FilesWithPaths(t), FinalFiles(s, t, order);
            && |files| == |scanned| && UniqueIds(files)
            && forall i :: 0 <= i < |files| ==> FinalFile(s, t, order, scanned[i], files[i])
  {
    hide FilesWithPaths, MatchedFiles, FinalIds;
    MatchedFilesAre(s, t, order);
    FinalIdsCover(s, t, order);
  }

  // ---------- The stored files are the new scan's ----------

  lemma FinalFilesHavePaths(s: Transaction, t: Transaction, order: seq<U64>, id: U64)
    requires Rescannable(s, t, order) && id in ById(FinalFiles(s, t, order))
    ensures ById(FinalFiles(s, t, order))[id].id == id && ById(FinalFiles(s, t, order))[id].fullPath != ""
  {
    hide ById, FilesWithPaths, FinalFiles;
    var files := FinalFiles(s, t, order);
    FinalFilesAre(s, t, order);
    ByIdFinds(files, id);
    var i :| 0 <= i < |files| && files[i] == ById(files)[id];
    assert FinalFile(s, t, order, FilesWithPaths(t)[i], files[i]);
    assert FilesWithPaths(t)[i] in FilesWithPaths(t);
  }

  lemma ListedWithPaths(u: Transaction)
    requires KeyedFiles(u) && forall id <- u.files :: u.files[id].fullPath != ""
    ensures ById(FilesWithPaths(u)) == u.files
  {
    hide ById, FilesWithPaths;
    forall id: U64
      ensures id in ById(FilesWithPaths(u)) <==> id in u.files
      ensures id in u.files ==> ById(FilesWithPaths(u))[id] == u.files[id]
    {
      ListedById(u, id);
    }
  }

  /** The renumbered scan lists the final files, in the order of their ids. */
  lemma RematchedById(s: Transaction, t: Transaction, order: seq<U64>)
    requires Rescannable(s, t, order)
    ensures ById(FilesWithPaths(Rematched(s, t, order))) == ById(FinalFiles(s, t, order))
    ensures KeyedFiles(Rematched(s, t, order))
  {
    var u, files := Rematched(s, t, order), FinalFiles(s, t, order);
    assert u.files == ById(files);
    hide ById, FilesWithPaths, FinalFiles, Rematched, Rescannable;
    forall id | id in u.files ensures u.files[id].id == id && u.files[id].fullPath != "" {
      FinalFilesHavePaths(s, t, order, id);
    }
    ListedWithPaths(u);
  }

  /** After a rescan the store holds the files of the new scan, up to ids and stored paths, and no others. */
  lemma StoredFilesAreTheNewScan(s: Transaction, t: Transaction, order: seq<U64>)
    requires Rescannable(s, t, order)
    ensures var scanned, files := FilesWithPaths(t), FinalFiles(s, t, order);
            && |files| == |scanned| && (forall i :: 0 <= i < |files| ==> FinalFile(s, t, order, scanned[i], files[i]))
            && StoredAs(Merged(s, Rematched(s, t, order)).files, files)
  {
    hide ById, FilesWithPaths, FinalFiles, Rematched, Changes, ApplyChanges, FinalFile;
    var u := Rematched(s, t, order);
    FinalFilesAre(s, t, order);
    RematchedById(s, t, order);
    StoredAsListed(s);
    ListedIdsRise(u);
    AppliedIsCurrent(s.files, FilesWithPaths(s), FilesWithPaths(u));
  }

  /** When the ids stay different, the store holds the directories of the new scan with their ids replaced. */
  lemma StoredDirectoriesAreTheNewScan(s: Transaction, t: Transaction, order: seq<U64>, d: Directory)
    requires WellKeyed(t) && Lists(order, t.volumes) && InjectiveIds(FinalIds(s, t, order)) && d in t.directories
    ensures var ids := FinalIds(s, t, order);
            && d.id in ids && (d.parent.Some? ==> d.parent.value in ids)
            && d.(id := ids[d.id], parent := match d.parent case Some(p) => Some(ids[p]) case None => None)
               in Rematched(s, t, order).directories
  {
    FinalIdsCover(s, t, order);
    DirectoriesListed(t);
    var i := DirectoryIsListed(t, d);
    var ids, current := FinalIds(s, t, order), SnapshotDirectories(t);
    hide SnapshotDirectories, FinalIds, MatchedFiles, Collect;
    assert CoversDirectory(ids, current[i]);
    var renamed := seq(|current|, k requires 0 <= k < |current| => RenamedDirectory(current[k], ids));
    forall j, k | 0 <= j < k < |renamed| ensures renamed[j].id != renamed[k].id {
      assert CoversDirectory(ids, current[j]) && CoversDirectory(ids, current[k]);
    }
    CollectKeeps(renamed);
    RenumberedDirectories(s, t, order);
    assert renamed[i] in renamed;
  }

  lemma RenumberedDirectories(s: Transaction, t: Transaction, order: seq<U64>)
    requires Lists(order, t.volumes)
    ensures Covers(FinalIds(s, t, order), SnapshotDirectories(t), MatchedFiles(s, t), t.volumes)
    ensures var ids, current := FinalIds(s, t, order), SnapshotDirectories(t);
            Rematched(s, t, order).directories ==
            Collect(seq(|current|, k requires 0 <= k < |current| => RenamedDirectory(current[k], ids)))
  {
    FinalIdsCover(s, t, order);
  }

  // ---------- The reported changes are the differences in paths ----------

  ghost function RescanChanges(s: Transaction, t: Transaction, order: seq<U64>): seq<Change>
    requires Lists(order, t.volumes)
  {
    Changes(FilesWithPaths(s), FilesWithPaths(Rematched(s, t, order)))
  }

  /** A stored and a final file have the same id exactly when they have the same path. */
  lemma SameIdSamePath(s: Transaction, t: Transaction, order: seq<U64>, k: nat, i: nat)
    requires Rescannable(s, t, order) && k < |FilesWithPaths(s)| && i < |FinalFiles(s, t, order)|
    ensures i < |FilesWithPaths(t)| && FinalFiles(s, t, order)[i].fullPath == FilesWithPaths(t)[i].fullPath
    ensures FilesWithPaths(s)[k].id == FinalFiles(s, t, order)[i].id <==>
            FilesWithPaths(s)[k].fullPath == FilesWithPaths(t)[i].fullPath
  {
    hide FilesWithPaths, FinalFiles;
    FinalFilesAre(s, t, order);
    assert FinalFile(s, t, order, FilesWithPaths(t)[i], FinalFiles(s, t, order)[i]);
  }

  lemma ChangeHas(s: Transaction, t: Transaction, order: seq<U64>, change: Change)
    requires Rescannable(s, t, order) && change in RescanChanges(s, t, order)
    ensures var p, c, id := ById(FilesWithPaths(s)), ById(FinalFiles(s, t, order)), change.file;
            if id in c then ChangeOf(p, c[id]) == Some(change) && change.kind != Removed
            else id in p && change == RemovalOf(p[id])
  {
    hide ById, FilesWithPaths, FinalFiles, Rematched, Changes, ChangeOf, RemovalOf;
    RematchedById(s, t, order);
    ListedIdsRise(s);
    ListedIdsRise(Rematched(s, t, order));
    MentionedWhy(FilesWithPaths(s), FilesWithPaths(Rematched(s, t, order)), change);
  }

  lemma ChangeFor(s: Transaction, t: Transaction, order: seq<U64>, id: U64)
    requires Rescannable(s, t, order)
    ensures var p, c := ById(FilesWithPaths(s)), ById(FinalFiles(s, t, order));
            && (id in c && ChangeOf(p, c[id]).Some? ==> ChangeOf(p, c[id]).value in RescanChanges(s, t, order))
            && (id !in c && id in p ==> RemovalOf(p[id]) in RescanChanges(s, t, order))
  {
    hide ById, FilesWithPaths, FinalFiles, Rematched, ChangeOf, RemovalOf, CurrentChanges, Removals;
    var p, c, u := ById(FilesWithPaths(s)), ById(FinalFiles(s, t, order)), Rematched(s, t, order);
    RematchedById(s, t, order);
    ListedIdsRise(s);
    if id in c && ChangeOf(p, c[id]).Some? {
      ByIdFinds(FilesWithPaths(u), id);
      var i :| 0 <= i < |FilesWithPaths(u)| && FilesWithPaths(u)[i] == c[id];
      CurrentChangesAre(p, FilesWithPaths(u), ChangeOf(p, c[id]).value);
    }
    if id !in c && id in p {
      ByIdFinds(FilesWithPaths(s), id);
      var k :| 0 <= k < |FilesWithPaths(s)| && FilesWithPaths(s)[k] == p[id];
      RemovalsAre(c, FilesWithPaths(s), RemovalOf(p[id]));
    }
  }

  ghost predicate HasPath(files: seq<File>, path: string) {
    exists i :: 0 <= i < |files| && files[i].fullPath == path
  }

  /** The files reported as added are those whose path is new. */
  lemma AddedAreNewPaths(s: Transaction, t: Transaction, order: seq<U64>, path: string)
    requires Rescannable(s, t, order)
    ensures (exists c :: c in RescanChanges(s, t, order) && c.kind == Added && c.currentPath == Some(path)) <==>
            HasPath(FilesWithPaths(t), path) && !HasPath(FilesWithPaths(s), path)
  {
    hide ById, FilesWithPaths, FinalFiles, RescanChanges;
    var previous, files := FilesWithPaths(s), FinalFiles(s, t, order);
    FinalFilesAre(s, t, order);
    if c :| c in RescanChanges(s, t, order) && c.kind == Added && c.currentPath == Some(path) {
      ChangeHas(s, t, order, c);
      ByIdFinds(files, c.file);
      var i :| 0 <= i < |files| && files[i] == ById(files)[c.file];
      NewIsAdded(previous, files[i]);
      if k :| 0 <= k < |previous| && previous[k].fullPath == path {
        SameIdSamePath(s, t, order, k, i);
        ByIdFinds(previous, c.file);
      }
      PathOfFinal(s, t, order, i);
    }
    if i :| 0 <= i < |FilesWithPaths(t)| && FilesWithPaths(t)[i].fullPath == path {
      if !HasPath(previous, path) {
        PathOfFinal(s, t, order, i);
        var id := files[i].id;
        ByIdFinds(files, id);
        ByIdFinds(previous, id);
        forall k | 0 <= k < |previous| ensures previous[k].id != id {
          SameIdSamePath(s, t, order, k, i);
        }
        NewIsAdded(previous, files[i]);
        ChangeFor(s, t, order, id);
      }
    }
  }

  lemma PathOfFinal(s: Transaction, t: Transaction, order: seq<U64>, i: nat)
    requires Rescannable(s, t, order) && i < |FilesWithPaths(t)|
    ensures i < |FinalFiles(s, t, order)| && FinalFiles(s, t, order)[i].fullPath == FilesWithPaths(t)[i].fullPath
  {
    hide FilesWithPaths, FinalFiles;
    FinalFilesAre(s, t, order);
    assert FinalFile(s, t, order, FilesWithPaths(t)[i], FinalFiles(s, t, order)[i]);
  }

  /** A change reports an addition exactly when the id was not there before. */
  lemma NewIsAdded(previous: seq<File>, f: File)
    ensures f.id !in ById(previous) <==>
              ChangeOf(ById(previous), f).Some? && ChangeOf(ById(previous), f).value.kind == Added
    ensures ChangeOf(ById(previous), f).Some? ==> ChangeOf(ById(previous), f).value.currentPath == Some(f.fullPath)
  {
  }

  /** The files reported as removed are those whose path is gone. */
  lemma RemovedAreLostPaths(s: Transaction, t: Transaction, order: seq<U64>, path: string)
    requires Rescannable(s, t, order)
    ensures (exists c :: c in RescanChanges(s, t, order) && c.kind == Removed && c.previousPath == Some(path)) <==>
            HasPath(FilesWithPaths(s), path) && !HasPath(FilesWithPaths(t), path)
  {
    hide ById, FilesWithPaths, FinalFiles, RescanChanges;
    var previous, files := FilesWithPaths(s), FinalFiles(s, t, order);
    FinalFilesAre(s, t, order);
    ListedIdsRise(s);
    if c :| c in RescanChanges(s, t, order) && c.kind == Removed && c.previousPath == Some(path) {
      ChangeHas(s, t, order, c);
      ByIdFinds(previous, c.file);
      var k :| 0 <= k < |previous| && previous[k] == ById(previous)[c.file];
      if i :| 0 <= i < |FilesWithPaths(t)| && FilesWithPaths(t)[i].fullPath == path {
        SameIdSamePath(s, t, order, k, i);
        ByIdFinds(files, c.file);
      }
    }
    if k :| 0 <= k < |previous| && previous[k].fullPath == path {
      if !HasPath(FilesWithPaths(t), path) {
        var id := previous[k].id;
        ByIdFinds(previous, id);
        ByIdFinds(files, id);
        forall i | 0 <= i < |files| ensures files[i].id != id {
          SameIdSamePath(s, t, order, k, i);
        }
        ChangeFor(s, t, order, id);
      }
    }
  }

  // ---------- Nothing is reported exactly when nothing changed ----------

  /** Every file lies in a known directory. */
  ghost predicate KnownParents(t: Transaction) {
    forall f <- FilesWithPaths(t) :: Find(t.directories, f.parent).Some?
  }

  /** Directories always carry their full path, and no two the same. */
  ghost predicate UniqueDirectoryPaths(ds: seq<Directory>) {
    && (forall d <- ds :: d.fullPath != "")
    && (forall i, j :: 0 <= i < j < |ds| ==> ds[i].fullPath != ds[j].fullPath)
  }

  ghost function ParentPath(t: Transaction, f: File): string
    requires Find(t.directories, f.parent).Some?
  {
    Find(t.directories, f.parent).value.fullPath
  }

  /** The same file as far as anybody can see who does not look at ids. */
  ghost predicate SameFile(s: Transaction, a: File, t: Transaction, b: File)
    requires Find(s.directories, a.parent).Some? && Find(t.directories, b.parent).Some?
  {
    && a.name == b.name && a.size == b.size && a.allocation == b.allocation && a.attributes == b.attributes
    && a.created == b.created && a.modified == b.modified && a.accessed == b.accessed
    && ParentPath(s, a) == ParentPath(t, b)
  }

  /** The two scans describe the same files, whatever the ids. */
  ghost predicate SameCatalog(s: Transaction, t: Transaction)
    requires KnownParents(s) && KnownParents(t)
  {
    && (forall k :: 0 <= k < |FilesWithPaths(s)| ==> HasPath(FilesWithPaths(t), FilesWithPaths(s)[k].fullPath))
    && (forall i :: 0 <= i < |FilesWithPaths(t)| ==> HasPath(FilesWithPaths(s), FilesWithPaths(t)[i].fullPath))
    && (forall k, i :: 0 <= k < |FilesWithPaths(s)| && 0 <= i < |FilesWithPaths(t)|
                       && FilesWithPaths(s)[k].fullPath == FilesWithPaths(t)[i].fullPath ==>
          SameFile(s, FilesWithPaths(s)[k], t, FilesWithPaths(t)[i]))
  }

  ghost predicate Comparable(s: Transaction, t: Transaction, order: seq<U64>) {
    && Rescannable(s, t, order) && KnownParents(s) && KnownParents(t) && UniqueDirectoryPaths(s.directories)
    && DirectoryIdsSuffice(s.directories, SnapshotDirectories(t), MatchedFiles(s, t), Roots(t.volumes, order))
  }

  /** A stored parent and a renumbered one are the same directory exactly when their paths agree. */
  lemma ParentsAgree(s: Transaction, t: Transaction, order: seq<U64>, a: File, b: File)
    requires Comparable(s, t, order) && a in FilesWithPaths(s) && b in FilesWithPaths(t)
    ensures b.parent in FinalIds(s, t, order)
    ensures a.parent == FinalIds(s, t, order)[b.parent] <==> ParentPath(s, a) == ParentPath(t, b)
  {
    hide FilesWithPaths, MatchedFiles, SnapshotDirectories, KnownDirectories, DirectoryIdsSuffice, SettledIds;
    hide FileIdsSuffice, UniquePaths;
    var known := KnownDirectories(s.directories);
    var p, q := Find(s.directories, a.parent).value, Find(t.directories, b.parent).value;
    DirectoriesListed(t);
    var i := DirectoryIsListed(t, q);
    DirectoryKeepsId(s.directories, SnapshotDirectories(t), MatchedFiles(s, t), Roots(t.volumes, order), i);
    KnownDirectoriesAre(s.directories, p.fullPath);
    KnownDirectoriesAre(s.directories, q.fullPath);
    assert p.id in DirectoryIds(s.directories);
  }

  lemma EqualToFinal(s: Transaction, t: Transaction, order: seq<U64>, k: nat, i: nat)
    requires Comparable(s, t, order) && k < |FilesWithPaths(s)| && i < |FinalFiles(s, t, order)|
             && i < |FilesWithPaths(t)|
    ensures var a, c := FilesWithPaths(s)[k], FinalFiles(s, t, order)[i];
            a == c.(id := a.id, fullPath := a.fullPath) <==> SameFile(s, a, t, FilesWithPaths(t)[i])
  {
    hide FilesWithPaths, FinalFiles, FinalIds, Find, FileIdsSuffice, DirectoryIdsSuffice, UniquePaths, ParentPath;
    var a, b := FilesWithPaths(s)[k], FilesWithPaths(t)[i];
    assert a in FilesWithPaths(s) && b in FilesWithPaths(t);
    FinalFilesAre(s, t, order);
    assert FinalFile(s, t, order, b, FinalFiles(s, t, order)[i]);
    ParentsAgree(s, t, order, a, b);
  }

  lemma MentionedDiffers(s: Transaction, t: Transaction, order: seq<U64>, id: U64)
    requires Rescannable(s, t, order)
    ensures var p, c := ById(FilesWithPaths(s)), ById(FinalFiles(s, t, order));
            Mentions(RescanChanges(s, t, order), id) <==>
            if id in p && id in c then p[id] != c[id].(fullPath := p[id].fullPath) else id in p || id in c
  {
    hide ById, FilesWithPaths, FinalFiles, Rematched, Changes;
    RematchedById(s, t, order);
    ListedIdsRise(s);
    ListedIdsRise(Rematched(s, t, order));
    ChangesMention(FilesWithPaths(s), FilesWithPaths(Rematched(s, t, order)), id);
  }

  /** A stored file is not mentioned exactly when the scan has the same file under the same path. */
  lemma StoredMentioned(s: Transaction, t: Transaction, order: seq<U64>, k: nat)
    requires Comparable(s, t, order) && k < |FilesWithPaths(s)|
    ensures !Mentions(RescanChanges(s, t, order), FilesWithPaths(s)[k].id) <==>
            exists i :: 0 <= i < |FilesWithPaths(t)| && FilesWithPaths(t)[i].fullPath == FilesWithPaths(s)[k].fullPath
                        && SameFile(s, FilesWithPaths(s)[k], t, FilesWithPaths(t)[i])
  {
    hide ById, FilesWithPaths, FinalFiles, RescanChanges, SameFile, Mentions, DirectoryIdsSuffice;
    hide FileIdsSuffice;
    var previous, scanned, files := FilesWithPaths(s), FilesWithPaths(t), FinalFiles(s, t, order);
    var id := previous[k].id;
    FinalFilesAre(s, t, order);
    ListedIdsRise(s);
    MentionedDiffers(s, t, order, id);
    ByIdFinds(previous, id);
    ByIdFinds(files, id);
    forall i | 0 <= i < |files|
      ensures files[i].id == id <==> scanned[i].fullPath == previous[k].fullPath
      ensures previous[k] == files[i].(id := previous[k].id, fullPath := previous[k].fullPath) <==>
              SameFile(s, previous[k], t, scanned[i])
    {
      SameIdSamePath(s, t, order, k, i);
      EqualToFinal(s, t, order, k, i);
    }
  }

  /** The change set is empty exactly when both scans describe the same files: renumbering alone is no change. */
  lemma NoChangesExactly(s: Transaction, t: Transaction, order: seq<U64>)
    requires Comparable(s, t, order)
    ensures RescanChanges(s, t, order) == [] <==> SameCatalog(s, t)
  {
    if SameCatalog(s, t) {
      SameCatalogIsQuiet(s, t, order);
    }
    if RescanChanges(s, t, order) == [] {
      QuietIsSameCatalog(s, t, order);
    }
  }

  lemma SameCatalogIsQuiet(s: Transaction, t: Transaction, order: seq<U64>)
    requires Comparable(s, t, order) && SameCatalog(s, t)
    ensures RescanChanges(s, t, order) == []
  {
    hide FilesWithPaths, RescanChanges, SameCatalog, KnownParents, UniquePaths, FileIdsSuffice, DirectoryIdsSuffice;
    hide UniqueDirectoryPaths;
    var changes := RescanChanges(s, t, order);
    if changes != [] {
      var c := changes[0];
      assert c in changes && Mentions(changes, c.file);
      var k := MentionedIsOld(s, t, order, c);
      StoredIsQuiet(s, t, order, k);
    }
  }

  lemma StoredIsQuiet(s: Transaction, t: Transaction, order: seq<U64>, k: nat)
    requires Comparable(s, t, order) && SameCatalog(s, t) && k < |FilesWithPaths(s)|
    ensures !Mentions(RescanChanges(s, t, order), FilesWithPaths(s)[k].id)
  {
    hide FilesWithPaths, RescanChanges, SameFile, Rescannable, DirectoryIdsSuffice, Mentions;
    StoredMentioned(s, t, order, k);
  }

  lemma MentionedIsOld(s: Transaction, t: Transaction, order: seq<U64>, c: Change) returns (k: nat)
    requires Comparable(s, t, order) && SameCatalog(s, t) && c in RescanChanges(s, t, order)
    ensures k < |FilesWithPaths(s)| && FilesWithPaths(s)[k].id == c.file
  {
    hide ById, FilesWithPaths, FinalFiles, RescanChanges, SameFile, SameCatalog, DirectoryIdsSuffice, ChangeOf;
    hide RemovalOf, KnownParents, UniquePaths, FileIdsSuffice;
    var previous, files := FilesWithPaths(s), FinalFiles(s, t, order);
    ChangeHas(s, t, order, c);
    ByIdFinds(files, c.file);
    if c.file in ById(files) {
      var i :| 0 <= i < |files| && files[i].id == c.file;
      k := StoredOfFinal(s, t, order, i);
    } else {
      ByIdFinds(previous, c.file);
      k :| 0 <= k < |previous| && previous[k].id == c.file;
    }
  }

  lemma StoredOfFinal(s: Transaction, t: Transaction, order: seq<U64>, i: nat) returns (k: nat)
    requires Comparable(s, t, order) && SameCatalog(s, t) && i < |FinalFiles(s, t, order)|
    ensures k < |FilesWithPaths(s)| && FilesWithPaths(s)[k].id == FinalFiles(s, t, order)[i].id
  {
    hide FilesWithPaths, FinalFiles, SameFile, Rescannable, DirectoryIdsSuffice, KnownParents, FinalFile;
    FinalFilesAre(s, t, order);
    assert HasPath(FilesWithPaths(s), FilesWithPaths(t)[i].fullPath);
    k :| 0 <= k < |FilesWithPaths(s)| && FilesWithPaths(s)[k].fullPath == FilesWithPaths(t)[i].fullPath;
    SameIdSamePath(s, t, order, k, i);
  }

  lemma QuietIsSameCatalog(s: Transaction, t: Transaction, order: seq<U64>)
    requires Comparable(s, t, order) && RescanChanges(s, t, order) == []
    ensures SameCatalog(s, t)
  {
    hide FilesWithPaths, RescanChanges, SameFile, FileIdsSuffice, DirectoryIdsSuffice, UniqueDirectoryPaths, WellKeyed;
    hide Find;
    var previous, scanned := FilesWithPaths(s), FilesWithPaths(t);
    forall k | 0 <= k < |previous|
      ensures HasPath(scanned, previous[k].fullPath)
      ensures forall i ::
                0 <= i < |scanned| && previous[k].fullPath == scanned[i].fullPath ==>
                  SameFile(s, previous[k], t, scanned[i])
    {
      StoredMentioned(s, t, order, k);
      var j :| 0 <= j < |scanned| && scanned[j].fullPath == previous[k].fullPath
        && SameFile(s, previous[k], t, scanned[j]);
      assert forall i :: 0 <= i < |scanned| && scanned[i].fullPath == scanned[j].fullPath ==> i == j;
    }
    forall i | 0 <= i < |scanned| ensures HasPath(previous, scanned[i].fullPath) {
      AddedAreNewPaths(s, t, order, scanned[i].fullPath);
    }
  }
}
