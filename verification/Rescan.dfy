/**
 The path-matched rescan: a new scan, whose ids depend on scheduling, is renumbered after the stored one, compared
 with it file by file, and merged into it.
 */
module Rescan {
  import opened Basics
  import opened Paths
  import opened Records
  import opened SortedMaps
  import opened FileDiff
  import opened PathRemap
  import opened StableIds

  type File = FileRecord<string>
  type Directory = DirectoryRecord<string>
  type Volume = VolumeRecord<string>
  type Session = ScanSession<string>

  datatype Transaction = Transaction(
    volumes: map<U64, Volume>, sessions: map<U64, Session>, directories: seq<Directory>, files: FilesById,
    lineages: seq<Lineage>, fileChanges: seq<seq<Change>>, committed: bool)

  // ---------- Directories by id ----------

  function Find(ds: seq<Directory>, id: U64): (found: Option<Directory>)
    ensures found.Some? ==> found.value in ds && found.value.id == id
    ensures found.None? ==> forall d <- ds :: d.id != id
  {
    if ds == [] then None else if ds[0].id == id then Some(ds[0]) else Find(ds[1..], id)
  }

  /** A record with a known id takes the place of the former one. */
  function Upsert(ds: seq<Directory>, d: Directory): seq<Directory> {
    if ds == [] then [d] else if ds[0].id == d.id then [d] + ds[1..] else [ds[0]] + Upsert(ds[1..], d)
  }

  function Collect(ds: seq<Directory>): seq<Directory> {
    if ds == [] then [] else Upsert(Collect(ds[..|ds| - 1]), ds[|ds| - 1])
  }

  lemma {:induction false} UpsertFinds(ds: seq<Directory>, d: Directory, id: U64)
    ensures Find(Upsert(ds, d), id) == if id == d.id then Some(d) else Find(ds, id)
  {
    if ds != [] && ds[0].id != d.id {
      UpsertFinds(ds[1..], d, id);
    }
  }

  lemma {:induction false} UpsertAppends(ds: seq<Directory>, d: Directory)
    requires forall e <- ds :: e.id != d.id
    ensures Upsert(ds, d) == ds + [d]
  {
    if ds != [] {
      assert ds[0] in ds && forall e <- ds[1..] :: e in ds;
      UpsertAppends(ds[1..], d);
      assert ds == [ds[0]] + ds[1..];
    }
  }

  ghost predicate IsLastOf(ds: seq<Directory>, i: int, d: Directory) {
    0 <= i < |ds| && ds[i] == d && forall j :: i < j < |ds| ==> ds[j].id != d.id
  }

  lemma FoundHasId(ds: seq<Directory>, id: U64)
    ensures Find(ds, id).Some? ==> Find(ds, id).value.id == id
  {
  }

  /** Of several directories with an id the last one is kept. */
  lemma {:induction false} CollectFinds(ds: seq<Directory>, id: U64)
    ensures Find(Collect(ds), id).None? ==> forall d <- ds :: d.id != id
    ensures Find(Collect(ds), id).Some? ==> exists i :: IsLastOf(ds, i, Find(Collect(ds), id).value)
  {
    if ds != [] {
      var n := |ds| - 1;
      CollectFinds(ds[..n], id);
      UpsertFinds(Collect(ds[..n]), ds[n], id);
      hide Find, Collect, Upsert;
      assert ds == ds[..n] + [ds[n]];
      if ds[n].id != id && Find(Collect(ds[..n]), id).Some? {
        var i :| IsLastOf(ds[..n], i, Find(Collect(ds[..n]), id).value);
        FoundHasId(Collect(ds[..n]), id);
        assert IsLastOf(ds, i, Find(Collect(ds), id).value);
      } else if ds[n].id == id {
        assert IsLastOf(ds, n, ds[n]);
      }
    }
  }

  /** Directories with different ids stay as they are listed. */
  lemma {:induction false} CollectKeeps(ds: seq<Directory>)
    requires UniqueDirectories(ds)
    ensures Collect(ds) == ds
  {
    if ds != [] {
      var n := |ds| - 1;
      CollectKeeps(ds[..n]);
      UpsertAppends(ds[..n], ds[n]);
    }
  }

  function DirectoriesById(ds: seq<Directory>): map<U64, Directory> {
    Collected(ds, DirectoryId)
  }

  function DirectoryId(d: Directory): U64 {
    d.id
  }

  function SnapshotDirectories(t: Transaction): seq<Directory> {
    SortedValues(DirectoriesById(t.directories))
  }

  // ---------- Files with their paths ----------

  /** Scanners leave the path out; it is the parent's path joined with the name. */
  function WithPath(ds: seq<Directory>, f: File): File {
    if f.fullPath != "" then f
    else f.(fullPath := match Find(ds, f.parent) case Some(p) => JoinPath(p.fullPath, f.name) case None => f.name)
  }

  /** A file that has no path of its own gets that of its directory, a backslash and its name. */
  lemma FilledIn(ds: seq<Directory>, f: File)
    ensures f.fullPath != "" ==> WithPath(ds, f) == f
    ensures f.fullPath == "" ==>
              && WithPath(ds, f) == f.(fullPath := WithPath(ds, f).fullPath)
              && ((forall d <- ds :: d.id != f.parent) ==> WithPath(ds, f).fullPath == f.name)
    ensures forall d <- ds :: f.fullPath == "" && d.id == f.parent && (forall e <- ds :: e.id == d.id ==> e == d) ==>
              WithPath(ds, f).fullPath ==
              if d.fullPath == "" then f.name else Unterminated(d.fullPath) + "\\" + f.name
  {
    forall d <- ds ensures JoinPath(d.fullPath, f.name) ==
                           if d.fullPath == "" then f.name else Unterminated(d.fullPath) + "\\" + f.name
    {
      JoinedText(d.fullPath, f.name);
    }
  }

  function FilesWithPaths(t: Transaction): (files: seq<File>)
    ensures |files| == |t.files|
  {
    seq(|t.files|, i requires 0 <= i < |t.files| => WithPath(t.directories, SortedValues(t.files)[i]))
  }

  method SnapshotFilesWithPaths(t: Transaction) returns (files: seq<File>)
    ensures files == FilesWithPaths(t)
  {
    files := SortedValues(t.files);
    for i := 0 to |files|
      invariant |files| == |t.files|
      invariant forall k :: 0 <= k < |files| ==>
                  files[k] == if k < i then WithPath(t.directories, SortedValues(t.files)[k])
                              else SortedValues(t.files)[k]
    {
      if files[i].fullPath == "" {
        var path := match Find(t.directories, files[i].parent)
                    case Some(parent) => JoinPath(parent.fullPath, files[i].name)
                    case None => files[i].name;
        files := files[i := files[i].(fullPath := path)];
      }
    }
  }

  // ---------- The two steps ----------

  /** The new scan with the ids of the stored one. */
  function Rematched(s: Transaction, t: Transaction, order: seq<U64>): Transaction
    requires Lists(order, t.volumes)
  {
    var previous, scanned := FilesWithPaths(s), FilesWithPaths(t);
    var files := RemapFiles(KnownFiles(previous), scanned, NextFileId(previous, scanned)).files;
    var current := SnapshotDirectories(t);
    EverythingIsCovered(s.directories, current, files, t.volumes, order);
    Renumbered(t, SettledIds(s.directories, current, files, Roots(t.volumes, order)), current, files)
  }

  /** The new scan with every id of a directory replaced. */
  function Renumbered(t: Transaction, ids: IdMap, current: seq<Directory>, files: seq<File>): Transaction
    requires Covers(ids, current, files, t.volumes)
  {
    t.(volumes := map v | v in t.volumes :: t.volumes[v].(root := ids[t.volumes[v].root]),
       directories := Collect(seq(|current|, i requires 0 <= i < |current| => RenamedDirectory(current[i], ids))),
       files := ById(RenamedFiles(files, ids)))
  }

  lemma RenumberedIs(t: Transaction, ids: IdMap, current: seq<Directory>, files: seq<File>,
                     ds: seq<Directory>, fs: seq<File>, vs: map<U64, Volume>)
    requires Covers(ids, current, files, t.volumes) && RenamedBy(ids, current, files, t.volumes, ds, fs, vs)
    ensures t.(volumes := vs, directories := Collect(ds), files := ById(fs)) == Renumbered(t, ids, current, files)
  {
    hide ById, Collect;
    assert fs == RenamedFiles(files, ids);
    assert ds == seq(|current|, i requires 0 <= i < |current| => RenamedDirectory(current[i], ids));
    assert vs == map v | v in t.volumes :: t.volumes[v].(root := ids[t.volumes[v].root]);
  }

  function RenamedFiles(files: seq<File>, ids: IdMap): (renamed: seq<File>)
    requires forall i :: 0 <= i < |files| ==> files[i].parent in ids
    ensures |renamed| == |files|
            && forall i :: 0 <= i < |files| ==> renamed[i] == files[i].(parent := ids[files[i].parent])
  {
    seq(|files|, i requires 0 <= i < |files| => files[i].(parent := ids[files[i].parent]))
  }

  /** Volumes, sessions and directories come from the new scan, files and history from the store. */
  function Merged(s: Transaction, t: Transaction): Transaction {
    var previous, current := FilesWithPaths(s), FilesWithPaths(t);
    var changes := Changes(previous, current);
    t.(files := ApplyChanges(s.files, changes, ById(current)),
       lineages := s.lineages + Lineages(changes, ById(previous), ById(current)),
       fileChanges := s.fileChanges + [changes])
  }

  /** Only ids change: sessions stay, and volumes keep everything but the id of their root. */
  ghost predicate KeptByRematch(u: Transaction, t: Transaction) {
    && u.sessions == t.sessions && u.committed == t.committed && u.volumes.Keys == t.volumes.Keys
    && forall v <- u.volumes :: u.volumes[v] == t.volumes[v].(root := u.volumes[v].root)
  }

  datatype StorageError = WriteFailed

  class IndexRepository {
    var state: Transaction
    /** What opening the index again would find; see CrashSafety for how the file is replaced. */
    var stored: Transaction

    constructor (loaded: Transaction)
      ensures state == loaded && stored == loaded
    {
      state, stored := loaded, loaded;
    }

    /** Writing the snapshot may fail, and then the former one stays. */
    method PersistState() returns (written: bool)
      modifies this`stored
      ensures stored == if written then state else old(stored)
    {
      written := *;
      if written {
        stored := state;
      }
    }

    /** The state in memory is the new one even if it could not be written. */
    method ApplyIncrementalTransaction(t: Transaction) returns (r: Result<seq<Change>, StorageError>)
      modifies this
      ensures state == Merged(old(state), t)
      ensures old(state.lineages) <= state.lineages
      ensures var changes := Changes(FilesWithPaths(old(state)), FilesWithPaths(t));
              && state == t.(files := state.files, lineages := state.lineages,
                             fileChanges := old(state.fileChanges) + [changes])
              && (r.Ok? ==> r.value == changes && stored == state)
      ensures r.Err? ==> stored == old(stored)
    {
      hide Changes, FilesWithPaths, ApplyChanges, Lineages, ById;
      var previous := SnapshotFilesWithPaths(state);
      var current := SnapshotFilesWithPaths(t);
      var files, lineages, changes := ApplyIncrementalFiles(state.files, state.lineages, previous, current);
      state := t.(files := files, lineages := lineages, fileChanges := state.fileChanges + [changes]);
      var written := PersistState();
      r := if written then Ok(changes) else Err(WriteFailed);
    }

    /** `order` is the order in which the table of volumes happens to list them. */
    method ApplyPathMatchedIncrementalTransaction(t: Transaction, order: seq<U64>)
      returns (r: Result<seq<Change>, StorageError>)
      requires Lists(order, t.volumes)
      modifies this
      ensures state == Merged(old(state), Rematched(old(state), t, order))
      ensures KeptByRematch(state, t) && old(state.lineages) <= state.lineages
      ensures r.Ok? ==>
                && r.value == Changes(FilesWithPaths(old(state)), FilesWithPaths(Rematched(old(state), t, order)))
                && stored == state
      ensures r.Err? ==> stored == old(stored)
    {
      hide Changes, FilesWithPaths, Merged, ById, Rematched;
      var rematched := Rematch(t, order);
      r := ApplyIncrementalTransaction(rematched);
    }

    method Rematch(t: Transaction, order: seq<U64>) returns (rematched: Transaction)
      requires Lists(order, t.volumes)
      ensures rematched == Rematched(state, t, order) && KeptByRematch(rematched, t)
    {
      hide FilesWithPaths, RemapFiles, KnownFiles, NextFileId, SettledIds, ById, Collect, SnapshotDirectories;
      hide Covers, Renumbered;
      var previous := SnapshotFilesWithPaths(state);
      var scanned := SnapshotFilesWithPaths(t);
      var files := RemapCurrentFilesByPath(previous, scanned);
      var current := SnapshotDirectories(t);
      var ds, fs, volumes := RemapCurrentDirectoryIdsByPath(state.directories, current, files, t.volumes, order);
      EverythingIsCovered(state.directories, current, files, t.volumes, order);
      RenumberedIs(t, SettledIds(state.directories, current, files, Roots(t.volumes, order)), current, files,
                   ds, fs, volumes);
      rematched := t.(volumes := volumes, directories := Collect(ds), files := ById(fs));
    }
  }
}
