/** What changed between two lists of files, and how those changes are applied to the stored ones. */
module FileDiff {
  import opened Basics
  import opened Records
  import opened SortedMaps

  type File = FileRecord<string>
  type Change = FileChange<string>
  type Lineage = FileLineage<string>

  // ---------- One file ----------

  /** Everything a rescan compares: all but the id and the stored path. */
  predicate SameFields(a: File, b: File) {
    && a.name == b.name && a.parent == b.parent && a.size == b.size && a.allocation == b.allocation
    && a.attributes == b.attributes && a.created == b.created && a.modified == b.modified && a.accessed == b.accessed
  }

  /** Two records have the same fields exactly when they are equal but for the id and the stored path. */
  lemma SameFieldsMeans(a: File, b: File)
    ensures SameFields(a, b) <==> a == b.(id := a.id, fullPath := a.fullPath)
  {
  }

  function DetectLineage(previous: File, current: File): Option<Lineage> {
    var renamed := previous.name != current.name;
    var moved := previous.parent != current.parent || previous.fullPath != current.fullPath;
    if previous.id != current.id || (!renamed && !moved) then None
    else Some(FileLineage(current.id, previous.parent, current.parent, previous.fullPath, current.fullPath, renamed,
                          moved))
  }

  function KindOf(previous: File, current: File): ChangeKind {
    match DetectLineage(previous, current)
    case Some(lineage) => if lineage.moved then Moved else if lineage.renamed then Renamed else Modified
    case None => Modified
  }

  // ---------- The change set ----------

  type FilesById = map<U64, File>

  /** A hash map collected from a list: a later record replaces an earlier one. */
  function ById(records: seq<File>): FilesById {
    Collected(records, FileId)
  }

  function FileId(f: File): U64 {
    f.id
  }

  function ChangeOf(previous: FilesById, current: File): Option<Change> {
    if current.id !in previous then Some(FileChange(current.id, Added, None, Some(current.fullPath)))
    else if SameFields(previous[current.id], current) then None
    else Some(FileChange(current.id, KindOf(previous[current.id], current),
                         Some(previous[current.id].fullPath), Some(current.fullPath)))
  }

  function CurrentChanges(previous: FilesById, current: seq<File>): seq<Change> {
    if current == [] then []
    else
      var n := |current| - 1;
      CurrentChanges(previous, current[..n])
      + match ChangeOf(previous, current[n]) case Some(change) => [change] case None => []
  }

  function RemovalOf(previous: File): Change {
    FileChange(previous.id, Removed, Some(previous.fullPath), None)
  }

  function Removals(current: FilesById, previous: seq<File>): seq<Change> {
    if previous == [] then []
    else
      var n := |previous| - 1;
      Removals(current, previous[..n]) + if previous[n].id !in current then [RemovalOf(previous[n])] else []
  }

  function Changes(previous: seq<File>, current: seq<File>): seq<Change> {
    CurrentChanges(ById(previous), current) + Removals(ById(current), previous)
  }

  predicate RisingIds(records: seq<File>) {
    forall i, j :: 0 <= i < j < |records| ==> records[i].id < records[j].id
  }

  /** Equal lists in ascending order need not be compared record by record. */
  method DiffFileRecords(previous: seq<File>, current: seq<File>) returns (changes: seq<Change>)
    ensures changes == Changes(previous, current)
  {
    if previous == current && RisingIds(previous) {
      NothingChanges(previous);
      return [];
    }
    var previousById, currentById := ById(previous), ById(current);
    changes := [];
    for i := 0 to |current|
      invariant changes == CurrentChanges(previousById, current[..i])
    {
      assert current[..i + 1][..i] == current[..i];
      match ChangeOf(previousById, current[i]) {
        case Some(change) => changes := changes + [change];
        case None =>
      }
    }
    assert current[..|current|] == current;
    ghost var added := changes;
    for i := 0 to |previous|
      invariant changes == added + Removals(currentById, previous[..i])
    {
      assert previous[..i + 1][..i] == previous[..i];
      if previous[i].id !in currentById {
        changes := changes + [RemovalOf(previous[i])];
      }
    }
    assert previous[..|previous|] == previous;
  }

  // ---------- What a change set holds ----------

  lemma ByIdFinds(records: seq<File>, id: U64)
    ensures id in ById(records) <==> exists i :: 0 <= i < |records| && records[i].id == id
    ensures id in ById(records) ==> ById(records)[id].id == id && ById(records)[id] in records
    ensures UniqueIds(records) ==>
              forall i :: 0 <= i < |records| && records[i].id == id ==> ById(records)[id] == records[i]
  {
    CollectedAt(records, FileId, id);
    if i :| 0 <= i < |records| && records[i].id == id {
      assert FileId(records[i]) == id;
    }
  }

  lemma OneMoreCurrent(previous: FilesById, current: seq<File>, c: Change)
    requires current != []
    ensures c in CurrentChanges(previous, current) <==>
            c in CurrentChanges(previous, current[..|current| - 1])
            || ChangeOf(previous, current[|current| - 1]) == Some(c)
  {
    hide ChangeOf;
  }

  lemma {:induction false} CurrentChangesAre(previous: FilesById, current: seq<File>, c: Change)
    ensures c in CurrentChanges(previous, current) <==>
              exists i :: 0 <= i < |current| && ChangeOf(previous, current[i]) == Some(c)
  {
    if current != [] {
      var n := |current| - 1;
      CurrentChangesAre(previous, current[..n], c);
      OneMoreCurrent(previous, current, c);
      hide CurrentChanges, ChangeOf;
      if c in CurrentChanges(previous, current[..n]) {
        var i :| 0 <= i < n && ChangeOf(previous, current[..n][i]) == Some(c);
        assert ChangeOf(previous, current[i]) == Some(c);
      }
      if i :| 0 <= i < |current| && ChangeOf(previous, current[i]) == Some(c) {
        assert i < n ==> ChangeOf(previous, current[..n][i]) == Some(c);
      }
    }
  }

  predicate IsRemoval(current: FilesById, f: File, c: Change) {
    f.id !in current && RemovalOf(f) == c
  }

  lemma OneMoreRemoval(current: FilesById, previous: seq<File>, c: Change)
    requires previous != []
    ensures c in Removals(current, previous) <==>
            c in Removals(current, previous[..|previous| - 1]) || IsRemoval(current, previous[|previous| - 1], c)
  {
    hide RemovalOf;
  }

  lemma {:induction false} RemovalsAre(current: FilesById, previous: seq<File>, c: Change)
    ensures c in Removals(current, previous) <==>
            exists i :: 0 <= i < |previous| && IsRemoval(current, previous[i], c)
  {
    if previous != [] {
      var n := |previous| - 1;
      RemovalsAre(current, previous[..n], c);
      OneMoreRemoval(current, previous, c);
      hide Removals, IsRemoval;
      if c in Removals(current, previous[..n]) {
        var i :| 0 <= i < n && IsRemoval(current, previous[..n][i], c);
        assert IsRemoval(current, previous[i], c);
      }
      if i :| 0 <= i < |previous| && IsRemoval(current, previous[i], c) {
        if i < n {
          assert IsRemoval(current, previous[..n][i], c);
        }
      }
    }
  }

  lemma NothingChanges(records: seq<File>)
    requires RisingIds(records)
    ensures Changes(records, records) == []
  {
    var changes := Changes(records, records);
    if changes != [] {
      var c := changes[0];
      assert c in changes;
      CurrentChangesAre(ById(records), records, c);
      RemovalsAre(ById(records), records, c);
      if i :| 0 <= i < |records| && ChangeOf(ById(records), records[i]) == Some(c) {
        ByIdFinds(records, records[i].id);
      } else {
        var i :| 0 <= i < |records| && records[i].id !in ById(records);
        ByIdFinds(records, records[i].id);
      }
    }
  }

  ghost predicate Mentions(changes: seq<Change>, id: U64) {
    exists c :: c in changes && c.file == id
  }

  ghost predicate OnlyRemoves(changes: seq<Change>, id: U64) {
    forall c <- changes :: c.file == id ==> c.kind == Removed
  }

  ghost predicate NeverRemoves(changes: seq<Change>, id: U64) {
    forall c <- changes :: c.file == id ==> c.kind != Removed
  }

  /** A file is mentioned exactly when its record differs, and removed exactly when it is gone. */
  lemma ChangesMention(previous: seq<File>, current: seq<File>, id: U64)
    requires UniqueIds(previous) && UniqueIds(current)
    ensures var p, c := ById(previous), ById(current);
            && (Mentions(Changes(previous, current), id) <==>
                if id in p && id in c then p[id] != c[id].(fullPath := p[id].fullPath) else id in p || id in c)
            && (id in c ==> NeverRemoves(Changes(previous, current), id))
            && (id !in c ==> OnlyRemoves(Changes(previous, current), id))
  {
    hide SameFields, ById, KindOf, UniqueIds;
    var p, c, changes := ById(previous), ById(current), Changes(previous, current);
    ByIdFinds(previous, id);
    ByIdFinds(current, id);
    if id in p && id in c {
      SameFieldsMeans(p[id], c[id]);
    }
    forall change | change in changes && change.file == id
      ensures id in c ==> change.kind != Removed && (id in p ==> !SameFields(p[id], c[id]))
      ensures id !in c ==> change.kind == Removed && id in p
    {
      MentionedWhy(previous, current, change);
    }
    if id in c && (id !in p || !SameFields(p[id], c[id])) {
      var change := ChangeOf(p, c[id]).value;
      CurrentChangesAre(p, current, change);
      assert change in changes;
    }
    if id in p && id !in c {
      RemovalsAre(c, previous, RemovalOf(p[id]));
      assert RemovalOf(p[id]) in changes;
    }
  }

  lemma KindIsNotRemoved(previous: File, current: File)
    ensures KindOf(previous, current) !in {Added, Removed}
  {
  }

  lemma MentionedWhy(previous: seq<File>, current: seq<File>, change: Change)
    requires UniqueIds(previous) && UniqueIds(current) && change in Changes(previous, current)
    ensures var p, c, id := ById(previous), ById(current), change.file;
            if id in c then ChangeOf(p, c[id]) == Some(change) && change.kind != Removed
            else id in p && change == RemovalOf(p[id])
  {
    hide SameFields, ById, KindOf;
    var p, c, id := ById(previous), ById(current), change.file;
    CurrentChangesAre(p, current, change);
    RemovalsAre(c, previous, change);
    ByIdFinds(previous, id);
    ByIdFinds(current, id);
    if i :| 0 <= i < |current| && ChangeOf(p, current[i]) == Some(change) {
      if id in p {
        KindIsNotRemoved(p[id], c[id]);
      }
    }
  }

  // ---------- Applying a change set ----------

  function ApplyChange(files: FilesById, change: Change, current: FilesById): FilesById {
    if change.kind == Removed then files - {change.file}
    else if change.file in current then files[change.file := current[change.file]]
    else files
  }

  function ApplyChanges(files: FilesById, changes: seq<Change>, current: FilesById): FilesById {
    if changes == [] then files
    else ApplyChange(ApplyChanges(files, changes[..|changes| - 1], current), changes[|changes| - 1], current)
  }

  function LineageOf(change: Change, previous: FilesById, current: FilesById): seq<Lineage> {
    if change.kind == Removed || change.file !in previous || change.file !in current then []
    else match DetectLineage(previous[change.file], current[change.file]) case Some(l) => [l] case None => []
  }

  function Lineages(changes: seq<Change>, previous: FilesById, current: FilesById): seq<Lineage> {
    if changes == [] then []
    else Lineages(changes[..|changes| - 1], previous, current) + LineageOf(changes[|changes| - 1], previous, current)
  }

  lemma OneMoreApplied(files: FilesById, changes: seq<Change>, i: nat, previous: FilesById, current: FilesById)
    requires i < |changes|
    ensures ApplyChanges(files, changes[..i + 1], current) ==
            ApplyChange(ApplyChanges(files, changes[..i], current), changes[i], current)
    ensures Lineages(changes[..i + 1], previous, current) ==
            Lineages(changes[..i], previous, current) + LineageOf(changes[i], previous, current)
  {
    assert changes[..i + 1][..i] == changes[..i];
  }

  /** Inserts or removes the record of every change, and records every rename and move. */
  method ApplyIncrementalFiles(files: FilesById, lineages: seq<Lineage>, previous: seq<File>, current: seq<File>)
    returns (newFiles: FilesById, newLineages: seq<Lineage>, changes: seq<Change>)
    ensures changes == Changes(previous, current)
    ensures newFiles == ApplyChanges(files, changes, ById(current))
    ensures newLineages == lineages + Lineages(changes, ById(previous), ById(current))
  {
    hide Changes, ById;
    newFiles, newLineages := files, lineages;
    changes := DiffFileRecords(previous, current);
    if changes == [] {
      return;
    }
    var currentById, previousById := ById(current), ById(previous);
    for i := 0 to |changes|
      invariant newFiles == ApplyChanges(files, changes[..i], currentById)
      invariant newLineages == lineages + Lineages(changes[..i], previousById, currentById)
    {
      OneMoreApplied(files, changes, i, previousById, currentById);
      hide ApplyChanges, Lineages, DetectLineage;
      var change := changes[i];
      if change.kind != Removed {
        if change.file in currentById {
          newFiles := newFiles[change.file := currentById[change.file]];
          if change.file in previousById {
            match DetectLineage(previousById[change.file], currentById[change.file]) {
              case Some(lineage) => newLineages := newLineages + [lineage];
              case None =>
            }
          }
        }
      } else {
        newFiles := newFiles - {change.file};
      }
    }
    assert changes[..|changes|] == changes;
  }

  lemma {:induction false} ApplyChangesAt(files: FilesById, changes: seq<Change>, current: FilesById, id: U64)
    ensures var after := ApplyChanges(files, changes, current);
            && (!Mentions(changes, id) ==> (id in after <==> id in files) && (id in files ==> after[id] == files[id]))
            && (Mentions(changes, id) && NeverRemoves(changes, id) && id in current ==>
                  id in after && after[id] == current[id])
            && (Mentions(changes, id) && OnlyRemoves(changes, id) ==> id !in after)
  {
    if changes != [] {
      var n := |changes| - 1;
      ApplyChangesAt(files, changes[..n], current, id);
      assert changes == changes[..n] + [changes[n]];
      assert changes[n] in changes;
      assert Mentions(changes, id) <==> Mentions(changes[..n], id) || changes[n].file == id;
    }
  }

  /** The stored files may lack the paths that were filled in for the comparison. */
  ghost predicate StoredAs(files: FilesById, records: seq<File>) {
    && UniqueIds(records)
    && files.Keys == ById(records).Keys
    && forall id <- files :: files[id].id == id && files[id] == ById(records)[id].(fullPath := files[id].fullPath)
  }

  /** After the changes between two lists are applied, what is stored are the files of the second list. */
  lemma AppliedIsCurrent(files: FilesById, previous: seq<File>, current: seq<File>)
    requires StoredAs(files, previous) && UniqueIds(current)
    ensures StoredAs(ApplyChanges(files, Changes(previous, current), ById(current)), current)
  {
    hide Changes, ById, Mentions, OnlyRemoves, NeverRemoves, ApplyChanges;
    var after := ApplyChanges(files, Changes(previous, current), ById(current));
    forall id: U64
      ensures id in after <==> id in ById(current)
      ensures id in after ==> after[id].id == id && after[id] == ById(current)[id].(fullPath := after[id].fullPath)
    {
      StoredAt(files, previous, current, id);
    }
    assert after.Keys == ById(current).Keys;
  }

  lemma StoredAt(files: FilesById, previous: seq<File>, current: seq<File>, id: U64)
    requires StoredAs(files, previous) && UniqueIds(current)
    ensures var after := ApplyChanges(files, Changes(previous, current), ById(current));
            && (id in after <==> id in ById(current))
            && (id in after ==> after[id].id == id && after[id] == ById(current)[id].(fullPath := after[id].fullPath))
  {
    hide Changes, ById, Mentions, OnlyRemoves, NeverRemoves, ApplyChanges;
    var p := ById(previous);
    assert id in files <==> id in p;
    ByIdFinds(current, id);
    ChangesMention(previous, current, id);
    ApplyChangesAt(files, Changes(previous, current), ById(current), id);
  }
}
