/** What a change set and its lineages say, read off the two lists of files. */
module ChangeMeaning {
  import opened Basics
  import opened Records
  import opened FileDiff

  ghost predicate IsGone(id: U64, files: seq<File>) {
    forall f <- files :: f.id != id
  }

  /** A file that stayed, and whose record differs in more than the stored path. */
  ghost predicate IsEdited(previous: seq<File>, current: seq<File>, p: File, f: File) {
    p in previous && f in current && p.id == f.id && p != f.(fullPath := p.fullPath)
  }

  predicate IsMoved(p: File, f: File) {
    p.parent != f.parent || p.fullPath != f.fullPath
  }

  /** A move is reported as such even if the name changed too; a new name alone is a rename. */
  predicate Tells(p: File, f: File, c: Change) {
    && c.file == f.id && c.previousPath == Some(p.fullPath) && c.currentPath == Some(f.fullPath)
    && (IsMoved(p, f) ==> c.kind == Moved)
    && (!IsMoved(p, f) && p.name != f.name ==> c.kind == Renamed)
    && (!IsMoved(p, f) && p.name == f.name ==> c.kind == Modified)
  }

  ghost predicate IsEdit(previous: seq<File>, current: seq<File>, c: Change) {
    exists p, f :: IsEdited(previous, current, p, f) && Tells(p, f, c)
  }

  ghost predicate IsAddition(previous: seq<File>, current: seq<File>, c: Change) {
    exists f <- current :: IsGone(f.id, previous) && c == FileChange(f.id, Added, None, Some(f.fullPath))
  }

  ghost predicate IsLoss(previous: seq<File>, current: seq<File>, c: Change) {
    exists p <- previous :: IsGone(p.id, current) && c == FileChange(p.id, Removed, Some(p.fullPath), None)
  }

  lemma EditIsTold(p: File, f: File, c: Change)
    requires p.id == f.id
    ensures c == FileChange(f.id, KindOf(p, f), Some(p.fullPath), Some(f.fullPath)) <==> Tells(p, f, c)
  {
  }

  lemma OneRecordPerId(files: seq<File>, f: File)
    requires UniqueIds(files) && f in files
    ensures f.id in ById(files) && ById(files)[f.id] == f
  {
    ByIdFinds(files, f.id);
  }

  lemma AbsentIsGone(files: seq<File>, id: U64)
    ensures id !in ById(files) <==> IsGone(id, files)
  {
    ByIdFinds(files, id);
    if f :| f in files && f.id == id {
      var i :| 0 <= i < |files| && files[i] == f;
    }
  }

  lemma ChangeOfIs(previous: seq<File>, current: seq<File>, f: File, c: Change)
    requires UniqueIds(previous) && f in current
    ensures ChangeOf(ById(previous), f) == Some(c) <==>
            if IsGone(f.id, previous) then c == FileChange(f.id, Added, None, Some(f.fullPath))
            else exists p :: IsEdited(previous, current, p, f) && Tells(p, f, c)
  {
    AbsentIsGone(previous, f.id);
    ByIdFinds(previous, f.id);
    if !IsGone(f.id, previous) {
      var p := ById(previous)[f.id];
      hide ById, SameFields, KindOf, IsGone, UniqueIds, Tells;
      SameFieldsMeans(p, f);
      EditIsTold(p, f, c);
      forall q | IsEdited(previous, current, q, f) ensures q == p {
        var k :| 0 <= k < |previous| && previous[k] == q;
      }
      assert p == f.(id := p.id, fullPath := p.fullPath) <==> !IsEdited(previous, current, p, f);
    }
  }

  /** A change is reported exactly when it is an edit, an addition or a loss, and each says what happened. */
  lemma ChangesExactly(previous: seq<File>, current: seq<File>, c: Change)
    requires UniqueIds(previous) && UniqueIds(current)
    ensures c in Changes(previous, current) <==>
            IsEdit(previous, current, c) || IsAddition(previous, current, c) || IsLoss(previous, current, c)
  {
    hide ById, UniqueIds, IsGone, Tells, ChangeOf, RemovalOf, CurrentChanges, Removals;
    CurrentAreTold(previous, current, c);
    LossesAreTold(previous, current, c);
  }

  lemma CurrentAreTold(previous: seq<File>, current: seq<File>, c: Change)
    requires UniqueIds(previous)
    ensures c in CurrentChanges(ById(previous), current) <==>
            IsEdit(previous, current, c) || IsAddition(previous, current, c)
  {
    hide ById, UniqueIds, Tells, ChangeOf, CurrentChanges;
    CurrentChangesAre(ById(previous), current, c);
    forall f | f in current
      ensures ChangeOf(ById(previous), f) == Some(c) <==>
              if IsGone(f.id, previous) then c == FileChange(f.id, Added, None, Some(f.fullPath))
              else exists p :: IsEdited(previous, current, p, f) && Tells(p, f, c)
    {
      ChangeOfIs(previous, current, f, c);
    }
    if p, f :| IsEdited(previous, current, p, f) && Tells(p, f, c) {
      var i :| 0 <= i < |current| && current[i] == f;
    }
    if f :| f in current && IsGone(f.id, previous) && c == FileChange(f.id, Added, None, Some(f.fullPath)) {
      var i :| 0 <= i < |current| && current[i] == f;
    }
  }

  lemma LossesAreTold(previous: seq<File>, current: seq<File>, c: Change)
    ensures c in Removals(ById(current), previous) <==> IsLoss(previous, current, c)
  {
    hide ById, Removals, IsGone;
    RemovalsAre(ById(current), previous, c);
    forall p | p in previous
      ensures IsRemoval(ById(current), p, c) <==>
              IsGone(p.id, current) && c == FileChange(p.id, Removed, Some(p.fullPath), None)
    {
      AbsentIsGone(current, p.id);
    }
    if p :| p in previous && IsGone(p.id, current) && c == FileChange(p.id, Removed, Some(p.fullPath), None) {
      var i :| 0 <= i < |previous| && previous[i] == p;
    }
  }

  // ---------- Lineages ----------

  lemma {:induction false} LineagesAre(changes: seq<Change>, previous: FilesById, current: FilesById, l: Lineage)
    ensures l in Lineages(changes, previous, current) <==> exists c <- changes :: l in LineageOf(c, previous, current)
  {
    if changes != [] {
      var n := |changes| - 1;
      hide LineageOf;
      LineagesAre(changes[..n], previous, current, l);
      assert changes == changes[..n] + [changes[n]];
    }
  }

  /** A lineage is recorded for exactly the edited files that were renamed or moved, with where they were and are. */
  lemma LineagesExactly(previous: seq<File>, current: seq<File>, l: Lineage)
    requires UniqueIds(previous) && UniqueIds(current)
    ensures l in Lineages(Changes(previous, current), ById(previous), ById(current)) <==>
            exists p, f :: IsEdited(previous, current, p, f) && IsLineageOf(p, f, l)
  {
    hide ById, UniqueIds, Changes, Lineages, LineageOf, IsLineageOf, Tells, IsGone;
    var changes := Changes(previous, current);
    LineagesAre(changes, ById(previous), ById(current), l);
    if c :| c in changes && l in LineageOf(c, ById(previous), ById(current)) {
      var p, f := LineageHasRecords(previous, current, c, l);
    }
    if p, f :| IsEdited(previous, current, p, f) && IsLineageOf(p, f, l) {
      var c := RecordsHaveLineage(previous, current, p, f, l);
    }
  }

  predicate IsLineageOf(p: File, f: File, l: Lineage) {
    && (p.name != f.name || IsMoved(p, f))
    && l == FileLineage(f.id, p.parent, f.parent, p.fullPath, f.fullPath, p.name != f.name, IsMoved(p, f))
  }

  lemma LineageHasRecords(previous: seq<File>, current: seq<File>, c: Change, l: Lineage) returns (p: File, f: File)
    requires UniqueIds(previous) && UniqueIds(current) && c in Changes(previous, current)
    requires l in LineageOf(c, ById(previous), ById(current))
    ensures IsEdited(previous, current, p, f) && IsLineageOf(p, f, l)
  {
    hide ById, UniqueIds, Changes, Tells, IsGone;
    ChangesExactly(previous, current, c);
    ByIdFinds(previous, c.file);
    ByIdFinds(current, c.file);
    AbsentIsGone(previous, c.file);
    p, f := ById(previous)[c.file], ById(current)[c.file];
    var q, g :| IsEdited(previous, current, q, g) && Tells(q, g, c);
    TellsOf(q, g, c);
    OneRecordPerId(previous, q);
    OneRecordPerId(current, g);
  }

  lemma TellsOf(p: File, f: File, c: Change)
    requires Tells(p, f, c)
    ensures c.file == f.id && c.kind != Removed
  {
  }

  lemma RecordsHaveLineage(previous: seq<File>, current: seq<File>, p: File, f: File, l: Lineage) returns (c: Change)
    requires UniqueIds(previous) && UniqueIds(current)
    requires IsEdited(previous, current, p, f) && IsLineageOf(p, f, l)
    ensures c in Changes(previous, current) && l in LineageOf(c, ById(previous), ById(current))
  {
    hide ById, UniqueIds, Changes, IsGone;
    c := FileChange(f.id, KindOf(p, f), Some(p.fullPath), Some(f.fullPath));
    EditIsTold(p, f, c);
    ChangesExactly(previous, current, c);
    OneRecordPerId(previous, p);
    OneRecordPerId(current, f);
    KindIsNotRemoved(p, f);
  }
}
