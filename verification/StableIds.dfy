/** What the remap of directory ids guarantees: no two directories are merged, and nothing dangling gets attached. */
module StableIds {
  import opened Basics
  import opened Records
  import opened PathRemap

  // ---------- The directories ----------

  ghost predicate AllBelow(ids: IdMap, limit: nat) {
    forall x <- ids :: ids[x] < limit
  }

  /** A known directory takes its former id, another one a fresh id. */
  ghost predicate Matched(known: IdsByPath, d: Directory, ids: IdMap, low: nat, high: nat) {
    && d.id in ids
    && if d.fullPath in known then ids[d.id] == known[d.fullPath] else low <= ids[d.id] < high
  }

  ghost predicate UniqueDirectories(ds: seq<Directory>) {
    forall i, j :: 0 <= i < j < |ds| ==> ds[i].id != ds[j].id
  }

  ghost predicate DirectoriesMatched(known: IdsByPath, current: seq<Directory>, next: U64, a: Assigned) {
    && next <= a.next <= next + |current|
    && AllBelow(a.ids, a.next)
    && (forall i :: 0 <= i < |current| ==> Matched(known, current[i], a.ids, next, a.next))
    && (forall i, j :: 0 <= i < j < |current| && current[i].fullPath !in known && current[j].fullPath !in known ==>
          a.ids[current[i].id] < a.ids[current[j].id])
  }

  lemma MatchedStep(known: IdsByPath, current: seq<Directory>, next: U64, a: Assigned, d: Directory)
    requires DirectoriesMatched(known, current, next, a) && BelowNext(known, next) && UniqueDirectories(current + [d])
    requires next + |current| + 1 <= U64_MAX
    ensures DirectoriesMatched(known, current + [d], next,
                               if d.fullPath in known then Assigned(a.ids[d.id := known[d.fullPath]], a.next)
                               else Assigned(a.ids[d.id := a.next], a.next + 1))
  {
    var more := current + [d];
    var b := if d.fullPath in known then Assigned(a.ids[d.id := known[d.fullPath]], a.next)
      else Assigned(a.ids[d.id := a.next], a.next + 1);
    forall i | 0 <= i < |current|
      ensures Matched(known, more[i], b.ids, next, b.next) && b.ids[more[i].id] == a.ids[current[i].id]
    {
      assert Matched(known, current[i], a.ids, next, a.next);
      assert more[i].id != more[|current|].id;
    }
    assert Matched(known, d, b.ids, next, b.next);
  }

  lemma {:induction false} AssignedDirectoriesAre(known: IdsByPath, current: seq<Directory>, next: U64)
    requires BelowNext(known, next) && UniqueDirectories(current) && next + |current| <= U64_MAX
    ensures DirectoriesMatched(known, current, next, AssignDirectories(known, current, next))
  {
    if current == [] {
      assert DirectoriesMatched(known, [], next, Assigned(map[], next));
    } else {
      var n := |current| - 1;
      assert current[..n] + [current[n]] == current;
      AssignedDirectoriesAre(known, current[..n], next);
      assert AssignDirectories(known, current[..n], next).next <= next + n;
      hide DirectoriesMatched;
      MatchedStep(known, current[..n], next, AssignDirectories(known, current[..n], next), current[n]);
    }
  }

  // ---------- The references ----------

  /** References that no directory answers to keep away from all directories and from each other. */
  ghost predicate ReferencesApart(previous: set<U64>, start: Assigned, a: Assigned) {
    && start.next <= a.next && AllBelow(a.ids, a.next)
    && (forall x <- start.ids :: x in a.ids && a.ids[x] == start.ids[x])
    && (forall x <- a.ids :: x !in start.ids ==> a.ids[x] !in previous)
    && (forall x, y :: x in a.ids && y in a.ids && x !in start.ids && a.ids[x] == a.ids[y] ==> x == y)
  }

  lemma ReferenceStep(previous: set<U64>, start: Assigned, a: Assigned, reference: U64)
    requires ReferencesApart(previous, start, a) && a.next < U64_MAX && reference < start.next
    requires forall p <- previous :: p < start.next
    ensures ReferencesApart(previous, start, AssignReference(previous, a, reference))
  {
    var b := AssignReference(previous, a, reference);
    if reference !in a.ids {
      assert forall x <- a.ids :: a.ids[x] in a.ids.Values;
      assert forall x <- a.ids :: b.ids[x] == a.ids[x] && b.ids[reference] != a.ids[x];
    }
  }

  lemma {:induction false} ResolvedApart(previous: set<U64>, start: Assigned, references: seq<U64>)
    requires AllBelow(start.ids, start.next) && start.next + |references| <= U64_MAX
    requires (forall p <- previous :: p < start.next) && (forall r <- references :: r < start.next)
    ensures ReferencesApart(previous, start, AssignReferences(previous, start, references))
    ensures AssignReferences(previous, start, references).next <= start.next + |references|
  {
    if references != [] {
      hide ReferencesApart;
      var n := |references| - 1;
      assert forall r <- references[..n] :: r in references;
      ResolvedApart(previous, start, references[..n]);
      assert references[n] in references;
      ReferenceStep(previous, start, AssignReferences(previous, start, references[..n]), references[n]);
    }
  }

  /** A reference keeps its number, or takes a fresh one; it keeps it if nothing else has it. */
  ghost predicate NumbersKept(previous: set<U64>, start: Assigned, a: Assigned) {
    && start.next <= a.next && (forall x <- start.ids :: x in a.ids && a.ids[x] == start.ids[x])
    && (forall x <- a.ids :: x !in start.ids ==> a.ids[x] == x || a.ids[x] >= start.next)
    && (forall x <- a.ids ::
          x !in start.ids && x !in previous && x !in start.ids.Values && x < start.next ==> a.ids[x] == x)
  }

  lemma NumberStep(previous: set<U64>, start: Assigned, a: Assigned, reference: U64)
    requires NumbersKept(previous, start, a)
    ensures NumbersKept(previous, start, AssignReference(previous, a, reference))
  {
    if reference !in a.ids && reference in a.ids.Values && reference < start.next {
      var y :| y in a.ids && a.ids[y] == reference;
      assert y in start.ids && start.ids[y] == reference;
      assert reference in start.ids.Values;
    }
  }

  lemma {:induction false} ResolvedKeepNumbers(previous: set<U64>, start: Assigned, references: seq<U64>)
    ensures NumbersKept(previous, start, AssignReferences(previous, start, references))
  {
    if references != [] {
      var n := |references| - 1;
      ResolvedKeepNumbers(previous, start, references[..n]);
      NumberStep(previous, start, AssignReferences(previous, start, references[..n]), references[n]);
    }
  }

  // ---------- Both together ----------

  lemma {:induction false} KnownDirectoriesAre(previous: seq<Directory>, path: string)
    ensures path in KnownDirectories(previous) ==>
              path != "" &&
              exists i ::
                0 <= i < |previous| && previous[i].fullPath == path
                  && previous[i].id == KnownDirectories(previous)[path]
                  && forall j :: i < j < |previous| ==> previous[j].fullPath != path
    ensures forall i :: 0 <= i < |previous| && previous[i].fullPath == path != "" ==> path in KnownDirectories(previous)
  {
    if previous != [] {
      var n := |previous| - 1;
      KnownDirectoriesAre(previous[..n], path);
      assert forall i :: 0 <= i < n ==> previous[..n][i] == previous[i];
    }
  }

  /** The counter of fresh ids never saturates. */
  ghost predicate DirectoryIdsSuffice(previous: seq<Directory>, current: seq<Directory>, files: seq<File>,
                                      roots: seq<U64>) {
    MaxId(InUse(previous, current, files, roots)) + 1 + |current| + |References(current, files, roots)| <= U64_MAX
  }

  lemma UsedIdsAreBelow(previous: seq<Directory>, current: seq<Directory>, files: seq<File>, roots: seq<U64>)
    requires DirectoryIdsSuffice(previous, current, files, roots) && UniqueDirectories(previous)
    ensures var next := NextDirectoryId(InUse(previous, current, files, roots));
            && BelowNext(KnownDirectories(previous), next) && Injective(KnownDirectories(previous))
            && next + |current| + |References(current, files, roots)| <= U64_MAX
            && (forall p <- DirectoryIds(previous) :: p < next)
            && (forall r <- References(current, files, roots) :: r < next)
  {
    hide KnownDirectories, References;
    var used := InUse(previous, current, files, roots);
    MaxIdIsReached(used);
    forall i | 0 <= i < |previous| ensures previous[i].id <= MaxId(used) {
      assert used[i] in used && used[i] == previous[i].id;
    }
    forall r | r in References(current, files, roots) ensures r <= MaxId(used) {
      assert r in used;
    }
    forall p | p in KnownDirectories(previous) ensures KnownDirectories(previous)[p] <= MaxId(used) {
      KnownDirectoriesAre(previous, p);
    }
    forall p, q | p in KnownDirectories(previous) && q in KnownDirectories(previous)
                  && KnownDirectories(previous)[p] == KnownDirectories(previous)[q]
      ensures p == q
    {
      KnownDirectoriesAre(previous, p);
      KnownDirectoriesAre(previous, q);
    }
  }

  function DirectoryPaths(ds: seq<Directory>): (paths: seq<string>)
    ensures |paths| == |ds| && forall i :: 0 <= i < |ds| ==> paths[i] == ds[i].fullPath
  {
    seq(|ds|, i requires 0 <= i < |ds| => ds[i].fullPath)
  }

  /** What the remap settles on, as the relations the theorems below read. */
  lemma SettledIdsAre(previous: seq<Directory>, current: seq<Directory>, files: seq<File>, roots: seq<U64>)
    requires DirectoryIdsSuffice(previous, current, files, roots) && UniqueDirectories(previous)
             && UniqueDirectories(current)
    ensures var next := NextDirectoryId(InUse(previous, current, files, roots));
            var start := AssignDirectories(KnownDirectories(previous), current, next);
            && DirectoriesMatched(KnownDirectories(previous), current, next, start)
            && ReferencesApart(DirectoryIds(previous), start,
                               AssignAll(previous, current, References(current, files, roots), next))
  {
    hide KnownDirectories, References, NextDirectoryId, InUse, DirectoryIds;
    var next := NextDirectoryId(InUse(previous, current, files, roots));
    UsedIdsAreBelow(previous, current, files, roots);
    AssignedDirectoriesAre(KnownDirectories(previous), current, next);
    ResolvedApart(DirectoryIds(previous), AssignDirectories(KnownDirectories(previous), current, next),
                  References(current, files, roots));
  }

  ghost predicate InjectiveIds(ids: IdMap) {
    forall x, y :: x in ids && y in ids && ids[x] == ids[y] ==> x == y
  }

  /** Different ids stay different exactly when no path of the previous scan belongs to two current directories. */
  lemma DirectoryRemapInjective(previous: seq<Directory>, current: seq<Directory>, files: seq<File>, roots: seq<U64>)
    requires DirectoryIdsSuffice(previous, current, files, roots) && UniqueDirectories(previous)
             && UniqueDirectories(current)
    ensures InjectiveIds(SettledIds(previous, current, files, roots)) <==>
            !Shared(KnownDirectories(previous), DirectoryPaths(current))
  {
    hide KnownDirectories, References, NextDirectoryId, InUse, DirectoryIds, AssignDirectories, AssignAll;
    var known, paths := KnownDirectories(previous), DirectoryPaths(current);
    var next := NextDirectoryId(InUse(previous, current, files, roots));
    var start, ids := AssignDirectories(known, current, next), SettledIds(previous, current, files, roots);
    SettledIdsAre(previous, current, files, roots);
    UsedIdsAreBelow(previous, current, files, roots);
    assert forall i :: 0 <= i < |current| ==> Matched(known, current[i], start.ids, next, start.next);
    if i, j :| 0 <= i < j < |paths| && paths[i] == paths[j] && paths[i] in known {
      assert ids[current[i].id] == ids[current[j].id] && current[i].id != current[j].id;
    } else {
      forall x, y | x in ids && y in ids && ids[x] == ids[y] ensures x == y {
        if x in start.ids && y in start.ids {
          AssignedKeys(known, current, next, x);
          AssignedKeys(known, current, next, y);
          var i :| 0 <= i < |current| && current[i].id == x;
          var j :| 0 <= j < |current| && current[j].id == y;
          if i != j {
            DifferentPathsDiffer(known, current, next, start, i, j);
          }
        }
      }
    }
  }

  lemma DifferentPathsDiffer(known: IdsByPath, current: seq<Directory>, next: U64, a: Assigned, i: nat, j: nat)
    requires DirectoriesMatched(known, current, next, a) && BelowNext(known, next) && Injective(known)
    requires !Shared(known, DirectoryPaths(current)) && i < |current| && j < |current| && i != j
    ensures current[i].id in a.ids && current[j].id in a.ids && a.ids[current[i].id] != a.ids[current[j].id]
  {
    var paths := DirectoryPaths(current);
    assert Matched(known, current[i], a.ids, next, a.next) && Matched(known, current[j], a.ids, next, a.next);
    var low, high := Min(i, j), Max(i, j);
    assert low < high && (paths[low] == paths[high] ==> paths[low] !in known);
  }

  /** A reference that no current directory answers to ends up at no directory, neither a former nor a current one. */
  lemma DanglingStaysDangling(previous: seq<Directory>, current: seq<Directory>, files: seq<File>, roots: seq<U64>,
                              reference: U64)
    requires DirectoryIdsSuffice(previous, current, files, roots) && UniqueDirectories(previous)
             && UniqueDirectories(current)
    requires reference in References(current, files, roots)
             && forall i :: 0 <= i < |current| ==> current[i].id != reference
    ensures var ids := SettledIds(previous, current, files, roots);
            && reference in ids && ids[reference] !in DirectoryIds(previous)
            && forall i :: 0 <= i < |current| ==> current[i].id in ids && ids[current[i].id] != ids[reference]
  {
    hide KnownDirectories, References, NextDirectoryId, InUse, DirectoryIds, AssignDirectories, AssignReferences;
    var next := NextDirectoryId(InUse(previous, current, files, roots));
    var known := KnownDirectories(previous);
    var start := AssignDirectories(known, current, next);
    SettledIdsAre(previous, current, files, roots);
    AssignedKeys(known, current, next, reference);
    ResolvedKeys(DirectoryIds(previous), start, References(current, files, roots), reference);
    assert forall i :: 0 <= i < |current| ==> Matched(known, current[i], start.ids, next, start.next);
  }

  /** A dangling reference keeps its number unless a former directory has that number. */
  lemma HarmlessReferenceStays(previous: seq<Directory>, current: seq<Directory>, files: seq<File>, roots: seq<U64>,
                               reference: U64)
    requires DirectoryIdsSuffice(previous, current, files, roots) && UniqueDirectories(previous)
             && UniqueDirectories(current)
    requires reference in References(current, files, roots) && reference !in DirectoryIds(previous)
             && forall i :: 0 <= i < |current| ==> current[i].id != reference
    ensures var ids := SettledIds(previous, current, files, roots); reference in ids && ids[reference] == reference
  {
    hide KnownDirectories, References, NextDirectoryId, InUse, DirectoryIds, AssignDirectories, AssignReferences;
    var next := NextDirectoryId(InUse(previous, current, files, roots));
    var known := KnownDirectories(previous);
    var start := AssignDirectories(known, current, next);
    UsedIdsAreBelow(previous, current, files, roots);
    AssignedDirectoriesAre(known, current, next);
    ResolvedKeepNumbers(DirectoryIds(previous), start, References(current, files, roots));
    AssignedKeys(known, current, next, reference);
    ResolvedKeys(DirectoryIds(previous), start, References(current, files, roots), reference);
    forall x | x in start.ids ensures start.ids[x] != reference {
      AssignedKeys(known, current, next, x);
      var i :| 0 <= i < |current| && current[i].id == x;
      assert Matched(known, current[i], start.ids, next, start.next);
      if current[i].fullPath in known {
        KnownIdIsFormer(previous, known[current[i].fullPath], current[i].fullPath);
      }
    }
  }

  lemma KnownIdIsFormer(previous: seq<Directory>, id: U64, path: string)
    requires path in KnownDirectories(previous) && KnownDirectories(previous)[path] == id
    ensures id in DirectoryIds(previous)
  {
    KnownDirectoriesAre(previous, path);
  }

  /** A directory whose path was known before gets the id that path had; any other one an id that was not in use. */
  lemma DirectoryKeepsId(previous: seq<Directory>, current: seq<Directory>, files: seq<File>, roots: seq<U64>, i: nat)
    requires DirectoryIdsSuffice(previous, current, files, roots) && UniqueDirectories(previous)
             && UniqueDirectories(current)
    requires i < |current|
    ensures var ids, known := SettledIds(previous, current, files, roots), KnownDirectories(previous);
            && current[i].id in ids
            && if current[i].fullPath in known then ids[current[i].id] == known[current[i].fullPath]
               else ids[current[i].id] !in DirectoryIds(previous)
  {
    hide KnownDirectories, References, NextDirectoryId, InUse, DirectoryIds, AssignDirectories, AssignAll;
    var next := NextDirectoryId(InUse(previous, current, files, roots));
    var known := KnownDirectories(previous);
    var start := AssignDirectories(known, current, next);
    SettledIdsAre(previous, current, files, roots);
    UsedIdsAreBelow(previous, current, files, roots);
    assert Matched(known, current[i], start.ids, next, start.next);
  }
}
