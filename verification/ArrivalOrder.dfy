/**
 The paths the stream ends with, as a function of the parent graph and of the order in which directories
 arrive, and the exact condition under which the order does not matter.
 */
module ArrivalOrder {
  import opened Basics
  import opened Paths
  import opened ParentGraph
  import opened MftRecords

  type Order = map<U64, nat>

  // ---------- Keys that lie on a cycle ----------

  ghost predicate Cyclic(d: Dirs, key: U64) {
    Reached(d, {key}, key)
  }

  ghost function TopAt(d: Dirs, tops: set<U64>, id: U64, n: nat): (top: U64)
    requires Climbs(d, tops, id, n)
    ensures top in d && top in tops
    decreases n
  {
    if n == 0 then id else TopAt(d, tops, Up(d, id), n - 1)
  }

  /** The child of a cyclic key through which the key's own parent chain comes back to it. */
  ghost function CycleChild(d: Dirs, key: U64): (child: U64)
    requires Cyclic(d, key)
    ensures child in d && Up(d, child) == key
  {
    TopAt(d, Below(d, {key}), key, Height(d, Below(d, {key}), key))
  }

  // ---------- Where paths start ----------

  ghost function AllStops(d: Dirs): set<U64> {
    FinalStops(d, {ROOT})
  }

  /**
   The directories whose path starts at the root path: children of a forced key. When the key lies on a
   cycle, the child on that cycle brings the key itself out, and a sibling that arrived before it is
   popped after that, so it is joined to the key's new path instead.
   */
  ghost predicate IsDetached(d: Dirs, arrival: Order, id: U64)
    requires d.Keys <= arrival.Keys
  {
    && id in d
    && Up(d, id) in AllStops(d)
    && (Cyclic(d, Up(d, id)) ==> arrival[id] >= arrival[CycleChild(d, Up(d, id))])
  }

  ghost function Detached(d: Dirs, arrival: Order): set<U64>
    requires d.Keys <= arrival.Keys
  {
    set id | id in d && IsDetached(d, arrival, id)
  }

  lemma {:induction false} ClimbOnward(d: Dirs, tops: set<U64>, tops': set<U64>, id: U64, n: nat)
    requires Climbs(d, tops, id, n) && Anchored(d, tops', TopAt(d, tops, id, n))
    ensures Anchored(d, tops', id)
    decreases n
  {
    if id in tops' {
      AnchoredTop(d, tops', id);
    } else if n > 0 {
      ClimbOnward(d, tops, tops', Up(d, id), n - 1);
      AnchoredStep(d, tops', id);
    }
  }

  /** Every directory of every parent graph gets a path. */
  lemma EveryDirectoryIsPlaced(d: Dirs, arrival: Order, id: U64)
    requires d.Keys <= arrival.Keys && id in d
    ensures Anchored(d, Detached(d, arrival), id)
  {
    var tops := Detached(d, arrival);
    var below := Below(d, AllStops(d));
    assert id !in Waiting(d, AllStops(d));
    var n := Height(d, below, id);
    var top := TopAt(d, below, id, n);
    if top in tops {
      AnchoredTop(d, tops, top);
    } else {
      var key := Up(d, top);
      var child := CycleChild(d, key);
      assert child in tops;
      AnchoredTop(d, tops, child);
      ClimbOnward(d, Below(d, {key}), tops, key, Height(d, Below(d, {key}), key));
      AnchoredStep(d, tops, top);
    }
    ClimbOnward(d, below, tops, id, n);
  }

  /** Every directory's full path once the stream has finished. */
  ghost function FinalPaths(d: Dirs, arrival: Order, root: string): map<U64, string>
    requires d.Keys <= arrival.Keys
  {
    (map id | id in d ::
       EveryDirectoryIsPlaced(d, arrival, id);
       PathOf(d, Detached(d, arrival), root, id))[ROOT := root]
  }

  // ---------- Directories under the root get their real path ----------

  /** The root path joined with the names on the parent chain that leads to record 5. */
  ghost function ChainPath(d: Dirs, root: string, id: U64, n: nat): string
    requires Climbs(d, Below(d, {ROOT}), id, n)
    decreases n
  {
    JoinMftPath(if n == 0 then root else ChainPath(d, root, Up(d, id), n - 1), d[id].name)
  }

  lemma ResolvedIsNeverForced(d: Dirs, id: U64)
    requires Reached(d, {ROOT}, id) && ROOT !in d
    ensures id !in AllStops(d)
  {
    LaterStopsAreKeys(d, {ROOT});
    if id in Keys(d, {ROOT}) {
      KeysAreUnresolved(d, {ROOT}, id);
    }
  }

  lemma {:induction false} RealPath(d: Dirs, arrival: Order, root: string, id: U64, n: nat)
    requires d.Keys <= arrival.Keys && ROOT !in d
    requires Climbs(d, Below(d, {ROOT}), id, n)
    ensures FinalPaths(d, arrival, root)[id] == ChainPath(d, root, id, n)
    decreases n
  {
    var tops := Detached(d, arrival);
    EveryDirectoryIsPlaced(d, arrival, id);
    if n == 0 {
      assert !Cyclic(d, ROOT);
      PathOfTop(d, tops, root, id);
    } else {
      RealPath(d, arrival, root, Up(d, id), n - 1);
      assert Reached(d, {ROOT}, Up(d, id));
      ResolvedIsNeverForced(d, Up(d, id));
      EveryDirectoryIsPlaced(d, arrival, Up(d, id));
      PathOfStep(d, tops, root, id);
    }
  }

  /** A directory whose parent record never parsed resolves directly under the root path. */
  lemma MissingParentPath(d: Dirs, arrival: Order, root: string, id: U64)
    requires d.Keys <= arrival.Keys && ROOT !in d
    requires id in d && Up(d, id) !in d
    ensures FinalPaths(d, arrival, root)[id] == JoinMftPath(root, d[id].name)
  {
    var n := Height(d, Below(d, AllStops(d)), id) by {
      assert id !in Waiting(d, AllStops(d));
    }
    assert Climbs(d, Below(d, AllStops(d)), id, n);
    assert n > 0 ==> Climbs(d, Below(d, AllStops(d)), Up(d, id), n - 1);
    assert !Cyclic(d, Up(d, id));
    PathOfTop(d, Detached(d, arrival), root, id);
  }

  // ---------- No cycle is forced twice ----------

  /** Once one of two keys is forced, the other is resolved if its chain leads there. */
  lemma {:induction false} StopsApart(d: Dirs, stops: set<U64>, a: U64, b: U64)
    requires a in FinalStops(d, stops) - stops && b in FinalStops(d, stops) - stops
    requires Reached(d, {a}, b) && Reached(d, {b}, a)
    ensures a == b
    decreases |Waiting(d, stops)|
  {
    if Waiting(d, stops) != {} {
      var more := stops + Stuck(d, stops);
      StuckProgress(d, stops);
      SubsetCard(Waiting(d, more), Waiting(d, stops));
      if a in Stuck(d, stops) && b in Stuck(d, stops) {
        StuckInGraphIsAlone(d, stops, a, b);
      } else if a in Stuck(d, stops) {
        ForcedFirst(d, more, a, b);
      } else if b in Stuck(d, stops) {
        ForcedFirst(d, more, b, a);
      } else {
        StopsApart(d, more, a, b);
      }
    }
  }

  lemma StuckInGraphIsAlone(d: Dirs, stops: set<U64>, a: U64, b: U64)
    requires Waiting(d, stops) != {} && a in Stuck(d, stops) && b in Stuck(d, stops) && a in d && b in d
    ensures a == b
  {
    StuckAreKeys(d, stops);
    KeysAreUnresolved(d, stops, a);
  }

  lemma ForcedFirst(d: Dirs, stops: set<U64>, a: U64, b: U64)
    requires a in stops && Reached(d, {a}, b)
    ensures b !in FinalStops(d, stops) - stops
  {
    LaterStopsAreKeys(d, stops);
    MoreStopsReachMore(d, {a}, stops);
    if b in Keys(d, stops) {
      KeysAreUnresolved(d, stops, b);
    }
  }

  /** Round the cycle of a forced key, from the key down to its child, no other path starts. */
  lemma {:induction false} CycleClimb(d: Dirs, arrival: Order, key: U64, id: U64, n: nat)
    requires d.Keys <= arrival.Keys && ROOT !in d && key in AllStops(d) && Cyclic(d, key)
    requires Climbs(d, Below(d, {key}), id, n) && TopAt(d, Below(d, {key}), id, n) == CycleChild(d, key)
    requires Anchored(d, {id}, key)
    ensures Climbs(d, Detached(d, arrival), id, n)
    decreases n
  {
    if n > 0 {
      var up := Up(d, id);
      var m := Height(d, {id}, key);
      AnchoredTop(d, {up}, up);
      if id != up {
        AnchoredStep(d, {up}, id);
      }
      ClimbOnward(d, {id}, {up}, key, m);
      CycleClimb(d, arrival, key, up, n - 1);
      AnchoredTop(d, Below(d, {up}), id);
      ClimbOnward(d, {id}, Below(d, {up}), key, m);
      assert Reached(d, {key}, up);
      if up in AllStops(d) {
        StopsApart(d, {ROOT}, up, key);
      }
    }
  }

  lemma KeyClimb(d: Dirs, arrival: Order, key: U64, n: nat)
    requires d.Keys <= arrival.Keys && ROOT !in d && key in AllStops(d) && Cyclic(d, key)
    requires n == Height(d, Below(d, {key}), key)
    ensures Climbs(d, Detached(d, arrival), key, n) && Height(d, Detached(d, arrival), key) == n
  {
    AnchoredTop(d, {key}, key);
    CycleClimb(d, arrival, key, key, n);
    ClimbsUnique(d, Detached(d, arrival), key, n, Height(d, Detached(d, arrival), key));
  }

  // ---------- When the arrival order matters ----------

  /** One of the directories up to `n` parent steps above has a name. */
  ghost predicate SomeName(d: Dirs, id: U64, n: nat)
    decreases n
  {
    id in d && (d[id].name != "" || (n > 0 && SomeName(d, Up(d, id), n - 1)))
  }

  ghost predicate NamedCycle(d: Dirs, key: U64)
    requires Cyclic(d, key)
  {
    SomeName(d, key, Height(d, Below(d, {key}), key))
  }

  /** Each forced key that lies on a cycle has no child but the one on the cycle, or nothing on the cycle has a name. */
  ghost predicate OrderFree(d: Dirs) {
    forall key, id :: key in AllStops(d) && Cyclic(d, key) && NamedCycle(d, key) && id in d && Up(d, id) == key ==>
      id == CycleChild(d, key)
  }

  /** The length of the root path plus the separator a join would add after it. */
  function Reach(path: string): nat {
    |JoinMftPath(path, "")|
  }

  lemma JoinLength(path: string, name: string)
    ensures |JoinMftPath(path, name)| == Reach(path) + |name|
    ensures Reach(path) >= |path|
  {
  }

  lemma JoinAfterEmpty(path: string, name: string)
    ensures JoinMftPath(JoinMftPath(path, ""), name) == JoinMftPath(path, name)
  {
    assert path + "" == path && path + "\\" + "" == path + "\\";
  }

  lemma {:induction false} PathsAreLonger(d: Dirs, tops: set<U64>, root: string, id: U64, n: nat)
    requires Climbs(d, tops, id, n)
    ensures |PathAt(d, tops, root, id, n)| >= Reach(root) + if SomeName(d, id, n) then 1 else 0
    decreases n
  {
    if n == 0 {
      JoinLength(root, d[id].name);
    } else {
      PathsAreLonger(d, tops, root, Up(d, id), n - 1);
      JoinLength(PathAt(d, tops, root, Up(d, id), n - 1), d[id].name);
    }
  }

  lemma {:induction false} PathWithoutNames(d: Dirs, tops: set<U64>, root: string, id: U64, n: nat)
    requires Climbs(d, tops, id, n) && !SomeName(d, id, n)
    ensures PathAt(d, tops, root, id, n) == JoinMftPath(root, "")
    decreases n
  {
    if n > 0 {
      PathWithoutNames(d, tops, root, Up(d, id), n - 1);
      JoinAfterEmpty(root, "");
    }
  }

  /** Under that condition each directory's path is the one it has when every child of a stop starts a path. */
  lemma {:induction false} PathFromStops(d: Dirs, arrival: Order, root: string, id: U64, n: nat)
    requires d.Keys <= arrival.Keys && ROOT !in d && OrderFree(d) && Climbs(d, Below(d, AllStops(d)), id, n)
    ensures Anchored(d, Detached(d, arrival), id)
    ensures PathOf(d, Detached(d, arrival), root, id) == PathAt(d, Below(d, AllStops(d)), root, id, n)
    decreases n
  {
    var tops := Detached(d, arrival);
    EveryDirectoryIsPlaced(d, arrival, id);
    if id in tops {
      PathOfTop(d, tops, root, id);
    } else if n == 0 {
      var key := Up(d, id);
      var m := Height(d, Below(d, {key}), key);
      KeyClimb(d, arrival, key, m);
      PathWithoutNames(d, tops, root, key, m);
      PathOfStep(d, tops, root, id);
      JoinAfterEmpty(root, d[id].name);
    } else {
      PathFromStops(d, arrival, root, Up(d, id), n - 1);
      PathOfStep(d, tops, root, id);
    }
  }

  /** Confluence: under that condition every arrival order gives the same paths. */
  lemma Confluence(d: Dirs, first: Order, second: Order, root: string)
    requires d.Keys <= first.Keys && d.Keys <= second.Keys && ROOT !in d && OrderFree(d)
    ensures FinalPaths(d, first, root) == FinalPaths(d, second, root)
  {
    var below := Below(d, AllStops(d));
    forall id | id in d ensures FinalPaths(d, first, root)[id] == FinalPaths(d, second, root)[id] {
      assert id !in Waiting(d, AllStops(d));
      PathFromStops(d, first, root, id, Height(d, below, id));
      PathFromStops(d, second, root, id, Height(d, below, id));
    }
  }

  /** A sibling of the cycle child changes its path when it arrives on the other side of it. */
  lemma SiblingOrderMatters(d: Dirs, first: Order, second: Order, root: string, key: U64, id: U64)
    requires d.Keys <= first.Keys && d.Keys <= second.Keys && ROOT !in d
    requires key in AllStops(d) && Cyclic(d, key) && NamedCycle(d, key) && id in d && Up(d, id) == key
    requires first[id] >= first[CycleChild(d, key)] && second[id] < second[CycleChild(d, key)]
    ensures FinalPaths(d, first, root) != FinalPaths(d, second, root)
  {
    PathOfTop(d, Detached(d, first), root, id);
    var tops := Detached(d, second);
    var n := Height(d, Below(d, {key}), key);
    KeyClimb(d, second, key, n);
    PathOfStep(d, tops, root, id);
    PathsAreLonger(d, tops, root, key, n);
    JoinLength(root, d[id].name);
    JoinLength(PathOf(d, tops, root, key), d[id].name);
    assert FinalPaths(d, first, root)[id] == JoinMftPath(root, d[id].name);
    assert FinalPaths(d, second, root)[id] == JoinMftPath(PathOf(d, tops, root, key), d[id].name);
  }

  /** The paths of a whole stream of entries. */
  ghost function StreamPaths(es: seq<Entry>, root: string): map<U64, string>
    requires UniqueIds(es)
  {
    DirsOfEntries(es);
    FinalPaths(DirsOf(es), ArrivalOf(es), root)
  }

  function Swap<T>(s: seq<T>, i: nat, j: nat): seq<T>
    requires i < |s| && j < |s|
  {
    s[i := s[j]][j := s[i]]
  }

  lemma SwapKeepsEntries(es: seq<Entry>, i: nat, j: nat)
    requires i < |es| && j < |es| && UniqueIds(es)
    ensures multiset(Swap(es, i, j)) == multiset(es) && UniqueIds(Swap(es, i, j))
  {
  }

  ghost predicate SamePathsInEveryOrder(es: seq<Entry>, root: string)
    requires UniqueIds(es)
  {
    forall es': seq<Entry> ::
      multiset(es') == multiset(es) && UniqueIds(es') ==> StreamPaths(es', root) == StreamPaths(es, root)
  }

  /**
   The exact condition: every arrival order of the same entries gives the same paths if and only if no key that
   the final pass forces on a cycle with a name has a second child.
   */
  lemma ConfluentExactlyWhenOrderFree(es: seq<Entry>, root: string)
    requires UniqueIds(es)
    ensures SamePathsInEveryOrder(es, root) <==> OrderFree(DirsOf(es))
  {
    var d := DirsOf(es);
    DirsOfEntries(es);
    if OrderFree(d) {
      forall es': seq<Entry> | multiset(es') == multiset(es) && UniqueIds(es')
        ensures StreamPaths(es', root) == StreamPaths(es, root)
      {
        DirsIgnoreOrder(es, es');
        DirsOfEntries(es');
        Confluence(d, ArrivalOf(es), ArrivalOf(es'), root);
      }
    } else {
      var key, id :| key in AllStops(d) && Cyclic(d, key) && NamedCycle(d, key) && id in d && Up(d, id) == key
                     && id != CycleChild(d, key);
      SwapMatters(es, root, key, id);
    }
  }

  /** Two children of a forced key on a cycle change places. */
  lemma SwapMatters(es: seq<Entry>, root: string, key: U64, id: U64)
    requires UniqueIds(es)
    requires var d := DirsOf(es);
             && key in AllStops(d) && Cyclic(d, key) && NamedCycle(d, key) && id in d && Up(d, id) == key
             && id != CycleChild(d, key)
    ensures !SamePathsInEveryOrder(es, root)
  {
    var d := DirsOf(es);
    DirsOfEntries(es);
    var child := CycleChild(d, key);
    var i, j := ArrivalOf(es)[id], ArrivalOf(es)[child];
    var es' := Swap(es, i, j);
    SwapKeepsEntries(es, i, j);
    DirsIgnoreOrder(es, es');
    DirsOfEntries(es');
    assert es'[j].fileId == id && es'[i].fileId == child;
    hide AllStops, Cyclic, NamedCycle, FinalPaths;
    if i > j {
      SiblingOrderMatters(d, ArrivalOf(es), ArrivalOf(es'), root, key, id);
    } else {
      SiblingOrderMatters(d, ArrivalOf(es'), ArrivalOf(es), root, key, id);
    }
    assert StreamPaths(es', root) != StreamPaths(es, root);
  }

  // ---------- A concrete stream whose paths depend on the order ----------

  lemma {:induction false} ClosedSetNeverClimbs(d: Dirs, tops: set<U64>, closed: set<U64>, id: U64, n: nat)
    requires closed !! tops && (forall x <- closed :: x in d && Up(d, x) in closed) && id in closed
    ensures !Climbs(d, tops, id, n)
    decreases n
  {
    if n > 0 {
      ClosedSetNeverClimbs(d, tops, closed, Up(d, id), n - 1);
    }
  }

  function Folder(id: U64, parent: U64, name: string): Entry {
    Entry(id, Some(parent), name, true, NO_SIZES, false, Metadata(0, None, None, None))
  }

  const LOOP_A := Folder(10, 11, "a")
  const LOOP_B := Folder(11, 10, "b")
  const BRANCH := Folder(12, 10, "c")

  lemma LoopStops(d: Dirs)
    requires d == map[10 := Dir(Some(11), "a"), 11 := Dir(Some(10), "b"), 12 := Dir(Some(10), "c")]
    ensures 10 in AllStops(d) && Cyclic(d, 10) && NamedCycle(d, 10) && CycleChild(d, 10) == 11
  {
    forall id: U64 | id in {10, 11, 12} ensures !Reached(d, {ROOT}, id) {
      if n: nat :| Climbs(d, Below(d, {ROOT}), id, n) {
        ClosedSetNeverClimbs(d, Below(d, {ROOT}), {10, 11, 12}, id, n);
      }
    }
    assert Waiting(d, {ROOT}) == {10, 11, 12};
    assert Up(d, 10) == 11 && Up(d, 11) == 10 && Up(d, 12) == 10;
    assert 10 in Keys(d, {ROOT}) && 11 in Keys(d, {ROOT});
    assert Keys(d, {ROOT}) == {10, 11};
    assert Stuck(d, {ROOT}) == {10};
    assert Climbs(d, Below(d, {10}), 11, 0);
    assert Climbs(d, Below(d, {10}), 10, 1);
    ClimbsUnique(d, Below(d, {10}), 10, 1, Height(d, Below(d, {10}), 10));
    StuckProgress(d, {ROOT});
    assert AllStops(d) == FinalStops(d, {ROOT} + Stuck(d, {ROOT}));
  }

  /**
   Two directories that are each other's parent, and a third below the first: the third is found under the
   root path when it arrives last, and under the rebuilt cycle when it arrives before the second.
   */
  lemma OrderCanMatter()
    ensures UniqueIds([LOOP_A, LOOP_B, BRANCH]) && UniqueIds([LOOP_A, BRANCH, LOOP_B])
    ensures StreamPaths([LOOP_A, LOOP_B, BRANCH], "C:") != StreamPaths([LOOP_A, BRANCH, LOOP_B], "C:")
  {
    var first, second := [LOOP_A, LOOP_B, BRANCH], [LOOP_A, BRANCH, LOOP_B];
    LoopDirs(LOOP_B, BRANCH);
    LoopDirs(BRANCH, LOOP_B);
    var d := map[10 := Dir(Some(11), "a"), 11 := Dir(Some(10), "b"), 12 := Dir(Some(10), "c")];
    assert DirsOf(first) == d && DirsOf(second) == d;
    LoopStops(d);
    SiblingOrderMatters(d, ArrivalOf(first), ArrivalOf(second), "C:", 10, 12);
  }

  lemma LoopDirs(x: Entry, y: Entry)
    requires {x, y} == {LOOP_B, BRANCH}
    ensures UniqueIds([LOOP_A, x, y])
    ensures DirsOf([LOOP_A, x, y]) ==
              map[10 := Dir(Some(11), "a"), x.fileId := Dir(x.parent, x.name), y.fileId := Dir(y.parent, y.name)]
    ensures ArrivalOf([LOOP_A, x, y]) == map[10 := 0, x.fileId := 1, y.fileId := 2]
  {
    assert x in {LOOP_B, BRANCH} && y in {LOOP_B, BRANCH} && x != y;
    PlacedNext([], LOOP_A);
    PlacedNext([LOOP_A], x);
    PlacedNext([LOOP_A, x], y);
    assert [] + [LOOP_A] == [LOOP_A] && [LOOP_A] + [x] == [LOOP_A, x] && [LOOP_A, x] + [y] == [LOOP_A, x, y];
  }

  lemma PlacedNext(es: seq<Entry>, e: Entry)
    requires IsPlaced(e)
    ensures DirsOf(es + [e]) == DirsOf(es)[e.fileId := Dir(e.parent, e.name)]
    ensures ArrivalOf(es + [e]) == ArrivalOf(es)[e.fileId := |es|]
  {
    assert (es + [e])[..|es|] == es;
  }
}
