/**
 What the final paths of a stream say, read off the records: a path is the root path followed by the names on a chain
 of directory records, each the parent of the next, one backslash before each name.
 */
module PathMeaning {
  import opened Basics
  import opened Paths
  import opened ParentGraph
  import opened MftRecords
  import opened ArrivalOrder

  ghost predicate IsDirectoryOf(es: seq<Entry>, e: Entry) {
    e in es && e.isDirectory && e.fileId != 5
  }

  /** Directory records, each of which names the one before it as its parent. */
  ghost predicate IsLinked(es: seq<Entry>, chain: seq<Entry>) {
    && chain != []
    && (forall i :: 0 <= i < |chain| ==> IsDirectoryOf(es, chain[i]))
    && (forall i :: 0 < i < |chain| ==>
          chain[i].parent == Some(chain[i - 1].fileId) && chain[i].fileId != chain[i - 1].fileId)
  }

  /** Nothing lies above the record: its parent is record 5, itself, missing, or none at all. */
  ghost predicate IsRooted(es: seq<Entry>, e: Entry) {
    match e.parent
    case None => true
    case Some(p) => p == 5 || p == e.fileId || forall other <- es :: other.isDirectory ==> other.fileId != p
  }

  function Names(chain: seq<Entry>): (names: seq<string>)
    ensures |names| == |chain| && forall i :: 0 <= i < |chain| ==> names[i] == chain[i].name
  {
    seq(|chain|, i requires 0 <= i < |chain| => chain[i].name)
  }

  ghost predicate PlainNames(chain: seq<Entry>) {
    forall e <- chain :: IsPlainName(e.name)
  }

  // ---------- The chain in the graph of parent links ----------

  lemma OnGraph(es: seq<Entry>, e: Entry)
    requires UniqueIds(es) && IsDirectoryOf(es, e)
    ensures e.fileId in DirsOf(es) && DirsOf(es)[e.fileId] == Dir(e.parent, e.name)
    ensures ArrivalOf(es).Keys == DirsOf(es).Keys && ROOT !in DirsOf(es)
  {
    DirsOfEntries(es);
    var i :| 0 <= i < |es| && es[i] == e;
    assert EntryAt(es, es[i], i);
  }

  lemma LinkIsUp(es: seq<Entry>, chain: seq<Entry>, i: nat)
    requires UniqueIds(es) && IsLinked(es, chain) && 0 < i < |chain|
    ensures chain[i].fileId in DirsOf(es) && Up(DirsOf(es), chain[i].fileId) == chain[i - 1].fileId
  {
    hide DirsOf, UniqueIds;
    OnGraph(es, chain[i]);
  }

  lemma RootedUp(es: seq<Entry>, e: Entry)
    requires UniqueIds(es) && IsDirectoryOf(es, e) && IsRooted(es, e)
    ensures e.fileId in DirsOf(es) && Up(DirsOf(es), e.fileId) !in DirsOf(es)
    ensures Up(DirsOf(es), e.fileId) == ROOT || e.parent == Some(Up(DirsOf(es), e.fileId))
  {
    OnGraph(es, e);
    var d, key := DirsOf(es), Up(DirsOf(es), e.fileId);
    if key in d {
      var other := RecordOf(es, key);
    }
  }

  lemma RecordOf(es: seq<Entry>, id: U64) returns (e: Entry)
    requires UniqueIds(es) && id in DirsOf(es)
    ensures IsDirectoryOf(es, e) && e.fileId == id
  {
    DirsOfEntries(es);
    assert FromEntry(es, id);
    e := es[ArrivalOf(es)[id]];
  }

  // ---------- Where the path of a rooted chain starts ----------

  /** What a key that is no directory holds back is released by the first round, and never forced. */
  lemma ReleasedFirst(d: Dirs, top: U64, id: U64)
    requires ROOT !in d && top in d && Up(d, top) !in d && Reached(d, {ROOT, Up(d, top)}, id)
    ensures Up(d, top) in AllStops(d) && id !in AllStops(d)
  {
    var key := Up(d, top);
    if key == ROOT {
      assert {ROOT, key} == {ROOT};
      ResolvedIsNeverForced(d, id);
    } else {
      KeyIsStuck(d, top);
      var more := {ROOT} + Stuck(d, {ROOT});
      MoreStopsReachMore(d, {ROOT, key}, more);
      assert AllStops(d) == FinalStops(d, more);
      LaterStopsAreKeys(d, more);
      if id in Keys(d, more) {
        KeysAreUnresolved(d, more, id);
      }
    }
  }

  lemma KeyIsStuck(d: Dirs, top: U64)
    requires ROOT !in d && top in d && Up(d, top) !in d && Up(d, top) != ROOT
    ensures Waiting(d, {ROOT}) != {} && Up(d, top) in Stuck(d, {ROOT})
    ensures Stuck(d, {ROOT}) !! d.Keys
  {
    forall n: nat ensures !Climbs(d, Below(d, {ROOT}), top, n) {
    }
    assert top in Waiting(d, {ROOT});
    assert Up(d, top) in Keys(d, {ROOT}) - Waiting(d, {ROOT});
    forall key | key in Keys(d, {ROOT}) && key in d ensures key in Waiting(d, {ROOT}) {
      KeysAreUnresolved(d, {ROOT}, key);
    }
  }

  lemma {:induction false} ChainIsReached(es: seq<Entry>, chain: seq<Entry>, i: nat)
    requires UniqueIds(es) && IsLinked(es, chain) && IsRooted(es, chain[0]) && i < |chain|
    ensures chain[0].fileId in DirsOf(es)
    ensures var d := DirsOf(es); Reached(d, {ROOT, Up(d, chain[0].fileId)}, chain[i].fileId)
  {
    hide DirsOf, UniqueIds;
    var d := DirsOf(es);
    OnGraph(es, chain[0]);
    var below := Below(d, {ROOT, Up(d, chain[0].fileId)});
    if i == 0 {
      AnchoredTop(d, below, chain[0].fileId);
    } else {
      ChainIsReached(es, chain, i - 1);
      LinkIsUp(es, chain, i);
      if chain[i].fileId in below {
        AnchoredTop(d, below, chain[i].fileId);
      } else {
        AnchoredStep(d, below, chain[i].fileId);
      }
    }
  }

  /** Of a rooted chain only the first record starts a path. */
  lemma RootedChainStartsOnce(es: seq<Entry>, chain: seq<Entry>)
    requires UniqueIds(es) && IsLinked(es, chain) && IsRooted(es, chain[0])
    ensures DirsOf(es).Keys <= ArrivalOf(es).Keys
    ensures StartsOnce(Detached(DirsOf(es), ArrivalOf(es)), chain)
  {
    var d := DirsOf(es);
    OnGraph(es, chain[0]);
    RootedUp(es, chain[0]);
    hide DirsOf, ArrivalOf, UniqueIds, AllStops;
    assert !Cyclic(d, Up(d, chain[0].fileId));
    ChainIsReached(es, chain, 0);
    ReleasedFirst(d, chain[0].fileId, chain[0].fileId);
    forall i | 0 < i < |chain| ensures chain[i].fileId !in Detached(d, ArrivalOf(es)) {
      LinkIsUp(es, chain, i);
      ChainIsReached(es, chain, i - 1);
      ReleasedFirst(d, chain[0].fileId, chain[i - 1].fileId);
    }
  }

  ghost predicate StartsOnce(tops: set<U64>, chain: seq<Entry>) {
    chain != [] && chain[0].fileId in tops && forall i :: 0 < i < |chain| ==> chain[i].fileId !in tops
  }

  // ---------- The path of a chain ----------

  lemma {:induction false} SpelledChain(es: seq<Entry>, tops: set<U64>, root: string, chain: seq<Entry>)
    requires UniqueIds(es) && IsLinked(es, chain) && PlainNames(chain) && StartsOnce(tops, chain)
    ensures var d, id, n := DirsOf(es), chain[|chain| - 1].fileId, |chain| - 1;
            Climbs(d, tops, id, n) && PathAt(d, tops, root, id, n) == Unterminated(root) + Spelled(Names(chain))
    decreases |chain|
  {
    hide DirsOf, UniqueIds, Unterminated, Spelled, JoinMftPath;
    var d, n := DirsOf(es), |chain| - 1;
    var e, before := chain[n], chain[..n];
    OnGraph(es, e);
    assert e in chain;
    if n == 0 {
      assert Names(chain) == [e.name];
      FirstJoin(root, e.name);
    } else {
      SpelledChain(es, tops, root, before);
      LinkIsUp(es, chain, n);
      assert before[n - 1] in chain;
      assert Names(chain) == Names(before) + [e.name];
      NextJoin(Unterminated(root), Names(before), e.name);
    }
  }

  lemma FirstJoin(root: string, name: string)
    ensures JoinMftPath(root, name) == Unterminated(root) + Spelled([name])
  {
    assert [name][..0] == [] && Spelled([]) + "\\" + name == "\\" + name;
    if EndsWithSeparator(root) {
      assert root == Unterminated(root) + "\\";
    }
  }

  lemma NextJoin(base: string, names: seq<string>, name: string)
    requires names != [] && IsPlainName(names[|names| - 1])
    ensures JoinMftPath(base + Spelled(names), name) == base + Spelled(names + [name])
  {
    SpelledEnds(names);
    SpelledNext(names, name);
    hide Spelled, JoinMftPath;
    JoinAfter(base, Spelled(names), name);
  }

  lemma JoinAfter(base: string, path: string, name: string)
    requires path != "" && path[|path| - 1] != '\\'
    ensures JoinMftPath(base + path, name) == base + (path + "\\" + name)
  {
    Associates(base, path, "\\");
    Associates(base, path + "\\", name);
  }

  lemma SpelledNext(names: seq<string>, name: string)
    ensures Spelled(names + [name]) == Spelled(names) + "\\" + name
  {
    assert (names + [name])[..|names|] == names;
  }

  lemma SpelledEnds(names: seq<string>)
    requires names != [] && IsPlainName(names[|names| - 1])
    ensures Spelled(names) != "" && Spelled(names)[|Spelled(names)| - 1] != '\\'
  {
    var last := names[|names| - 1];
    assert last[|last| - 1] in last;
  }

  /** A directory whose parent links lead to record 5, or end at a record that has no parent among the directories, has
      the root path followed by exactly the names on the way. */
  lemma RootedPath(es: seq<Entry>, root: string, chain: seq<Entry>)
    requires UniqueIds(es) && IsLinked(es, chain) && IsRooted(es, chain[0]) && PlainNames(chain)
    ensures var id, paths := chain[|chain| - 1].fileId, StreamPaths(es, root);
            && id in paths && paths[id] == Unterminated(root) + Spelled(Names(chain))
            && Pieces(paths[id]) == Pieces(root) + Names(chain)
  {
    RootedChainStartsOnce(es, chain);
    ChainPieces(es, root, chain);
  }

  lemma ChainPieces(es: seq<Entry>, root: string, chain: seq<Entry>)
    requires UniqueIds(es) && IsLinked(es, chain) && PlainNames(chain) && DirsOf(es).Keys <= ArrivalOf(es).Keys
    requires StartsOnce(Detached(DirsOf(es), ArrivalOf(es)), chain)
    ensures var id, paths := chain[|chain| - 1].fileId, StreamPaths(es, root);
            && id in paths && paths[id] == Unterminated(root) + Spelled(Names(chain))
            && Pieces(paths[id]) == Pieces(root) + Names(chain)
  {
    var d, arrival, id := DirsOf(es), ArrivalOf(es), chain[|chain| - 1].fileId;
    var tops := Detached(d, arrival);
    OnGraph(es, chain[|chain| - 1]);
    SpelledChain(es, tops, root, chain);
    hide DirsOf, ArrivalOf, UniqueIds, Detached, Pieces, Spelled, Unterminated, IsLinked, StartsOnce;
    ClimbsUnique(d, tops, id, |chain| - 1, Height(d, tops, id));
    forall name | name in Names(chain) ensures IsPlainName(name) {
      var i :| 0 <= i < |chain| && Names(chain)[i] == name;
      assert chain[i] in chain;
    }
    SpelledPieces(root, Names(chain));
  }

  // ---------- Every path ----------

  lemma {:induction false} ClimbIsChain(es: seq<Entry>, tops: set<U64>, id: U64, n: nat) returns (chain: seq<Entry>)
    requires UniqueIds(es) && Climbs(DirsOf(es), tops, id, n)
    ensures IsLinked(es, chain) && StartsOnce(tops, chain) && chain[|chain| - 1].fileId == id
    decreases n
  {
    hide DirsOf, ArrivalOf, UniqueIds;
    var d := DirsOf(es);
    var e := RecordOf(es, id);
    OnGraph(es, e);
    if n == 0 {
      chain := [e];
    } else {
      var before := ClimbIsChain(es, tops, Up(d, id), n - 1);
      assert Up(d, id) in d;
      chain := before + [e];
      OneMoreLink(es, tops, before, e);
    }
  }

  lemma OneMoreLink(es: seq<Entry>, tops: set<U64>, before: seq<Entry>, e: Entry)
    requires IsLinked(es, before) && StartsOnce(tops, before) && IsDirectoryOf(es, e) && e.fileId !in tops
    requires e.parent == Some(before[|before| - 1].fileId) && e.fileId != before[|before| - 1].fileId
    ensures IsLinked(es, before + [e]) && StartsOnce(tops, before + [e])
  {
  }

  /** Every directory of the stream has a path, and the path spells a chain of records that ends in it. */
  lemma EveryPathIsSpelled(es: seq<Entry>, root: string, e: Entry) returns (chain: seq<Entry>)
    requires UniqueIds(es) && IsDirectoryOf(es, e) && forall other <- es :: IsPlainName(other.name)
    ensures IsLinked(es, chain) && chain[|chain| - 1] == e
    ensures var paths := StreamPaths(es, root);
            && e.fileId in paths && paths[e.fileId] == Unterminated(root) + Spelled(Names(chain))
            && Pieces(paths[e.fileId]) == Pieces(root) + Names(chain)
  {
    OnGraph(es, e);
    var d, arrival := DirsOf(es), ArrivalOf(es);
    EveryDirectoryIsPlaced(d, arrival, e.fileId);
    var tops := Detached(d, arrival);
    chain := ClimbIsChain(es, tops, e.fileId, Height(d, tops, e.fileId));
    SameIdSameEntry(es, chain[|chain| - 1], e);
    hide UniqueIds, DirsOf, ArrivalOf, StreamPaths, Detached;
    ChainPieces(es, root, chain);
  }

  lemma SameIdSameEntry(es: seq<Entry>, a: Entry, b: Entry)
    requires UniqueIds(es) && a in es && b in es && a.fileId == b.fileId
    ensures a == b
  {
    var i :| 0 <= i < |es| && es[i] == a;
    var j :| 0 <= j < |es| && es[j] == b;
  }

  /** Nothing but the directories of the stream and record 5 has a path, and record 5 has the root path. */
  lemma OnlyDirectoriesHavePaths(es: seq<Entry>, root: string, id: U64)
    requires UniqueIds(es)
    ensures id in StreamPaths(es, root) <==>
            id == 5 || exists i :: 0 <= i < |es| && es[i].isDirectory && es[i].fileId == id
    ensures StreamPaths(es, root)[5] == root
  {
    DirsOfEntries(es);
    if id in DirsOf(es) {
      assert FromEntry(es, id);
      assert es[ArrivalOf(es)[id]].isDirectory;
    }
    if i :| 0 <= i < |es| && es[i].isDirectory && es[i].fileId == id && id != 5 {
      assert EntryAt(es, es[i], i);
    }
  }
}
