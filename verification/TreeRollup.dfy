/** Rolling up the tree: direct file contributions, breadth-first order, and one sweep backwards over it. */
module TreeRollup {
  import opened Basics
  import opened Rollups
  import opened TreeIndex

  // ---------- The entries of a catalog ----------

  function FileWeight(f: File): Rollup {
    Rollup(f.size, f.allocation, 1, 1, f.modified)
  }

  /** A file counts in its directory, or in the root when its directory is unknown. */
  function Home(lookup: DirectoryLookup, root: Option<nat>, f: File): Option<nat> {
    match Get(lookup, f.parent)
    case Some(i) => Some(i)
    case None => root
  }

  ghost function FileItems(files: seq<File>, lookup: DirectoryLookup, root: Option<nat>): seq<Item> {
    if files == [] then []
    else
      var f := files[|files| - 1];
      FileItems(files[..|files| - 1], lookup, root) +
      match Home(lookup, root, f) case Some(i) => [FileItem(i, FileWeight(f))] case None => []
  }

  ghost function DirectoryItems(parents: Parents, limit: nat): seq<Item>
    requires limit <= |parents|
  {
    if limit == 0 then []
    else DirectoryItems(parents, limit - 1) + if parents[limit - 1].Some? then [DirectoryItem(limit - 1)] else []
  }

  ghost function AllItems(files: seq<File>, lookup: DirectoryLookup, root: Option<nat>, parents: Parents): seq<Item> {
    FileItems(files, lookup, root) + DirectoryItems(parents, |parents|)
  }

  lemma {:induction false} FileItemsAreFiles(files: seq<File>, lookup: DirectoryLookup, root: Option<nat>)
    ensures forall item <- FileItems(files, lookup, root) :: item.FileItem?
  {
    if files != [] {
      FileItemsAreFiles(files[..|files| - 1], lookup, root);
    }
  }

  ghost predicate AreDirectories(parents: Parents, items: seq<Item>, limit: nat) {
    forall k :: 0 <= k < |items| ==>
      items[k].DirectoryItem? && items[k].index < limit && limit <= |parents| && parents[items[k].index].Some?
  }

  ghost predicate Different(items: seq<Item>) {
    forall j, k :: 0 <= j < k < |items| ==> items[j] != items[k]
  }

  lemma {:induction false} DirectoryItemsAre(parents: Parents, limit: nat)
    requires limit <= |parents|
    ensures AreDirectories(parents, DirectoryItems(parents, limit), limit) && Different(DirectoryItems(parents, limit))
  {
    if limit > 0 {
      DirectoryItemsAre(parents, limit - 1);
    }
  }

  lemma {:induction false} DirectoryItemsList(parents: Parents, limit: nat, d: nat)
    requires d < limit <= |parents| && parents[d].Some?
    ensures Listed(DirectoryItems(parents, limit), d)
  {
    var before := DirectoryItems(parents, limit - 1);
    if d == limit - 1 {
      assert DirectoryItems(parents, limit)[|before|] == DirectoryItem(d);
    } else {
      DirectoryItemsList(parents, limit - 1, d);
      var k :| 0 <= k < |before| && before[k] == DirectoryItem(d);
      assert DirectoryItems(parents, limit)[k] == DirectoryItem(d);
    }
  }

  lemma AllItemsOk(files: seq<File>, lookup: DirectoryLookup, root: Option<nat>, parents: Parents)
    ensures ItemsOk(parents, AllItems(files, lookup, root, parents))
  {
    var fs, ds := FileItems(files, lookup, root), DirectoryItems(parents, |parents|);
    var items := AllItems(files, lookup, root, parents);
    FileItemsAreFiles(files, lookup, root);
    DirectoryItemsAre(parents, |parents|);
    assert forall k :: 0 <= k < |fs| ==> items[k] in fs;
    assert forall k :: |fs| <= k < |items| ==> items[k] == ds[k - |fs|];
    forall d | 0 <= d < |parents| && parents[d].Some? ensures Listed(items, d) {
      DirectoryItemsList(parents, |parents|, d);
      var k :| 0 <= k < |ds| && ds[k] == DirectoryItem(d);
      assert items[|fs| + k] == DirectoryItem(d);
    }
  }

  /** One more entry adds its weight where it counts. */
  lemma TotalNext(parents: Parents, open: iset<nat>, items: seq<Item>, item: Item, v: nat)
    requires InBounds(parents)
    ensures TotalOf(parents, open, items + [item], v) ==
            if CountsIn(parents, open, item, v) then Plus(TotalOf(parents, open, items, v), Weight(item))
            else TotalOf(parents, open, items, v)
  {
    var more := items + [item];
    assert Weights(more)[..|items|] == Weights(items);
    FoldAgrees(Weights(items), Held(parents, open, items, v), Held(parents, open, more, v));
  }

  lemma {:induction false} ClosedDirectoriesCountNowhere(parents: Parents, items: seq<Item>, limit: nat, v: nat)
    requires InBounds(parents) && limit <= |parents|
    ensures TotalOf(parents, iset{}, items + DirectoryItems(parents, limit), v) == TotalOf(parents, iset{}, items, v)
  {
    if limit == 0 {
      assert items + [] == items;
    } else {
      hide TotalOf;
      ClosedDirectoriesCountNowhere(parents, items, limit - 1, v);
      var before := DirectoryItems(parents, limit - 1);
      if parents[limit - 1].Some? {
        assert DirectoryItems(parents, limit) == before + [DirectoryItem(limit - 1)];
        hide DirectoryItems;
        TotalNext(parents, iset{}, items + before, DirectoryItem(limit - 1), v);
        assert items + (before + [DirectoryItem(limit - 1)]) == items + before + [DirectoryItem(limit - 1)];
      } else {
        assert DirectoryItems(parents, limit) == before;
      }
    }
  }

  lemma NothingOpen(parents: Parents, d: nat, v: nat)
    requires InBounds(parents)
    ensures IsUnder(parents, iset{}, d, v) <==> d == v && d < |parents|
  {
    if d < |parents| && d == v {
      UnderSelf(parents, iset{}, v);
    }
  }

  /** Adds every file to its own directory. */
  method AddFiles(files: seq<File>, lookup: DirectoryLookup, root: Option<nat>, parents: Parents)
    returns (rollups: seq<Rollup>)
    requires InBounds(parents)
    requires forall f <- files :: Home(lookup, root, f).Some? ==> Home(lookup, root, f).value < |parents|
    ensures |rollups| == |parents|
    ensures forall v :: 0 <= v < |parents| ==>
              rollups[v] == TotalOf(parents, iset{}, AllItems(files, lookup, root, parents), v)
  {
    ghost var n := |parents|;
    rollups := seq(|parents|, _ => NOTHING);
    forall v | 0 <= v < n ensures rollups[v] == TotalOf(parents, iset{}, FileItems([], lookup, root), v) {
    }
    assert files[..0] == [];
    for i := 0 to |files|
      invariant |rollups| == n
      invariant forall v ::
                  0 <= v < n ==> rollups[v] == TotalOf(parents, iset{}, FileItems(files[..i], lookup, root), v)
    {
      assert files[..i + 1][..i] == files[..i] && files[i] in files;
      var home := Home(lookup, root, files[i]);
      if home.Some? {
        ghost var item := FileItem(home.value, FileWeight(files[i]));
        assert FileItems(files[..i + 1], lookup, root) == FileItems(files[..i], lookup, root) + [item];
        forall v | 0 <= v < n
          ensures TotalOf(parents, iset{}, FileItems(files[..i + 1], lookup, root), v) ==
                  if v == home.value then Plus(rollups[v], FileWeight(files[i])) else rollups[v]
        {
          NothingOpen(parents, home.value, v);
          TotalNext(parents, iset{}, FileItems(files[..i], lookup, root), item, v);
        }
        rollups := rollups[home.value := Plus(rollups[home.value], FileWeight(files[i]))];
      } else {
        assert FileItems(files[..i + 1], lookup, root) == FileItems(files[..i], lookup, root);
      }
    }
    assert files[..|files|] == files;
    forall v | 0 <= v < n
      ensures rollups[v] == TotalOf(parents, iset{}, AllItems(files, lookup, root, parents), v)
    {
      ClosedDirectoriesCountNowhere(parents, FileItems(files, lookup, root), n, v);
    }
  }

  // ---------- Breadth-first order ----------

  ghost predicate Distinct(s: seq<nat>) {
    forall i, j :: 0 <= i < j < |s| ==> s[i] != s[j]
  }

  ghost predicate ParentBefore(parents: Parents, order: seq<nat>, j: nat, limit: nat)
    requires j < |order| && order[j] < |parents|
  {
    parents[order[j]].Some? && exists k :: 0 <= k < j && k < limit && order[k] == parents[order[j]].value
  }

  /** The first `cursor` directories of the order have been expanded. */
  ghost predicate Expanding(parents: Parents, root: nat, order: seq<nat>, cursor: nat) {
    && cursor <= |order| && order != [] && order[0] == root && root < |parents| && parents[root].None?
       && Distinct(order)
    && (forall v <- order :: v < |parents|) && (forall j :: 0 <= j < |order| ==> order[j] < |parents|)
    && (forall j :: 1 <= j < |order| ==> ParentBefore(parents, order, j, cursor))
    && ChildrenListed(parents, order, cursor)
  }

  ghost predicate ChildrenListed(parents: Parents, order: seq<nat>, cursor: nat)
    requires cursor <= |order|
  {
    forall c :: 0 <= c < |parents| && parents[c].Some? && parents[c].value in order[..cursor] ==> c in order
  }

  /** Each directory is visited at most once, whatever the parent links are. */
  lemma VisitedBelowOthers(parents: Parents, root: nat, order: seq<nat>, cursor: nat, c: nat)
    requires Expanding(parents, root, order, cursor) && cursor < |order| && c in order
    ensures c < |parents| && parents[c] != Some(order[cursor])
  {
    var j :| 0 <= j < |order| && order[j] == c;
    assert j > 0 ==> ParentBefore(parents, order, j, cursor);
  }

  lemma ExpandStep(parents: Parents, root: nat, order: seq<nat>, cursor: nat)
    requires InBounds(parents) && Expanding(parents, root, order, cursor) && cursor < |order|
    ensures order[cursor] < |parents|
    ensures Expanding(parents, root, order + ChildrenOf(parents, order[cursor], |parents|), cursor + 1)
  {
    hide Distinct, ParentBefore, ChildrenListed, Rising, ChildrenOf;
    var children := ChildrenOf(parents, order[cursor], |parents|);
    var next := order + children;
    var done := cursor + 1;
    ExpandNew(parents, root, order, cursor);
    forall j | 0 <= j < |next|
      ensures next[j] < |parents|
      ensures j > 0 ==> ParentBefore(parents, next, j, done)
    {
      ExpandParents(parents, root, order, cursor, children, j);
    }
    ExpandComplete(parents, order, cursor, children);
  }

  lemma ExpandNew(parents: Parents, root: nat, order: seq<nat>, cursor: nat)
    requires InBounds(parents) && Expanding(parents, root, order, cursor) && cursor < |order|
    ensures var children := ChildrenOf(parents, order[cursor], |parents|);
            && Distinct(order + children)
            && (forall c <- children :: c < |parents| && parents[c] == Some(order[cursor]))
            && (forall c :: 0 <= c < |parents| && parents[c] == Some(order[cursor]) ==> c in children)
  {
    var children := ChildrenOf(parents, order[cursor], |parents|);
    ChildrenAre(parents, order[cursor], |parents|);
    forall c | c in children ensures c !in order {
      if c in order {
        VisitedBelowOthers(parents, root, order, cursor, c);
      }
    }
    ExpandDistinct(order, children);
  }

  lemma ExpandParents(parents: Parents, root: nat, order: seq<nat>, cursor: nat, children: seq<nat>, j: nat)
    requires Expanding(parents, root, order, cursor) && cursor < |order| && j < |order + children|
    requires forall c <- children :: c < |parents| && parents[c] == Some(order[cursor])
    ensures (order + children)[j] < |parents| && (j > 0 ==> ParentBefore(parents, order + children, j, cursor + 1))
  {
    var next := order + children;
    if j >= |order| {
      assert next[j] in children && next[cursor] == order[cursor];
    } else if j > 0 {
      assert ParentBefore(parents, order, j, cursor);
      var k :| 0 <= k < j && k < cursor && order[k] == parents[order[j]].value;
      assert next[k] == order[k];
    }
  }

  lemma ExpandComplete(parents: Parents, order: seq<nat>, cursor: nat, children: seq<nat>)
    requires cursor < |order| && ChildrenListed(parents, order, cursor)
    requires forall c :: 0 <= c < |parents| && parents[c] == Some(order[cursor]) ==> c in children
    ensures ChildrenListed(parents, order + children, cursor + 1)
  {
    assert (order + children)[..cursor + 1] == order[..cursor] + [order[cursor]];
  }

  lemma ExpandDistinct(order: seq<nat>, children: seq<nat>)
    requires Distinct(order) && Rising(children) && forall c <- children :: c !in order
    ensures Distinct(order + children)
  {
    var next := order + children;
    forall i, j | 0 <= i < j < |next| ensures next[i] != next[j] {
      if i < |order| <= j {
        assert next[i] in order && next[j] in children;
      }
    }
  }

  ghost function Elements(s: seq<nat>): set<nat> {
    set i | 0 <= i < |s| :: s[i]
  }

  lemma {:induction false} DistinctSize(s: seq<nat>)
    requires Distinct(s)
    ensures |Elements(s)| == |s|
  {
    if s != [] {
      var n := |s| - 1;
      DistinctSize(s[..n]);
      assert Elements(s) == Elements(s[..n]) + {s[n]};
    }
  }

  ghost function UpTo(n: nat): (r: set<nat>)
    ensures |r| == n && forall i: nat :: i in r <==> i < n
  {
    if n == 0 then {} else UpTo(n - 1) + {n - 1}
  }

  lemma DistinctIsBounded(s: seq<nat>, n: nat)
    requires Distinct(s) && forall v <- s :: v < n
    ensures |s| <= n
  {
    DistinctSize(s);
    forall v | v in Elements(s) ensures v in UpTo(n) {
      assert v in s;
    }
    assert UpTo(n) == Elements(s) + (UpTo(n) - Elements(s));
  }

  method BreadthFirst(parents: Parents, root: nat, ranges: seq<(nat, nat)>, children: seq<nat>)
    returns (order: seq<nat>, parentOf: seq<Option<nat>>)
    requires InBounds(parents) && root < |parents| && parents[root].None? && IsGrouped(parents, ranges, children)
    ensures Expanding(parents, root, order, |order|)
    ensures |parentOf| == |parents| && forall v <- order :: parentOf[v] == parents[v]
  {
    parentOf := seq(|parents|, _ => None);
    order := [root];
    var cursor := 0;
    while cursor < |order|
      invariant Expanding(parents, root, order, cursor) && |parentOf| == |parents|
      invariant forall v <- order :: parentOf[v] == parents[v]
      decreases |parents| - cursor
    {
      hide Expanding;
      ExpandStep(parents, root, order, cursor);
      ExpandedIsBounded(parents, root, order, cursor);
      var current := order[cursor];
      var slots := children[ranges[current].0..ranges[current].1];
      ChildrenAre(parents, current, |parents|);
      parentOf := SetParents(parentOf, slots, current);
      order := order + slots;
      cursor := cursor + 1;
      ExpandedIsBounded(parents, root, order, cursor);
    }
  }

  method SetParents(parentOf: seq<Option<nat>>, slots: seq<nat>, current: nat) returns (after: seq<Option<nat>>)
    requires forall v <- slots :: v < |parentOf|
    ensures |after| == |parentOf|
    ensures forall v :: 0 <= v < |after| ==> after[v] == if v in slots then Some(current) else parentOf[v]
  {
    after := parentOf;
    for slot := 0 to |slots|
      invariant |after| == |parentOf|
      invariant forall v :: 0 <= v < |after| ==> after[v] == if v in slots[..slot] then Some(current) else parentOf[v]
    {
      assert slots[slot] in slots && slots[..slot + 1] == slots[..slot] + [slots[slot]];
      after := after[slots[slot] := Some(current)];
    }
    assert slots[..|slots|] == slots;
  }

  lemma ExpandedIsBounded(parents: Parents, root: nat, order: seq<nat>, cursor: nat)
    requires Expanding(parents, root, order, cursor)
    ensures cursor <= |order| <= |parents| && forall v <- order :: v < |parents|
  {
    DistinctIsBounded(order, |parents|);
  }

  /** The order holds exactly the directories whose parent chain ends at the root. */
  lemma OrderIsReachable(parents: Parents, root: nat, order: seq<nat>, v: nat)
    requires InBounds(parents) && Expanding(parents, root, order, |order|)
    ensures v in order <==> Reachable(parents, root, v)
  {
    if v in order {
      var j :| 0 <= j < |order| && order[j] == v;
      VisitedIsReachable(parents, root, order, j);
    }
    if Reachable(parents, root, v) {
      var n: nat :| Under(parents, EVERY, v, root, n);
      ReachableIsVisited(parents, root, order, v, n);
    }
  }

  lemma {:induction false} VisitedIsReachable(parents: Parents, root: nat, order: seq<nat>, j: nat)
    requires InBounds(parents) && Expanding(parents, root, order, |order|) && j < |order|
    ensures Reachable(parents, root, order[j])
    decreases j
  {
    assert order[j] in order;
    if j == 0 {
      UnderSelf(parents, EVERY, root);
    } else {
      assert ParentBefore(parents, order, j, |order|);
      var k :| 0 <= k < j && order[k] == parents[order[j]].value;
      VisitedIsReachable(parents, root, order, k);
      assert order[j] != root;
      UnderStep(parents, EVERY, order[j], root);
    }
  }

  lemma {:induction false} ReachableIsVisited(parents: Parents, root: nat, order: seq<nat>, v: nat, n: nat)
    requires InBounds(parents) && Expanding(parents, root, order, |order|) && Under(parents, EVERY, v, root, n)
    ensures v in order
    decreases n
  {
    if n > 0 {
      ReachableIsVisited(parents, root, order, parents[v].value, n - 1);
      assert order[..|order|] == order;
    }
  }

  // ---------- The reverse sweep ----------

  /** The links that the sweep has added to their parents: those of the directories from position `i` on. */
  ghost function Swept(parents: Parents, order: seq<nat>, i: nat): iset<nat>
    requires i <= |order|
  {
    iset v: nat | v in order[i..] && v < |parents| && parents[v].Some?
  }

  method Sweep(parents: Parents, root: nat, order: seq<nat>, parentOf: seq<Option<nat>>, start: seq<Rollup>,
               ghost items: seq<Item>)
    returns (rollups: seq<Rollup>)
    requires InBounds(parents) && Expanding(parents, root, order, |order|) && ItemsOk(parents, items)
    requires |parentOf| == |parents| && forall v <- order :: parentOf[v] == parents[v]
    requires |start| == |parents| && forall v :: 0 <= v < |parents| ==> start[v] == TotalOf(parents, iset{}, items, v)
    ensures |rollups| == |parents|
    ensures forall v :: 0 <= v < |parents| ==> rollups[v] == TotalOf(parents, Swept(parents, order, 0), items, v)
  {
    rollups := start;
    assert Swept(parents, order, |order|) == iset{};
    for i := |order| downto 0
      invariant |rollups| == |parents|
      invariant forall v :: 0 <= v < |parents| ==> rollups[v] == TotalOf(parents, Swept(parents, order, i), items, v)
    {
      ghost var open := Swept(parents, order, i + 1);
      var index := order[i];
      assert index in order && order[i..] == [index] + order[i + 1..];
      var parent := parentOf[index];
      if parent.Some? {
        var p := parent.value;
        ParentIsClosed(parents, root, order, i);
        assert Swept(parents, order, i) == open + iset{index};
        ghost var open' := Swept(parents, order, i);
        forall v | 0 <= v < |parents|
          ensures TotalOf(parents, open', items, v) ==
                  if v == p then Plus(Plus(rollups[p], rollups[index]), ONE_ITEM) else rollups[v]
        {
          SweepStep(parents, open, items, index, p, v);
        }
        PlusLaws(rollups[p], rollups[index], ONE_ITEM);
        rollups := rollups[p := Plus(rollups[p], Plus(rollups[index], ONE_ITEM))];
      } else {
        assert Swept(parents, order, i) == open;
      }
    }
  }

  lemma ParentIsClosed(parents: Parents, root: nat, order: seq<nat>, i: nat)
    requires InBounds(parents) && Expanding(parents, root, order, |order|) && i < |order|
    requires order[i] < |parents| && parents[order[i]].Some?
    ensures var p := parents[order[i]].value;
            p != order[i] && p !in Swept(parents, order, i + 1) && order[i] !in Swept(parents, order, i + 1)
  {
    assert i > 0;
    assert ParentBefore(parents, order, i, |order|);
    var k :| 0 <= k < i && order[k] == parents[order[i]].value;
    NotInTail(order, i, k);
    NotInTail(order, i, i);
  }

  lemma NotInTail(s: seq<nat>, i: nat, k: nat)
    requires Distinct(s) && k <= i < |s|
    ensures s[k] !in s[i + 1..]
  {
    var tail := s[i + 1..];
    forall j | 0 <= j < |tail| ensures tail[j] != s[k] {
      assert tail[j] == s[i + 1 + j];
    }
  }

  // ---------- What the sweep amounts to ----------

  lemma {:induction false} SweptIsEnough(parents: Parents, root: nat, open: iset<nat>, d: nat, v: nat, n: nat)
    requires InBounds(parents) && Under(parents, EVERY, d, v, n) && Reachable(parents, root, v)
    requires forall x: nat :: x in open <==> x < |parents| && Reachable(parents, root, x) && parents[x].Some?
    ensures Under(parents, open, d, v, n) && Reachable(parents, root, d)
    decreases n
  {
    if n > 0 {
      SweptIsEnough(parents, root, open, parents[d].value, v, n - 1);
      var m: nat :| Under(parents, EVERY, parents[d].value, root, m);
      assert Under(parents, EVERY, d, root, m + 1);
    }
  }

  lemma {:induction false} SweptLeavesOthers(parents: Parents, root: nat, open: iset<nat>, d: nat, v: nat, n: nat)
    requires InBounds(parents) && Under(parents, open, d, v, n) && !Reachable(parents, root, v) && root < |parents|
             && parents[root].None?
    requires forall x: nat :: x in open <==> x < |parents| && Reachable(parents, root, x) && parents[x].Some?
    ensures n == 0
    decreases n
  {
    if n > 0 {
      SweptLeavesOthers(parents, root, open, parents[d].value, v, n - 1);
      UnderStep(parents, EVERY, d, root);
    }
  }

  /** Reachable directories hold their whole subtree; the others keep what lies in them directly. */
  lemma SweptTotals(parents: Parents, root: nat, open: iset<nat>, items: seq<Item>, v: nat)
    requires InBounds(parents) && root < |parents| && parents[root].None? && v < |parents|
    requires forall x: nat :: x in open <==> x < |parents| && Reachable(parents, root, x) && parents[x].Some?
    ensures TotalOf(parents, open, items, v) ==
            if Reachable(parents, root, v) then SubtreeTotal(parents, items, v) else TotalOf(parents, iset{}, items, v)
  {
    if Reachable(parents, root, v) {
      forall k: nat | k < |items|
        ensures CountsIn(parents, open, items[k], v) <==> CountsIn(parents, EVERY, items[k], v)
      {
        match items[k]
        case FileItem(d, _) => SweptReaches(parents, root, open, d, v);
        case DirectoryItem(d) =>
          if d < |parents| && parents[d].Some? {
            SweptReaches(parents, root, open, parents[d].value, v);
            UnderStep(parents, EVERY, d, root);
          }
      }
      FoldAgrees(Weights(items), Held(parents, open, items, v), Held(parents, EVERY, items, v));
    } else {
      forall k: nat | k < |items|
        ensures CountsIn(parents, open, items[k], v) <==> CountsIn(parents, iset{}, items[k], v)
      {
        match items[k]
        case FileItem(d, _) => SweptStays(parents, root, open, d, v);
        case DirectoryItem(d) =>
          if d < |parents| && d in open && parents[d].Some? {
            SweptStays(parents, root, open, parents[d].value, v);
            UnderStep(parents, EVERY, d, root);
          }
      }
      FoldAgrees(Weights(items), Held(parents, open, items, v), Held(parents, iset{}, items, v));
    }
  }

  lemma SweptReaches(parents: Parents, root: nat, open: iset<nat>, d: nat, v: nat)
    requires InBounds(parents) && Reachable(parents, root, v)
    requires forall x: nat :: x in open <==> x < |parents| && Reachable(parents, root, x) && parents[x].Some?
    ensures IsUnder(parents, open, d, v) <==> IsUnder(parents, EVERY, d, v)
    ensures IsUnder(parents, EVERY, d, v) ==> Reachable(parents, root, d)
  {
    if IsUnder(parents, open, d, v) {
      var n: nat :| Under(parents, open, d, v, n);
      OpenMore(parents, open, EVERY, d, v, n);
    }
    if IsUnder(parents, EVERY, d, v) {
      var n: nat :| Under(parents, EVERY, d, v, n);
      SweptIsEnough(parents, root, open, d, v, n);
    }
  }

  lemma SweptStays(parents: Parents, root: nat, open: iset<nat>, d: nat, v: nat)
    requires InBounds(parents) && root < |parents| && parents[root].None? && !Reachable(parents, root, v)
             && v < |parents|
    requires forall x: nat :: x in open <==> x < |parents| && Reachable(parents, root, x) && parents[x].Some?
    ensures IsUnder(parents, open, d, v) <==> d == v
    ensures IsUnder(parents, iset{}, d, v) <==> d == v
  {
    NothingOpen(parents, d, v);
    UnderSelf(parents, open, v);
    if IsUnder(parents, open, d, v) {
      var n: nat :| Under(parents, open, d, v, n);
      SweptLeavesOthers(parents, root, open, d, v, n);
    }
  }

  /**
   The rollups of a catalog: the whole subtree for every directory that the root reaches, and the directly
   contained files for the directories of parent cycles, or for all of them when no directory can be the root.
   */
  ghost predicate RollupsOf(ds: seq<Directory>, files: seq<File>, root: Option<nat>, rollups: seq<Rollup>)
    requires root == ChooseRoot(ds, NewLookup(ds))
  {
    var lookup := NewLookup(ds);
    var parents := ParentIndices(ds, lookup, root);
    var items := AllItems(files, lookup, root, parents);
    && |rollups| == |ds|
    && forall v :: 0 <= v < |ds| ==>
         rollups[v] == if root.Some? && Reachable(parents, root.value, v) then SubtreeTotal(parents, items, v)
                       else TotalOf(parents, iset{}, items, v)
  }

  method ComputeRollups(ds: seq<Directory>, files: seq<File>) returns (root: Option<nat>, rollups: seq<Rollup>)
    ensures root == ChooseRoot(ds, NewLookup(ds)) && RollupsOf(ds, files, root, rollups)
  {
    var lookup := NewLookup(ds);
    root := ChooseRoot(ds, lookup);
    var parents := ParentIndices(ds, lookup, root);
    ghost var items := AllItems(files, lookup, root, parents);
    forall f | f in files ensures Home(lookup, root, f).Some? ==> Home(lookup, root, f).value < |parents| {
      LookupFinds(ds, f.parent);
    }
    var ranges, children := GroupChildren(parents);
    rollups := AddFiles(files, lookup, root, parents);
    if root.Some? {
      AllItemsOk(files, lookup, root, parents);
      var order, parentOf := BreadthFirst(parents, root.value, ranges, children);
      rollups := Sweep(parents, root.value, order, parentOf, rollups, items);
      ghost var open := Swept(parents, order, 0);
      forall x: nat ensures x in open <==> x < |parents| && Reachable(parents, root.value, x) && parents[x].Some? {
        OrderIsReachable(parents, root.value, order, x);
        assert order[0..] == order;
      }
      forall v | 0 <= v < |ds|
        ensures rollups[v] == if Reachable(parents, root.value, v) then SubtreeTotal(parents, items, v)
                              else TotalOf(parents, iset{}, items, v)
      {
        SweptTotals(parents, root.value, open, items, v);
      }
    }
  }
}
