/** What the rolled-up totals and the older aggregates are, read off the lists of directories and files. */
module TotalsMeaning {
  import opened Basics
  import opened TreeIndex
  import opened Rollups
  import opened TreeRollup

  // ---------- The tree, read off the records ----------

  /** The last directory with an id. */
  ghost predicate IsLast(ds: seq<Directory>, id: U64, k: nat) {
    k < |ds| && ds[k].id == id && forall j :: k < j < |ds| ==> ds[j].id != id
  }

  /** The directory a record names as its parent; a record does not name itself. */
  ghost predicate Names(ds: seq<Directory>, d: nat, k: nat)
    requires d < |ds|
  {
    ds[d].parent.Some? && ds[d].parent.value != ds[d].id && IsLast(ds, ds[d].parent.value, k)
  }

  /** Directories whose parent is not there hang below the root. */
  ghost predicate HasParent(ds: seq<Directory>, root: Option<nat>, d: nat, p: nat) {
    && d < |ds| && p < |ds| && root != Some(d)
    && (Names(ds, d, p) || (root == Some(p) && forall k: nat :: !Names(ds, d, k)))
  }

  ghost predicate Hangs(ds: seq<Directory>, root: Option<nat>, d: nat, v: nat, n: nat)
    decreases n
  {
    d < |ds| && if n == 0 then d == v else exists p :: HasParent(ds, root, d, p) && Hangs(ds, root, p, v, n - 1)
  }

  /** Directory `d` is `v` or lies below it. */
  ghost predicate HangsBelow(ds: seq<Directory>, root: Option<nat>, d: nat, v: nat) {
    exists n: nat :: Hangs(ds, root, d, v, n)
  }

  /** Files whose directory is not there lie in the root. */
  ghost predicate FileIn(ds: seq<Directory>, root: Option<nat>, f: File, d: nat) {
    d < |ds| && (IsLast(ds, f.parent, d) || (root == Some(d) && forall j :: 0 <= j < |ds| ==> ds[j].id != f.parent))
  }

  /** The file lies in directory `v`, or anywhere below it as well. */
  ghost predicate LiesIn(ds: seq<Directory>, root: Option<nat>, f: File, v: nat, deep: bool) {
    exists d :: FileIn(ds, root, f, d) && if deep then HangsBelow(ds, root, d, v) else d == v
  }

  ghost function SumIn(ds: seq<Directory>, root: Option<nat>, files: seq<File>, v: nat, deep: bool,
                       amount: File -> nat): nat
  {
    if files == [] then 0
    else
      var n := |files| - 1;
      SumIn(ds, root, files[..n], v, deep, amount) + if LiesIn(ds, root, files[n], v, deep) then amount(files[n]) else 0
  }

  /** The parent of `d` is `v` or lies below it. */
  ghost predicate LiesBelow(ds: seq<Directory>, root: Option<nat>, d: nat, v: nat) {
    exists p :: HasParent(ds, root, d, p) && HangsBelow(ds, root, p, v)
  }

  /** How many of the first `limit` directories lie below `v`, other than `v` itself. */
  ghost function DirectoriesIn(ds: seq<Directory>, root: Option<nat>, v: nat, limit: nat): nat {
    if limit == 0 then 0
    else
      DirectoriesIn(ds, root, v, limit - 1) + if LiesBelow(ds, root, limit - 1, v) then 1 else 0
  }

  ghost predicate IsNewestIn(ds: seq<Directory>, root: Option<nat>, files: seq<File>, v: nat, deep: bool,
                             newest: Option<int>)
  {
    && (forall f <- files :: LiesIn(ds, root, f, v, deep) && f.modified.Some? ==>
          newest.Some? && f.modified.value <= newest.value)
    && (newest.Some? ==> exists f <- files :: LiesIn(ds, root, f, v, deep) && f.modified == newest)
  }

  // ---------- The same tree by parent indices ----------

  lemma ParentIs(ds: seq<Directory>, root: Option<nat>, d: nat, p: nat)
    requires (root.Some? ==> root.value < |ds|) && d < |ds|
    ensures ParentIndex(ds, NewLookup(ds), root, d) == Some(p) <==> HasParent(ds, root, d, p)
  {
    if ds[d].parent.Some? {
      var found := Get(NewLookup(ds), ds[d].parent.value);
      LookupFinds(ds, ds[d].parent.value);
      hide NewLookup, Get;
      forall k: nat
        ensures Names(ds, d, k) <==> ds[d].parent.value != ds[d].id && found == Some(k)
      {
      }
    }
  }

  lemma {:induction false} UnderIsHangs(ds: seq<Directory>, root: Option<nat>, d: nat, v: nat, n: nat)
    requires root.Some? ==> root.value < |ds|
    ensures Under(ParentIndices(ds, NewLookup(ds), root), EVERY, d, v, n) <==> Hangs(ds, root, d, v, n)
    decreases n
  {
    hide NewLookup, HasParent, ParentIndex;
    var parents := ParentIndices(ds, NewLookup(ds), root);
    if n > 0 && d < |ds| {
      forall p: nat ensures parents[d] == Some(p) <==> HasParent(ds, root, d, p) {
        ParentIs(ds, root, d, p);
      }
      if parents[d].Some? {
        UnderIsHangs(ds, root, parents[d].value, v, n - 1);
      }
    }
  }

  lemma IsUnderIsBelow(ds: seq<Directory>, root: Option<nat>, d: nat, v: nat)
    requires root.Some? ==> root.value < |ds|
    ensures IsUnder(ParentIndices(ds, NewLookup(ds), root), EVERY, d, v) <==> HangsBelow(ds, root, d, v)
  {
    hide NewLookup, ParentIndices;
    forall n: nat
      ensures Under(ParentIndices(ds, NewLookup(ds), root), EVERY, d, v, n) <==> Hangs(ds, root, d, v, n)
    {
      UnderIsHangs(ds, root, d, v, n);
    }
  }

  lemma HomeIs(ds: seq<Directory>, root: Option<nat>, f: File, d: nat)
    requires root.Some? ==> root.value < |ds|
    ensures Home(NewLookup(ds), root, f) == Some(d) <==> FileIn(ds, root, f, d)
  {
    LookupFinds(ds, f.parent);
  }

  // ---------- Sums over entries ----------

  lemma {:induction false} ExactAgrees(weights: seq<Rollup>, p: iset<nat>, q: iset<nat>, c: Column)
    requires forall k: nat :: k < |weights| ==> (k in p <==> k in q)
    ensures ExactSum(weights, p, c) == ExactSum(weights, q, c)
  {
    if weights != [] {
      ExactAgrees(weights[..|weights| - 1], p, q, c);
    }
  }

  ghost function ItemSum(parents: Parents, open: iset<nat>, items: seq<Item>, v: nat, c: Column): nat
    requires InBounds(parents)
  {
    if items == [] then 0
    else
      var n := |items| - 1;
      ItemSum(parents, open, items[..n], v, c)
      + if CountsIn(parents, open, items[n], v) then Cell(Weight(items[n]), c) else 0
  }

  lemma {:induction false} ExactIsItemSum(parents: Parents, open: iset<nat>, items: seq<Item>, v: nat, c: Column)
    requires InBounds(parents)
    ensures ExactSum(Weights(items), Held(parents, open, items, v), c) == ItemSum(parents, open, items, v, c)
  {
    hide CountsIn, Cell;
    if items != [] {
      var n := |items| - 1;
      ExactIsItemSum(parents, open, items[..n], v, c);
      assert Weights(items)[..n] == Weights(items[..n]);
      ExactAgrees(Weights(items[..n]), Held(parents, open, items, v), Held(parents, open, items[..n], v), c);
    }
  }

  lemma TotalIsItemSum(parents: Parents, open: iset<nat>, items: seq<Item>, v: nat, c: Column)
    requires InBounds(parents)
    ensures Cell(TotalOf(parents, open, items, v), c) == Saturated(ItemSum(parents, open, items, v, c))
  {
    FoldIsSaturatedSum(Weights(items), Held(parents, open, items, v), c);
    ExactIsItemSum(parents, open, items, v, c);
  }

  lemma {:induction false} ItemSumConcat(parents: Parents, open: iset<nat>, a: seq<Item>, b: seq<Item>, v: nat,
                                         c: Column)
    requires InBounds(parents)
    ensures ItemSum(parents, open, a + b, v, c) == ItemSum(parents, open, a, v, c) + ItemSum(parents, open, b, v, c)
  {
    hide CountsIn, Cell;
    if b == [] {
      assert a + b == a;
    } else {
      var n := |b| - 1;
      ItemSumConcat(parents, open, a, b[..n], v, c);
      assert (a + b)[..|a + b| - 1] == a + b[..n];
    }
  }

  ghost function Links(deep: bool): iset<nat> {
    if deep then EVERY else iset{}
  }

  lemma FileCounts(ds: seq<Directory>, root: Option<nat>, f: File, d: nat, v: nat, deep: bool)
    requires (root.Some? ==> root.value < |ds|) && FileIn(ds, root, f, d)
    ensures var parents := ParentIndices(ds, NewLookup(ds), root);
            CountsIn(parents, Links(deep), FileItem(d, FileWeight(f)), v) <==> LiesIn(ds, root, f, v, deep)
  {
    var parents := ParentIndices(ds, NewLookup(ds), root);
    if deep {
      IsUnderIsBelow(ds, root, d, v);
    } else {
      NothingOpen(parents, d, v);
    }
    hide NewLookup, ParentIndices, IsUnder, HangsBelow, FileIn, Home;
    forall e: nat | FileIn(ds, root, f, e) ensures e == d {
      HomeIs(ds, root, f, e);
      HomeIs(ds, root, f, d);
    }
  }

  lemma {:induction false} FileItemSum(ds: seq<Directory>, root: Option<nat>, files: seq<File>, v: nat, deep: bool,
                                       c: Column, amount: File -> nat)
    requires (root.Some? ==> root.value < |ds|) && forall f :: amount(f) == Cell(FileWeight(f), c)
    ensures ItemSum(ParentIndices(ds, NewLookup(ds), root), Links(deep), FileItems(files, NewLookup(ds), root), v, c) ==
            SumIn(ds, root, files, v, deep, amount)
  {
    hide ParentIndices, NewLookup, LiesIn, Cell, FileWeight, Links, Home;
    if files != [] {
      var n := |files| - 1;
      FileItemSum(ds, root, files[..n], v, deep, c, amount);
      OneMoreFile(ds, root, FileItems(files[..n], NewLookup(ds), root), files[n], v, deep, c);
      hide ItemSum;
    }
  }

  lemma OneMoreFile(ds: seq<Directory>, root: Option<nat>, before: seq<Item>, f: File, v: nat, deep: bool, c: Column)
    requires root.Some? ==> root.value < |ds|
    ensures var parents := ParentIndices(ds, NewLookup(ds), root);
            var more := match Home(NewLookup(ds), root, f) case Some(d) => [FileItem(d, FileWeight(f))] case None => [];
            ItemSum(parents, Links(deep), before + more, v, c) ==
            ItemSum(parents, Links(deep), before, v, c)
            + if LiesIn(ds, root, f, v, deep) then Cell(FileWeight(f), c) else 0
  {
    hide ParentIndices, NewLookup, LiesIn, Cell, FileWeight, FileIn, Links, Home, ItemSum, CountsIn;
    match Home(NewLookup(ds), root, f)
    case Some(d) =>
      HomeIs(ds, root, f, d);
      FileCounts(ds, root, f, d, v, deep);
      ItemSumNext(ParentIndices(ds, NewLookup(ds), root), Links(deep), before, FileItem(d, FileWeight(f)), v, c);
    case None =>
      NowhereHome(ds, root, f, v, deep);
      assert before + [] == before;
  }

  lemma ItemSumNext(parents: Parents, open: iset<nat>, items: seq<Item>, item: Item, v: nat, c: Column)
    requires InBounds(parents)
    ensures ItemSum(parents, open, items + [item], v, c) ==
            ItemSum(parents, open, items, v, c) + if CountsIn(parents, open, item, v) then Cell(Weight(item), c) else 0
  {
    assert (items + [item])[..|items|] == items;
  }

  lemma NowhereHome(ds: seq<Directory>, root: Option<nat>, f: File, v: nat, deep: bool)
    requires (root.Some? ==> root.value < |ds|) && Home(NewLookup(ds), root, f) == None
    ensures !LiesIn(ds, root, f, v, deep)
  {
    hide NewLookup, FileIn, Home;
    forall d: nat ensures !FileIn(ds, root, f, d) {
      HomeIs(ds, root, f, d);
    }
  }

  /** The directories before `limit`, taken as items, add their number below `v` to the number of items and nothing to
      the other columns. */
  ghost predicate DirectoriesAdd(ds: seq<Directory>, root: Option<nat>, v: nat, limit: nat, c: Column)
    requires (root.Some? ==> root.value < |ds|) && limit <= |ds|
  {
    var parents := ParentIndices(ds, NewLookup(ds), root);
    ItemSum(parents, EVERY, DirectoryItems(parents, limit), v, c) ==
    if c == ItemCount then DirectoriesIn(ds, root, v, limit) else 0
  }

  lemma DirectoriesAddNext(ds: seq<Directory>, root: Option<nat>, v: nat, limit: nat, c: Column)
    requires (root.Some? ==> root.value < |ds|) && limit < |ds| && DirectoriesAdd(ds, root, v, limit, c)
    ensures DirectoriesAdd(ds, root, v, limit + 1, c)
  {
    hide ParentIndices, NewLookup, LiesBelow, InBounds, CountsIn, Cell, ItemSum;
    OneMoreDirectory(ds, root, DirectoryItems(ParentIndices(ds, NewLookup(ds), root), limit), limit, v, c);
  }

  lemma {:induction false} DirectoryItemSum(ds: seq<Directory>, root: Option<nat>, v: nat, limit: nat, c: Column)
    requires (root.Some? ==> root.value < |ds|) && limit <= |ds|
    ensures DirectoriesAdd(ds, root, v, limit, c)
  {
    if limit > 0 {
      hide DirectoriesAdd;
      DirectoryItemSum(ds, root, v, limit - 1, c);
      DirectoriesAddNext(ds, root, v, limit - 1, c);
    }
  }

  lemma OneMoreDirectory(ds: seq<Directory>, root: Option<nat>, before: seq<Item>, d: nat, v: nat, c: Column)
    requires (root.Some? ==> root.value < |ds|) && d < |ds|
    ensures var parents := ParentIndices(ds, NewLookup(ds), root);
            ItemSum(parents, EVERY, before + if parents[d].Some? then [DirectoryItem(d)] else [], v, c) ==
            ItemSum(parents, EVERY, before, v, c)
            + if c == ItemCount && LiesBelow(ds, root, d, v) then 1 else 0
  {
    var parents := ParentIndices(ds, NewLookup(ds), root);
    DirectoryCounts(ds, root, d, v);
    hide LiesBelow, ParentIndices, NewLookup, HasParent, HangsBelow, IsUnder, ParentIndex, ItemSum, InBounds, CountsIn;
    if parents[d].Some? {
      ItemSumNext(parents, EVERY, before, DirectoryItem(d), v, c);
    } else {
      assert before + [] == before;
    }
  }

  lemma DirectoryCounts(ds: seq<Directory>, root: Option<nat>, d: nat, v: nat)
    requires (root.Some? ==> root.value < |ds|) && d < |ds|
    ensures var parents := ParentIndices(ds, NewLookup(ds), root);
            parents[d].Some? && CountsIn(parents, EVERY, DirectoryItem(d), v) <==>
            LiesBelow(ds, root, d, v)
  {
    var parents := ParentIndices(ds, NewLookup(ds), root);
    hide NewLookup, HasParent, HangsBelow, IsUnder, ParentIndex;
    forall p: nat ensures parents[d] == Some(p) <==> HasParent(ds, root, d, p) {
      ParentIs(ds, root, d, p);
    }
    if parents[d].Some? {
      IsUnderIsBelow(ds, root, parents[d].value, v);
      assert HasParent(ds, root, d, parents[d].value);
    }
  }

  // ---------- The totals of a tree ----------

  /** What counts in a tree: its files, and its directories if those below one count as well. */
  ghost function TreeItems(ds: seq<Directory>, root: Option<nat>, files: seq<File>, deep: bool): seq<Item>
    requires root.Some? ==> root.value < |ds|
  {
    FileItems(files, NewLookup(ds), root)
    + DirectoryItems(ParentIndices(ds, NewLookup(ds), root), if deep then |ds| else 0)
  }

  ghost function TreeTotal(ds: seq<Directory>, root: Option<nat>, files: seq<File>, v: nat, deep: bool): Rollup
    requires root.Some? ==> root.value < |ds|
  {
    TotalOf(ParentIndices(ds, NewLookup(ds), root), Links(deep), TreeItems(ds, root, files, deep), v)
  }

  lemma TotalInParts(parents: Parents, open: iset<nat>, a: seq<Item>, b: seq<Item>, v: nat, c: Column)
    requires InBounds(parents)
    ensures Cell(TotalOf(parents, open, a + b, v), c) ==
            Saturated(ItemSum(parents, open, a, v, c) + ItemSum(parents, open, b, v, c))
  {
    TotalIsItemSum(parents, open, a + b, v, c);
    ItemSumConcat(parents, open, a, b, v, c);
  }

  lemma ColumnIs(ds: seq<Directory>, root: Option<nat>, files: seq<File>, v: nat, deep: bool, c: Column,
                 amount: File -> nat)
    requires (root.Some? ==> root.value < |ds|) && forall f :: amount(f) == Cell(FileWeight(f), c)
    ensures Cell(TreeTotal(ds, root, files, v, deep), c) ==
            Saturated(SumIn(ds, root, files, v, deep, amount)
                      + if deep && c == ItemCount then DirectoriesIn(ds, root, v, |ds|) else 0)
  {
    hide NewLookup, ParentIndices, FileItems, TotalOf, Cell, FileWeight, ItemSum, SumIn, InBounds, DirectoryItems;
    hide DirectoriesIn;
    var parents := ParentIndices(ds, NewLookup(ds), root);
    var found := FileItems(files, NewLookup(ds), root);
    TotalInParts(parents, Links(deep), found, DirectoryItems(parents, if deep then |ds| else 0), v, c);
    FileItemSum(ds, root, files, v, deep, c, amount);
    if deep {
      DirectoryItemSum(ds, root, v, |ds|, c);
    } else {
      NoItems(parents, Links(deep), v, c);
    }
  }

  lemma NoItems(parents: Parents, open: iset<nat>, v: nat, c: Column)
    requires InBounds(parents)
    ensures DirectoryItems(parents, 0) == [] && ItemSum(parents, open, [], v, c) == 0
  {
  }

  // ---------- The newest file ----------

  ghost predicate IsItemOf(ds: seq<Directory>, root: Option<nat>, item: Item, f: File) {
    item.FileItem? && FileIn(ds, root, f, item.directory) && item.weight == FileWeight(f)
  }

  ghost predicate HasFile(ds: seq<Directory>, root: Option<nat>, item: Item, files: seq<File>) {
    exists f <- files :: IsItemOf(ds, root, item, f)
  }

  lemma {:induction false} ItemsAreFiles(ds: seq<Directory>, root: Option<nat>, files: seq<File>)
    requires root.Some? ==> root.value < |ds|
    ensures forall item <- FileItems(files, NewLookup(ds), root) :: HasFile(ds, root, item, files)
  {
    if files != [] {
      var n := |files| - 1;
      var f, lookup := files[n], NewLookup(ds);
      var before := FileItems(files[..n], lookup, root);
      ItemsAreFiles(ds, root, files[..n]);
      hide NewLookup, FileIn, FileWeight, Home;
      assert files == files[..n] + [f];
      forall item <- FileItems(files, lookup, root) ensures HasFile(ds, root, item, files) {
        if item in before {
          assert HasFile(ds, root, item, files[..n]);
        } else {
          HomeIs(ds, root, f, item.directory);
          assert IsItemOf(ds, root, item, f);
        }
      }
    }
  }

  lemma {:induction false} FilesAreItems(ds: seq<Directory>, root: Option<nat>, files: seq<File>, f: File, d: nat)
    requires (root.Some? ==> root.value < |ds|) && f in files && FileIn(ds, root, f, d)
    ensures FileItem(d, FileWeight(f)) in FileItems(files, NewLookup(ds), root)
  {
    var n := |files| - 1;
    HomeIs(ds, root, f, d);
    hide NewLookup, FileIn, FileWeight, Home;
    if f != files[n] {
      assert files == files[..n] + [files[n]];
      FilesAreItems(ds, root, files[..n], f, d);
    }
  }

  lemma {:induction false} DirectoriesHaveNoTime(parents: Parents, limit: nat)
    requires limit <= |parents|
    ensures forall item <- DirectoryItems(parents, limit) :: item.DirectoryItem? && Weight(item).modifiedMax == None
  {
    if limit > 0 {
      DirectoriesHaveNoTime(parents, limit - 1);
    }
  }

  lemma NewestBounds(ds: seq<Directory>, root: Option<nat>, files: seq<File>, v: nat, deep: bool, f: File)
    requires (root.Some? ==> root.value < |ds|) && f in files && LiesIn(ds, root, f, v, deep) && f.modified.Some?
    ensures var newest := TreeTotal(ds, root, files, v, deep).modifiedMax;
            newest.Some? && f.modified.value <= newest.value
  {
    var d: nat :| FileIn(ds, root, f, d);
    hide NewLookup, ParentIndices, FileIn, FileItems, DirectoryItems, CountsIn, Links, Fold, LiesIn, InBounds;
    var parents, items := ParentIndices(ds, NewLookup(ds), root), TreeItems(ds, root, files, deep);
    FilesAreItems(ds, root, files, f, d);
    FileCounts(ds, root, f, d, v, deep);
    hide TreeItems, LiesIn;
    ItemBounds(parents, Links(deep), items, FileItem(d, FileWeight(f)), v);
  }

  lemma ItemBounds(parents: Parents, open: iset<nat>, items: seq<Item>, item: Item, v: nat)
    requires InBounds(parents) && item in items && CountsIn(parents, open, item, v) && Weight(item).modifiedMax.Some?
    ensures var newest := TotalOf(parents, open, items, v).modifiedMax;
            newest.Some? && Weight(item).modifiedMax.value <= newest.value
  {
    hide CountsIn, Fold;
    var k: nat :| k < |items| && items[k] == item;
    FoldIsNewest(Weights(items), Held(parents, open, items, v));
  }

  lemma NewestIsReached(ds: seq<Directory>, root: Option<nat>, files: seq<File>, v: nat, deep: bool) returns (f: File)
    requires (root.Some? ==> root.value < |ds|) && TreeTotal(ds, root, files, v, deep).modifiedMax.Some?
    ensures f in files && LiesIn(ds, root, f, v, deep)
    ensures f.modified == TreeTotal(ds, root, files, v, deep).modifiedMax
  {
    hide NewLookup, ParentIndices, FileIn, FileItems, DirectoryItems, CountsIn, Links, Fold, LiesIn, InBounds;
    var parents, items := ParentIndices(ds, NewLookup(ds), root), TreeItems(ds, root, files, deep);
    var newest := TreeTotal(ds, root, files, v, deep).modifiedMax;
    FoldIsNewest(Weights(items), Held(parents, Links(deep), items, v));
    var k: nat :| k < |items| && k in Held(parents, Links(deep), items, v) && Weights(items)[k].modifiedMax == newest;
    ItemsAreFiles(ds, root, files);
    DirectoriesHaveNoTime(parents, if deep then |ds| else 0);
    assert items[k] in FileItems(files, NewLookup(ds), root);
    assert HasFile(ds, root, items[k], files);
    f :| f in files && IsItemOf(ds, root, items[k], f);
    FileCounts(ds, root, f, items[k].directory, v, deep);
  }

  lemma NewestIs(ds: seq<Directory>, root: Option<nat>, files: seq<File>, v: nat, deep: bool)
    requires root.Some? ==> root.value < |ds|
    ensures IsNewestIn(ds, root, files, v, deep, TreeTotal(ds, root, files, v, deep).modifiedMax)
  {
    hide LiesIn, TreeTotal;
    forall f <- files | LiesIn(ds, root, f, v, deep) && f.modified.Some?
      ensures var newest := TreeTotal(ds, root, files, v, deep).modifiedMax;
              newest.Some? && f.modified.value <= newest.value
    {
      NewestBounds(ds, root, files, v, deep, f);
    }
    if TreeTotal(ds, root, files, v, deep).modifiedMax.Some? {
      var f := NewestIsReached(ds, root, files, v, deep);
    }
  }

  // ---------- The rollups ----------

  lemma RollupIs(ds: seq<Directory>, files: seq<File>, root: Option<nat>, rollups: seq<Rollup>, v: nat)
    requires root == ChooseRoot(ds, NewLookup(ds)) && RollupsOf(ds, files, root, rollups) && v < |ds|
    ensures |rollups| == |ds|
    ensures rollups[v] == TreeTotal(ds, root, files, v, root.Some? && HangsBelow(ds, root, v, root.value))
  {
    var parents := ParentIndices(ds, NewLookup(ds), root);
    var items := FileItems(files, NewLookup(ds), root);
    if root.Some? {
      IsUnderIsBelow(ds, root, v, root.value);
    }
    ClosedDirectoriesCountNowhere(parents, items, |ds|, v);
    assert items + [] == items;
  }

  ghost predicate IsRollupOf(ds: seq<Directory>, root: Option<nat>, files: seq<File>, v: nat, deep: bool, r: Rollup) {
    && r.logicalBytes == Saturated(SumIn(ds, root, files, v, deep, (f: File) => f.size))
    && r.physicalBytes == Saturated(SumIn(ds, root, files, v, deep, (f: File) => f.allocation))
    && r.fileCount == Saturated(SumIn(ds, root, files, v, deep, (f: File) => 1))
    && r.itemCount == Saturated(SumIn(ds, root, files, v, deep, (f: File) => 1)
                                + if deep then DirectoriesIn(ds, root, v, |ds|) else 0)
    && IsNewestIn(ds, root, files, v, deep, r.modifiedMax)
  }

  lemma TreeTotalIs(ds: seq<Directory>, root: Option<nat>, files: seq<File>, v: nat, deep: bool)
    requires root.Some? ==> root.value < |ds|
    ensures IsRollupOf(ds, root, files, v, deep, TreeTotal(ds, root, files, v, deep))
  {
    hide TreeTotal, SumIn, IsNewestIn, DirectoriesIn;
    NewestIs(ds, root, files, v, deep);
    ColumnIs(ds, root, files, v, deep, LogicalBytes, (f: File) => f.size);
    ColumnIs(ds, root, files, v, deep, PhysicalBytes, (f: File) => f.allocation);
    ColumnIs(ds, root, files, v, deep, FileCount, (f: File) => 1);
    ColumnIs(ds, root, files, v, deep, ItemCount, (f: File) => 1);
  }

  /** Of a directory that the root reaches, a rollup counts every file and directory below it; of another one, the files
      directly in it. Sizes, allocations and counts are exact up to the largest number, and the time is the newest. */
  lemma RollupsMean(ds: seq<Directory>, files: seq<File>, root: Option<nat>, rollups: seq<Rollup>, v: nat)
    requires root == ChooseRoot(ds, NewLookup(ds)) && RollupsOf(ds, files, root, rollups) && v < |ds|
    ensures |rollups| == |ds|
    ensures IsRollupOf(ds, root, files, v, root.Some? && HangsBelow(ds, root, v, root.value), rollups[v])
  {
    RollupIs(ds, files, root, rollups, v);
    hide RollupsOf, HangsBelow, NewLookup, IsRollupOf, TreeTotal;
    TreeTotalIs(ds, root, files, v, root.Some? && HangsBelow(ds, root, v, root.value));
  }

  // ---------- The root ----------

  /** Nothing is above the directory: it names no parent, itself, or one that is not there. */
  ghost predicate IsTopmost(ds: seq<Directory>, d: nat) {
    && d < |ds|
    && match ds[d].parent
       case None => true
       case Some(p) => p == ds[d].id || forall j :: 0 <= j < |ds| ==> ds[j].id != p
  }

  ghost predicate IsFirstTopmost(ds: seq<Directory>, root: Option<nat>) {
    match root
    case None => forall d: nat :: !IsTopmost(ds, d)
    case Some(r) => IsTopmost(ds, r) && forall d: nat :: d < r ==> !IsTopmost(ds, d)
  }

  lemma RootLikeIsTopmost(ds: seq<Directory>, d: nat)
    requires d < |ds|
    ensures IsRootLike(ds, NewLookup(ds), ds[d]) <==> IsTopmost(ds, d)
  {
    if ds[d].parent.Some? {
      LookupFinds(ds, ds[d].parent.value);
    }
  }

  lemma TopmostIsInside(ds: seq<Directory>, d: nat)
    requires IsTopmost(ds, d)
    ensures d < |ds|
  {
  }

  /** The tree hangs from the last record 5 if nothing is above it, and otherwise from the first such directory. */
  lemma RootMeans(ds: seq<Directory>)
    ensures var root := ChooseRoot(ds, NewLookup(ds));
            || (exists i: nat :: IsLast(ds, 5, i) && IsTopmost(ds, i) && root == Some(i))
            || ((forall i: nat :: IsLast(ds, 5, i) ==> !IsTopmost(ds, i)) && IsFirstTopmost(ds, root))
  {
    hide NewLookup, IsRootLike, IsTopmost, FirstRootLike;
    LookupFinds(ds, 5);
    forall d: nat | d < |ds| ensures IsRootLike(ds, NewLookup(ds), ds[d]) <==> IsTopmost(ds, d) {
      RootLikeIsTopmost(ds, d);
    }
    forall d: nat | IsTopmost(ds, d) ensures d < |ds| {
      TopmostIsInside(ds, d);
    }
  }
}
