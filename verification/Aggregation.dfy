/**
 The older aggregation of the record model: every entry walks up its parent links and adds itself to each
 ancestor. On catalogs in which those walks end it agrees with the rollups of the tree index.
 */
module Aggregation {
  import opened Basics
  import opened Rollups
  import opened TreeIndex
  import opened TreeRollup

  type ParentMap = map<U64, Option<U64>>

  datatype Aggregate = Aggregate(directBytes: U64, totalBytes: U64, directEntries: U64, totalEntries: U64)

  const EMPTY := Aggregate(0, 0, 0, 0)

  // ---------- Ancestors by id ----------

  ghost predicate Above(pm: ParentMap, d: U64, v: U64, n: nat)
    decreases n
  {
    d in pm && if n == 0 then d == v else pm[d].Some? && Above(pm, pm[d].value, v, n - 1)
  }

  ghost predicate IsAbove(pm: ParentMap, d: U64, v: U64) {
    exists n: nat :: Above(pm, d, v, n)
  }

  /** The walks have no cycle guard, so that they need parent links that lead nowhere twice. */
  ghost predicate Ranked(pm: ParentMap, rank: map<U64, nat>) {
    && pm.Keys <= rank.Keys
    && forall d <- pm :: pm[d].Some? && pm[d].value in pm ==> rank[pm[d].value] < rank[d]
  }

  lemma {:induction false} AboveRanks(pm: ParentMap, rank: map<U64, nat>, d: U64, v: U64, n: nat)
    requires Ranked(pm, rank) && Above(pm, d, v, n)
    ensures v in pm && d in pm && rank[v] <= rank[d] && (n > 0 ==> rank[v] < rank[d])
    decreases n
  {
    if n > 0 {
      AboveRanks(pm, rank, pm[d].value, v, n - 1);
    }
  }

  lemma AboveStep(pm: ParentMap, rank: map<U64, nat>, d: U64, v: U64)
    requires Ranked(pm, rank) && d in pm
    ensures IsAbove(pm, d, v) <==> d == v || (pm[d].Some? && IsAbove(pm, pm[d].value, v))
    ensures pm[d].Some? && IsAbove(pm, pm[d].value, d) ==> false
  {
    if IsAbove(pm, d, v) {
      var n: nat :| Above(pm, d, v, n);
      assert n > 0 ==> Above(pm, pm[d].value, v, n - 1);
    }
    if d == v {
      assert Above(pm, d, v, 0);
    }
    if pm[d].Some? && IsAbove(pm, pm[d].value, v) {
      var n: nat :| Above(pm, pm[d].value, v, n);
      assert Above(pm, d, v, n + 1);
    }
    if pm[d].Some? && IsAbove(pm, pm[d].value, d) {
      var n: nat :| Above(pm, pm[d].value, d, n);
      AboveRanks(pm, rank, pm[d].value, d, n);
    }
  }

  // ---------- One entry ----------

  function AddEntry(a: Aggregate, direct: bool, w: Rollup): Aggregate {
    Aggregate(if direct then SatAdd(a.directBytes, w.logicalBytes) else a.directBytes,
              SatAdd(a.totalBytes, w.physicalBytes),
              if direct then SatAdd(a.directEntries, 1) else a.directEntries,
              SatAdd(a.totalEntries, 1))
  }

  /** Adds an entry to the directory it lies in and to every directory above that. */
  method IncrementAncestors(aggregates: map<U64, Aggregate>, pm: ParentMap, start: U64, w: Rollup,
                            ghost rank: map<U64, nat>)
    returns (result: map<U64, Aggregate>)
    requires aggregates.Keys == pm.Keys && Ranked(pm, rank)
    ensures result.Keys == pm.Keys
    ensures forall v <- pm ::
              result[v] == if IsAbove(pm, start, v) then AddEntry(aggregates[v], v == start, w) else aggregates[v]
  {
    result := aggregates;
    var current, direct := start, true;
    if start !in pm {
      NoneAbove(pm, start);
    }
    while current in result
      invariant result.Keys == pm.Keys && direct == (current == start)
      invariant forall v <- pm :: !IsAbove(pm, start, v) ==> result[v] == aggregates[v]
      invariant forall v <- pm :: IsAbove(pm, current, v) ==> result[v] == aggregates[v] && IsAbove(pm, start, v)
      invariant forall v <- pm :: IsAbove(pm, start, v) && !IsAbove(pm, current, v) ==>
                                    result[v] == AddEntry(aggregates[v], v == start, w)
      invariant current in pm && start in pm ==>
                  rank[current] <= rank[start] && (current != start ==> rank[current] < rank[start])
      decreases if current in pm then rank[current] + 1 else 0
    {
      forall v | v in pm
        ensures IsAbove(pm, current, v) <==> current == v || (pm[current].Some? && IsAbove(pm, pm[current].value, v))
      {
        AboveStep(pm, rank, current, v);
      }
      result := result[current := AddEntry(result[current], direct, w)];
      match pm[current] {
        case Some(parent) =>
          AboveStep(pm, rank, current, current);
          if parent !in pm {
            NoneAbove(pm, parent);
          }
          current, direct := parent, false;
        case None => break;
      }
    }
    if current !in pm {
      NoneAbove(pm, current);
    }
  }

  lemma NoneAbove(pm: ParentMap, d: U64)
    requires d !in pm
    ensures forall v :: !IsAbove(pm, d, v)
  {
  }

  // ---------- All entries ----------

  datatype Entry = Entry(start: U64, weight: Rollup)

  ghost function DirectoryEntries(ds: seq<Directory>): seq<Entry> {
    if ds == [] then []
    else
      var d := ds[|ds| - 1];
      DirectoryEntries(ds[..|ds| - 1]) + if d.parent.Some? then [Entry(d.parent.value, ONE_ITEM)] else []
  }

  ghost function FileEntries(files: seq<File>): (es: seq<Entry>)
    ensures |es| == |files| && forall i :: 0 <= i < |files| ==> es[i] == Entry(files[i].parent, FileWeight(files[i]))
  {
    seq(|files|, i requires 0 <= i < |files| => Entry(files[i].parent, FileWeight(files[i])))
  }

  ghost function EntryWeights(es: seq<Entry>): (w: seq<Rollup>)
    ensures |w| == |es| && forall i :: 0 <= i < |es| ==> w[i] == es[i].weight
  {
    seq(|es|, i requires 0 <= i < |es| => es[i].weight)
  }

  /** Everything below a directory, and everything directly in it. */
  ghost function TotalBelow(pm: ParentMap, es: seq<Entry>, v: U64): Rollup {
    Fold(EntryWeights(es), iset i: nat | i < |es| && IsAbove(pm, es[i].start, v))
  }

  ghost function TotalIn(es: seq<Entry>, v: U64): Rollup {
    Fold(EntryWeights(es), iset i: nat | i < |es| && es[i].start == v)
  }

  ghost predicate AggregateOf(a: Aggregate, below: Rollup, direct: Rollup) {
    && a.totalBytes == below.physicalBytes && a.totalEntries == below.itemCount
    && a.directBytes == direct.logicalBytes && a.directEntries == direct.itemCount
  }

  lemma TotalsNext(pm: ParentMap, es: seq<Entry>, e: Entry, v: U64)
    ensures TotalBelow(pm, es + [e], v) ==
            if IsAbove(pm, e.start, v) then Plus(TotalBelow(pm, es, v), e.weight) else TotalBelow(pm, es, v)
    ensures TotalIn(es + [e], v) == if e.start == v then Plus(TotalIn(es, v), e.weight) else TotalIn(es, v)
  {
    var more := es + [e];
    assert EntryWeights(more)[..|es|] == EntryWeights(es);
    FoldAgrees(EntryWeights(es), iset i: nat | i < |es| && IsAbove(pm, es[i].start, v),
               iset i: nat | i < |more| && IsAbove(pm, more[i].start, v));
    FoldAgrees(EntryWeights(es), iset i: nat | i < |es| && es[i].start == v,
               iset i: nat | i < |more| && more[i].start == v);
  }

  ghost predicate AllAggregated(pm: ParentMap, aggregates: map<U64, Aggregate>, es: seq<Entry>) {
    && aggregates.Keys == pm.Keys
    && forall v <- pm :: AggregateOf(aggregates[v], TotalBelow(pm, es, v), TotalIn(es, v))
  }

  method AddOne(pm: ParentMap, aggregates: map<U64, Aggregate>, e: Entry, ghost es: seq<Entry>,
                ghost rank: map<U64, nat>)
    returns (result: map<U64, Aggregate>)
    requires Ranked(pm, rank) && AllAggregated(pm, aggregates, es) && e.weight.itemCount == 1
    ensures AllAggregated(pm, result, es + [e])
  {
    result := IncrementAncestors(aggregates, pm, e.start, e.weight, rank);
    forall v | v in pm ensures AggregateOf(result[v], TotalBelow(pm, es + [e], v), TotalIn(es + [e], v)) {
      TotalsNext(pm, es, e, v);
      if v == e.start {
        AboveStep(pm, rank, v, v);
      }
    }
  }

  /** Of several directories with one id the last one counts. */
  function ParentMapOf(ds: seq<Directory>): (pm: ParentMap)
    ensures forall i :: 0 <= i < |ds| ==> ds[i].id in pm
  {
    if ds == [] then map[] else ParentMapOf(ds[..|ds| - 1])[ds[|ds| - 1].id := ds[|ds| - 1].parent]
  }

  /** Totals and direct contributions of every directory, saturating. */
  method AggregateDirectoryRecords(ds: seq<Directory>, files: seq<File>, ghost rank: map<U64, nat>)
    returns (aggregates: map<U64, Aggregate>)
    requires Ranked(ParentMapOf(ds), rank)
    ensures AllAggregated(ParentMapOf(ds), aggregates, DirectoryEntries(ds) + FileEntries(files))
  {
    hide Ranked;
    aggregates := AddDirectories(ParentMapOf(ds), ds, rank);
    aggregates := AddAllFiles(ParentMapOf(ds), aggregates, files, DirectoryEntries(ds), rank);
  }

  method AddDirectories(pm: ParentMap, ds: seq<Directory>, ghost rank: map<U64, nat>)
    returns (aggregates: map<U64, Aggregate>)
    requires Ranked(pm, rank)
    ensures AllAggregated(pm, aggregates, DirectoryEntries(ds))
  {
    aggregates := map id | id in pm :: EMPTY;
    for i := 0 to |ds|
      invariant AllAggregated(pm, aggregates, DirectoryEntries(ds[..i]))
    {
      hide AllAggregated;
      assert ds[..i + 1][..i] == ds[..i];
      if ds[i].parent.Some? {
        aggregates := AddOne(pm, aggregates, Entry(ds[i].parent.value, ONE_ITEM), DirectoryEntries(ds[..i]), rank);
      } else {
        assert DirectoryEntries(ds[..i + 1]) == DirectoryEntries(ds[..i]);
      }
    }
    assert ds[..|ds|] == ds;
  }

  method AddAllFiles(pm: ParentMap, before: map<U64, Aggregate>, files: seq<File>, ghost es: seq<Entry>,
                     ghost rank: map<U64, nat>)
    returns (aggregates: map<U64, Aggregate>)
    requires Ranked(pm, rank) && AllAggregated(pm, before, es)
    ensures AllAggregated(pm, aggregates, es + FileEntries(files))
  {
    hide AllAggregated, Ranked;
    aggregates := before;
    assert es + FileEntries(files[..0]) == es;
    for i := 0 to |files|
      invariant AllAggregated(pm, aggregates, es + FileEntries(files[..i]))
    {
      ghost var e := Entry(files[i].parent, FileWeight(files[i]));
      assert es + FileEntries(files[..i + 1]) == es + FileEntries(files[..i]) + [e];
      aggregates := AddOne(pm, aggregates, Entry(files[i].parent, FileWeight(files[i])), es + FileEntries(files[..i]),
                           rank);
    }
    assert files[..|files|] == files;
  }

  // ---------- Agreement with the tree index ----------

  ghost predicate SortedById(ds: seq<Directory>) {
    forall i, j :: 0 <= i < j < |ds| ==> ds[i].id < ds[j].id
  }

  /** One directory has no parent, every other parent is a directory of the catalog, and so is every file's. */
  ghost predicate Connected(ds: seq<Directory>, files: seq<File>, root: nat) {
    && root < |ds| && ds[root].parent == None
    && (forall i :: 0 <= i < |ds| && i != root ==> ds[i].parent.Some? && HasId(ds, ds[i].parent.value))
    && (forall f <- files :: HasId(ds, f.parent))
  }

  ghost predicate HasId(ds: seq<Directory>, id: U64) {
    exists i :: 0 <= i < |ds| && ds[i].id == id
  }

  lemma LookupExact(ds: seq<Directory>, i: nat)
    requires SortedById(ds) && i < |ds|
    ensures Get(NewLookup(ds), ds[i].id) == Some(i)
  {
    LookupFinds(ds, ds[i].id);
  }

  /** The catalogs on which both algorithms are meant to agree. */
  ghost predicate Comparable(ds: seq<Directory>, files: seq<File>, root: nat, rank: map<U64, nat>) {
    SortedById(ds) && Connected(ds, files, root) && Ranked(ParentMapOf(ds), rank)
  }

  lemma ParentIsElsewhere(ds: seq<Directory>, files: seq<File>, root: nat, rank: map<U64, nat>, i: nat) returns (k: nat)
    requires Comparable(ds, files, root, rank) && i < |ds| && i != root
    ensures ds[i].parent.Some? && k < |ds| && ds[k].id == ds[i].parent.value && k != i
    ensures Get(NewLookup(ds), ds[i].parent.value) == Some(k) && rank[ds[k].id] < rank[ds[i].id]
  {
    k :| 0 <= k < |ds| && ds[k].id == ds[i].parent.value;
    hide SortedById, ParentMapOf, NewLookup, Connected;
    LookupExact(ds, k);
    InParentMap(ds, i);
    InParentMap(ds, k);
  }

  lemma {:induction false} InParentMap(ds: seq<Directory>, i: nat)
    requires SortedById(ds) && i < |ds|
    ensures ds[i].id in ParentMapOf(ds) && ParentMapOf(ds)[ds[i].id] == ds[i].parent
  {
    if i < |ds| - 1 {
      InParentMap(ds[..|ds| - 1], i);
    }
  }

  lemma RootIsFound(ds: seq<Directory>, files: seq<File>, root: nat, rank: map<U64, nat>)
    requires Comparable(ds, files, root, rank)
    ensures ChooseRoot(ds, NewLookup(ds)) == Some(root)
  {
    var lookup := NewLookup(ds);
    assert IsRootLike(ds, lookup, ds[root]);
    forall i | 0 <= i < |ds| && i != root ensures !IsRootLike(ds, lookup, ds[i]) {
      var k := ParentIsElsewhere(ds, files, root, rank, i);
    }
  }

  ghost function ParentsIn(ds: seq<Directory>, files: seq<File>, root: nat, rank: map<U64, nat>): (parents: Parents)
    requires Comparable(ds, files, root, rank)
    ensures |parents| == |ds| && InBounds(parents)
    ensures forall i :: 0 <= i < |ds| ==> (parents[i].None? <==> i == root)
  {
    RootIsFound(ds, files, root, rank);
    ParentIndices(ds, NewLookup(ds), Some(root))
  }

  /** Parent links by index and by id are the same links. */
  lemma ParentsMatch(ds: seq<Directory>, files: seq<File>, root: nat, rank: map<U64, nat>, i: nat)
    requires Comparable(ds, files, root, rank) && i < |ds|
    ensures var parents := ParentsIn(ds, files, root, rank);
            && ds[i].id in ParentMapOf(ds) && ParentMapOf(ds)[ds[i].id] == ds[i].parent
            && (parents[i].Some? <==> ds[i].parent.Some?)
            && (parents[i].Some? ==> ds[parents[i].value].id == ds[i].parent.value
                                     && rank[ds[parents[i].value].id] < rank[ds[i].id])
  {
    hide SortedById, Ranked, ParentMapOf, NewLookup, ChooseRoot;
    RootIsFound(ds, files, root, rank);
    InParentMap(ds, i);
    assert i == root ==> ds[i].parent == None;
    if i != root {
      var k := ParentIsElsewhere(ds, files, root, rank, i);
      assert ParentIndex(ds, NewLookup(ds), Some(root), i) == Some(k);
    }
  }

  lemma {:induction false} ChainsMatch(ds: seq<Directory>, files: seq<File>, root: nat, rank: map<U64, nat>, d: nat,
                                       v: nat, n: nat)
    requires Comparable(ds, files, root, rank) && d < |ds| && v < |ds|
    ensures Above(ParentMapOf(ds), ds[d].id, ds[v].id, n) <==> Under(ParentsIn(ds, files, root, rank), EVERY, d, v, n)
    decreases n
  {
    hide ParentsIn, ParentMapOf, Connected, Ranked;
    ParentsMatch(ds, files, root, rank, d);
    var parents := ParentsIn(ds, files, root, rank);
    if n == 0 {
      assert ds[d].id == ds[v].id <==> d == v;
    } else if parents[d].Some? {
      ChainsMatch(ds, files, root, rank, parents[d].value, v, n - 1);
    }
  }

  lemma AncestorsMatch(ds: seq<Directory>, files: seq<File>, root: nat, rank: map<U64, nat>, d: nat, v: nat)
    requires Comparable(ds, files, root, rank) && d < |ds| && v < |ds|
    ensures IsAbove(ParentMapOf(ds), ds[d].id, ds[v].id) <==> IsUnder(ParentsIn(ds, files, root, rank), EVERY, d, v)
  {
    forall n: nat
      ensures Above(ParentMapOf(ds), ds[d].id, ds[v].id, n) <==> Under(ParentsIn(ds, files, root, rank), EVERY, d, v, n)
    {
      ChainsMatch(ds, files, root, rank, d, v, n);
    }
  }

  lemma {:induction false} EverythingReachable(ds: seq<Directory>, files: seq<File>, root: nat, rank: map<U64, nat>,
                                               d: nat)
    requires Comparable(ds, files, root, rank) && d < |ds| && ds[d].id in rank
    ensures Reachable(ParentsIn(ds, files, root, rank), root, d)
    decreases rank[ds[d].id]
  {
    var parents := ParentsIn(ds, files, root, rank);
    ParentsMatch(ds, files, root, rank, d);
    if d == root {
      UnderSelf(parents, EVERY, root);
    } else {
      ParentsMatch(ds, files, root, rank, parents[d].value);
      EverythingReachable(ds, files, root, rank, parents[d].value);
      UnderStep(parents, EVERY, d, root);
    }
  }

  ghost predicate ItemOfFile(ds: seq<Directory>, item: Item, f: File) {
    item.FileItem? && item.directory < |ds| && ds[item.directory].id == f.parent && item.weight == FileWeight(f)
  }

  lemma {:induction false} FileItemsMatch(ds: seq<Directory>, files: seq<File>, root: Option<nat>)
    requires SortedById(ds) && forall i :: 0 <= i < |files| ==> HasId(ds, files[i].parent)
    ensures var items := FileItems(files, NewLookup(ds), root);
            |items| == |files| && forall i :: 0 <= i < |files| ==> ItemOfFile(ds, items[i], files[i])
  {
    if files != [] {
      var n := |files| - 1;
      FileItemsMatch(ds, files[..n], root);
      LookupFinds(ds, files[n].parent);
    }
  }

  ghost predicate ItemOfEntry(ds: seq<Directory>, parents: Parents, item: Item, e: Entry) {
    && item.DirectoryItem? && item.index < |parents| == |ds| && parents[item.index].Some?
    && parents[item.index].value < |ds| && ds[parents[item.index].value].id == e.start && e.weight == ONE_ITEM
  }

  lemma {:induction false} DirectoryItemsMatch(ds: seq<Directory>, files: seq<File>, root: nat, rank: map<U64, nat>,
                                               limit: nat)
    requires Comparable(ds, files, root, rank) && limit <= |ds|
    ensures var parents := ParentsIn(ds, files, root, rank);
            var items, es := DirectoryItems(parents, limit), DirectoryEntries(ds[..limit]);
            |items| == |es| && forall k :: 0 <= k < |items| ==> ItemOfEntry(ds, parents, items[k], es[k])
  {
    hide Comparable, ParentsIn;
    if limit > 0 {
      DirectoryItemsMatch(ds, files, root, rank, limit - 1);
      assert ds[..limit][..limit - 1] == ds[..limit - 1];
      ParentsMatch(ds, files, root, rank, limit - 1);
    }
  }

  // ---------- Both totals are over matching entries ----------

  ghost predicate Matched(pm: ParentMap, parents: Parents, item: Item, e: Entry, d: nat, id: U64)
    requires InBounds(parents)
  {
    Weight(item) == e.weight && (CountsIn(parents, EVERY, item, d) <==> IsAbove(pm, e.start, id))
  }

  lemma MatchedTotals(pm: ParentMap, parents: Parents, items: seq<Item>, es: seq<Entry>, d: nat, id: U64)
    requires InBounds(parents) && |items| == |es|
    requires forall k :: 0 <= k < |es| ==> Matched(pm, parents, items[k], es[k], d, id)
    ensures SubtreeTotal(parents, items, d) == TotalBelow(pm, es, id)
  {
    hide CountsIn, IsAbove, Fold;
    assert forall k ::
             0 <= k < |es| ==> Matched(pm, parents, items[k], es[k], d, id) && Weights(items)[k] == EntryWeights(es)[k];
    assert Weights(items) == EntryWeights(es);
    FoldAgrees(EntryWeights(es), Held(parents, EVERY, items, d),
               iset i: nat | i < |es| && IsAbove(pm, es[i].start, id));
  }

  /** The order in which two lists of entries are added does not matter. */
  lemma TotalSwaps(pm: ParentMap, a: seq<Entry>, b: seq<Entry>, v: U64)
    ensures TotalBelow(pm, a + b, v) == TotalBelow(pm, b + a, v)
  {
    TotalSplits(pm, a, b, v);
    TotalSplits(pm, b, a, v);
    PlusLaws(TotalBelow(pm, a, v), TotalBelow(pm, b, v), NOTHING);
  }

  lemma TotalSplits(pm: ParentMap, a: seq<Entry>, b: seq<Entry>, v: U64)
    ensures TotalBelow(pm, a + b, v) == Plus(TotalBelow(pm, a, v), TotalBelow(pm, b, v))
  {
    hide IsAbove, Fold, Plus;
    var all := a + b;
    var picks := iset i: nat | i < |all| && IsAbove(pm, all[i].start, v);
    assert EntryWeights(all) == EntryWeights(a) + EntryWeights(b);
    FoldConcat(EntryWeights(a), EntryWeights(b), picks, iset i: nat | i < |b| && IsAbove(pm, b[i].start, v));
    FoldAgrees(EntryWeights(a), picks, iset i: nat | i < |a| && IsAbove(pm, a[i].start, v));
  }

  /** The subtree total of a directory and the total that the ancestor walks give it are the same. */
  lemma TotalsMatch(ds: seq<Directory>, files: seq<File>, root: nat, rank: map<U64, nat>, v: nat)
    requires Comparable(ds, files, root, rank) && v < |ds|
    ensures var parents := ParentsIn(ds, files, root, rank);
            SubtreeTotal(parents, AllItems(files, NewLookup(ds), Some(root), parents), v) ==
            TotalBelow(ParentMapOf(ds), DirectoryEntries(ds) + FileEntries(files), ds[v].id)
  {
    hide SortedById, Connected, Ranked, ParentsIn, FileItems, DirectoryItems, DirectoryEntries, FileEntries, Matched;
    hide ParentMapOf, SubtreeTotal, TotalBelow;
    var pm, parents := ParentMapOf(ds), ParentsIn(ds, files, root, rank);
    FilesMatch(ds, files, root, rank, v);
    DirectoriesMatch(ds, files, root, rank, v);
    MatchedTotals(pm, parents, AllItems(files, NewLookup(ds), Some(root), parents),
                  FileEntries(files) + DirectoryEntries(ds), v, ds[v].id);
    TotalSwaps(pm, FileEntries(files), DirectoryEntries(ds), ds[v].id);
  }

  lemma FilesMatch(ds: seq<Directory>, files: seq<File>, root: nat, rank: map<U64, nat>, v: nat)
    requires Comparable(ds, files, root, rank) && v < |ds|
    ensures var parents := ParentsIn(ds, files, root, rank);
            var items, es := FileItems(files, NewLookup(ds), Some(root)), FileEntries(files);
            |items| == |es|
            && forall k :: 0 <= k < |es| ==> Matched(ParentMapOf(ds), parents, items[k], es[k], v, ds[v].id)
  {
    hide ParentMapOf, ParentsIn, FileItems, IsAbove, IsUnder;
    var parents := ParentsIn(ds, files, root, rank);
    var items, es := FileItems(files, NewLookup(ds), Some(root)), FileEntries(files);
    assert forall i :: 0 <= i < |files| ==> files[i] in files;
    FileItemsMatch(ds, files, Some(root));
    forall i | 0 <= i < |es| ensures Matched(ParentMapOf(ds), parents, items[i], es[i], v, ds[v].id) {
      assert ItemOfFile(ds, items[i], files[i]);
      AncestorsMatch(ds, files, root, rank, items[i].directory, v);
    }
  }

  lemma DirectoriesMatch(ds: seq<Directory>, files: seq<File>, root: nat, rank: map<U64, nat>, v: nat)
    requires Comparable(ds, files, root, rank) && v < |ds|
    ensures var parents := ParentsIn(ds, files, root, rank);
            var items, es := DirectoryItems(parents, |ds|), DirectoryEntries(ds);
            |items| == |es|
            && forall k :: 0 <= k < |es| ==> Matched(ParentMapOf(ds), parents, items[k], es[k], v, ds[v].id)
  {
    hide SortedById, Connected, Ranked, ParentMapOf, ParentsIn, DirectoryItems, DirectoryEntries, IsAbove, IsUnder;
    var parents := ParentsIn(ds, files, root, rank);
    var items, es := DirectoryItems(parents, |ds|), DirectoryEntries(ds);
    assert ds[..|ds|] == ds;
    DirectoryItemsMatch(ds, files, root, rank, |ds|);
    forall k | 0 <= k < |es| ensures Matched(ParentMapOf(ds), parents, items[k], es[k], v, ds[v].id) {
      assert ItemOfEntry(ds, parents, items[k], es[k]);
      AncestorsMatch(ds, files, root, rank, parents[items[k].index].value, v);
      assert CountsIn(parents, EVERY, items[k], v) <==> IsUnder(parents, EVERY, parents[items[k].index].value, v);
    }
  }

  /** On a connected, acyclic catalog the rollups and the ancestor walks report the same bytes and item counts. */
  lemma RollupsAgreeWithAggregation(ds: seq<Directory>, files: seq<File>, root: nat, rank: map<U64, nat>,
                                    rollups: seq<Rollup>, aggregates: map<U64, Aggregate>, v: nat)
    requires Comparable(ds, files, root, rank) && v < |ds|
    requires AllAggregated(ParentMapOf(ds), aggregates, DirectoryEntries(ds) + FileEntries(files))
    requires RollupsOf(ds, files, ChooseRoot(ds, NewLookup(ds)), rollups)
    ensures ds[v].id in aggregates
    ensures rollups[v].physicalBytes == aggregates[ds[v].id].totalBytes
    ensures rollups[v].itemCount == aggregates[ds[v].id].totalEntries
  {
    RootIsFound(ds, files, root, rank);
    ParentsMatch(ds, files, root, rank, v);
    EverythingReachable(ds, files, root, rank, v);
    TotalsMatch(ds, files, root, rank, v);
  }
}
