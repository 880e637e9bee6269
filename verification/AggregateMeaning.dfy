/** What the older aggregation adds up, read off the lists of directories and files. */
module AggregateMeaning {
  import opened Basics
  import opened TreeIndex
  import opened Rollups
  import opened TreeRollup
  import opened Aggregation
  import opened TotalsMeaning

  /** From the directory with one id, exactly `n` parent steps lead to that with the other. */
  ghost predicate Leads(ds: seq<Directory>, id: U64, v: U64, n: nat)
    decreases n
  {
    exists k: nat :: IsLast(ds, id, k) && if n == 0 then id == v
                                          else ds[k].parent.Some? && Leads(ds, ds[k].parent.value, v, n - 1)
  }

  /** What lies in directory `id` counts in directory `v`: in the same one, or in every one above as well. */
  ghost predicate Counts(ds: seq<Directory>, id: U64, v: U64, deep: bool) {
    if deep then exists n: nat :: Leads(ds, id, v, n) else id == v
  }

  ghost function SumUnder(ds: seq<Directory>, files: seq<File>, v: U64, deep: bool, amount: File -> nat): nat {
    if files == [] then 0
    else
      var n := |files| - 1;
      SumUnder(ds, files[..n], v, deep, amount) + if Counts(ds, files[n].parent, v, deep) then amount(files[n]) else 0
  }

  /** How many of the first `limit` directories have a parent that counts in `v`. */
  ghost function DirectoriesUnder(ds: seq<Directory>, v: U64, deep: bool, limit: nat): nat
    requires limit <= |ds|
  {
    if limit == 0 then 0
    else
      DirectoriesUnder(ds, v, deep, limit - 1)
      + if ds[limit - 1].parent.Some? && Counts(ds, ds[limit - 1].parent.value, v, deep) then 1 else 0
  }

  // ---------- Links by id ----------

  lemma {:induction false} ParentMapIs(ds: seq<Directory>, id: U64)
    ensures id in ParentMapOf(ds) <==> exists k: nat :: IsLast(ds, id, k)
    ensures forall k: nat :: IsLast(ds, id, k) ==> ParentMapOf(ds)[id] == ds[k].parent
  {
    if ds != [] {
      var n := |ds| - 1;
      ParentMapIs(ds[..n], id);
      if ds[n].id == id {
        assert IsLast(ds, id, n);
      } else {
        forall k: nat ensures IsLast(ds, id, k) <==> IsLast(ds[..n], id, k) {
        }
      }
    }
  }

  lemma {:induction false} AboveIsLeads(ds: seq<Directory>, id: U64, v: U64, n: nat)
    ensures Above(ParentMapOf(ds), id, v, n) <==> Leads(ds, id, v, n)
    decreases n
  {
    hide ParentMapOf, IsLast;
    ParentMapIs(ds, id);
    if n > 0 && id in ParentMapOf(ds) && ParentMapOf(ds)[id].Some? {
      AboveIsLeads(ds, ParentMapOf(ds)[id].value, v, n - 1);
    }
  }

  ghost predicate Picks(pm: ParentMap, id: U64, v: U64, deep: bool) {
    if deep then IsAbove(pm, id, v) else id == v
  }

  lemma PicksIsCounts(ds: seq<Directory>, id: U64, v: U64, deep: bool)
    ensures Picks(ParentMapOf(ds), id, v, deep) <==> Counts(ds, id, v, deep)
  {
    hide ParentMapOf;
    forall n: nat ensures Above(ParentMapOf(ds), id, v, n) <==> Leads(ds, id, v, n) {
      AboveIsLeads(ds, id, v, n);
    }
  }

  // ---------- Sums over entries ----------

  ghost function EntrySum(pm: ParentMap, es: seq<Entry>, v: U64, deep: bool, c: Column): nat {
    if es == [] then 0
    else
      var n := |es| - 1;
      EntrySum(pm, es[..n], v, deep, c) + if Picks(pm, es[n].start, v, deep) then Cell(es[n].weight, c) else 0
  }

  ghost function Picked(pm: ParentMap, es: seq<Entry>, v: U64, deep: bool): iset<nat> {
    iset i: nat | i < |es| && Picks(pm, es[i].start, v, deep)
  }

  lemma {:induction false} ExactIsEntrySum(pm: ParentMap, es: seq<Entry>, v: U64, deep: bool, c: Column)
    ensures ExactSum(EntryWeights(es), Picked(pm, es, v, deep), c) == EntrySum(pm, es, v, deep, c)
  {
    hide Picks, Cell;
    if es != [] {
      var n := |es| - 1;
      ExactIsEntrySum(pm, es[..n], v, deep, c);
      assert EntryWeights(es)[..n] == EntryWeights(es[..n]);
      ExactAgrees(EntryWeights(es[..n]), Picked(pm, es, v, deep), Picked(pm, es[..n], v, deep), c);
    }
  }

  lemma {:induction false} EntrySumConcat(pm: ParentMap, a: seq<Entry>, b: seq<Entry>, v: U64, deep: bool, c: Column)
    ensures EntrySum(pm, a + b, v, deep, c) == EntrySum(pm, a, v, deep, c) + EntrySum(pm, b, v, deep, c)
  {
    hide Picks, Cell;
    if b == [] {
      assert a + b == a;
    } else {
      var n := |b| - 1;
      EntrySumConcat(pm, a, b[..n], v, deep, c);
      assert (a + b)[..|a + b| - 1] == a + b[..n];
    }
  }

  lemma {:induction false} FileEntrySum(ds: seq<Directory>, files: seq<File>, v: U64, deep: bool, c: Column,
                                        amount: File -> nat)
    requires forall f :: amount(f) == Cell(FileWeight(f), c)
    ensures EntrySum(ParentMapOf(ds), FileEntries(files), v, deep, c) == SumUnder(ds, files, v, deep, amount)
  {
    hide ParentMapOf, Picks, Counts, Cell, FileWeight;
    if files != [] {
      var n := |files| - 1;
      FileEntrySum(ds, files[..n], v, deep, c, amount);
      assert FileEntries(files)[..n] == FileEntries(files[..n]);
      PicksIsCounts(ds, files[n].parent, v, deep);
    }
  }

  lemma {:induction false} DirectoryEntrySum(ds: seq<Directory>, v: U64, deep: bool, limit: nat, c: Column)
    requires limit <= |ds|
    ensures EntrySum(ParentMapOf(ds), DirectoryEntries(ds[..limit]), v, deep, c) ==
            if c == ItemCount then DirectoriesUnder(ds, v, deep, limit) else 0
  {
    hide ParentMapOf, Picks, Counts;
    if limit > 0 {
      var d, before := ds[limit - 1], DirectoryEntries(ds[..limit - 1]);
      DirectoryEntrySum(ds, v, deep, limit - 1, c);
      assert ds[..limit][..limit - 1] == ds[..limit - 1];
      if d.parent.Some? {
        PicksIsCounts(ds, d.parent.value, v, deep);
        assert (before + [Entry(d.parent.value, ONE_ITEM)])[..|before|] == before;
      } else {
        assert before + [] == before;
      }
    }
  }

  lemma ColumnOfEntries(ds: seq<Directory>, files: seq<File>, v: U64, deep: bool, c: Column, amount: File -> nat)
    requires forall f :: amount(f) == Cell(FileWeight(f), c)
    ensures var es := DirectoryEntries(ds) + FileEntries(files);
            var total := Fold(EntryWeights(es), Picked(ParentMapOf(ds), es, v, deep));
            Cell(total, c) == Saturated(SumUnder(ds, files, v, deep, amount)
                                        + if c == ItemCount then DirectoriesUnder(ds, v, deep, |ds|) else 0)
  {
    hide ParentMapOf, Picks, Counts, Cell, FileWeight, DirectoryEntries, FileEntries, EntryWeights, Picked, EntrySum;
    hide SumUnder, DirectoriesUnder, Fold, ExactSum;
    var pm, es := ParentMapOf(ds), DirectoryEntries(ds) + FileEntries(files);
    FoldIsSaturatedSum(EntryWeights(es), Picked(pm, es, v, deep), c);
    ExactIsEntrySum(pm, es, v, deep, c);
    EntrySumConcat(pm, DirectoryEntries(ds), FileEntries(files), v, deep, c);
    FileEntrySum(ds, files, v, deep, c, amount);
    assert ds[..|ds|] == ds;
    DirectoryEntrySum(ds, v, deep, |ds|, c);
  }

  lemma TotalsArePicked(pm: ParentMap, es: seq<Entry>, v: U64)
    ensures TotalBelow(pm, es, v) == Fold(EntryWeights(es), Picked(pm, es, v, true))
    ensures TotalIn(es, v) == Fold(EntryWeights(es), Picked(pm, es, v, false))
  {
    hide Fold, EntryWeights, IsAbove;
    assert Picked(pm, es, v, true) == iset i: nat | i < |es| && IsAbove(pm, es[i].start, v);
    assert Picked(pm, es, v, false) == iset i: nat | i < |es| && es[i].start == v;
  }

  // ---------- The aggregates ----------

  ghost predicate IsAggregateOf(ds: seq<Directory>, files: seq<File>, v: U64, a: Aggregate) {
    && a.directBytes == Saturated(SumUnder(ds, files, v, false, (f: File) => f.size))
    && a.totalBytes == Saturated(SumUnder(ds, files, v, true, (f: File) => f.allocation))
    && a.directEntries ==
       Saturated(SumUnder(ds, files, v, false, (f: File) => 1) + DirectoriesUnder(ds, v, false, |ds|))
    && a.totalEntries ==
       Saturated(SumUnder(ds, files, v, true, (f: File) => 1) + DirectoriesUnder(ds, v, true, |ds|))
  }

  /** The direct bytes of a directory are the sizes of the files in it, its total bytes the allocations of all files at
      or below it, and its entries the files and directories in it and below it. */
  lemma AggregatesMean(ds: seq<Directory>, files: seq<File>, aggregates: map<U64, Aggregate>, v: U64)
    requires AllAggregated(ParentMapOf(ds), aggregates, DirectoryEntries(ds) + FileEntries(files))
    ensures v in aggregates <==> exists k: nat :: IsLast(ds, v, k)
    ensures v in aggregates ==> IsAggregateOf(ds, files, v, aggregates[v])
  {
    ParentMapIs(ds, v);
    hide ParentMapOf, DirectoryEntries, FileEntries, SumUnder, DirectoriesUnder, Fold, EntryWeights, Picked, IsLast;
    hide TotalBelow, TotalIn;
    if v in aggregates {
      var pm, es := ParentMapOf(ds), DirectoryEntries(ds) + FileEntries(files);
      TotalsArePicked(pm, es, v);
      ColumnOfEntries(ds, files, v, false, LogicalBytes, (f: File) => f.size);
      ColumnOfEntries(ds, files, v, true, PhysicalBytes, (f: File) => f.allocation);
      ColumnOfEntries(ds, files, v, false, ItemCount, (f: File) => 1);
      ColumnOfEntries(ds, files, v, true, ItemCount, (f: File) => 1);
      assert AggregateOf(aggregates[v], TotalBelow(pm, es, v), TotalIn(es, v));
    }
  }
}
