/**
 Rolled-up totals of a directory tree. Totals are added with saturating sums and a maximum, which form a
 commutative monoid, so that a total over a set of entries does not depend on the order of the additions.
 */
module Rollups {
  import opened Basics

  datatype Rollup = Rollup(logicalBytes: U64, physicalBytes: U64, fileCount: U64, itemCount: U64,
                           modifiedMax: Option<int>)

  const NOTHING := Rollup(0, 0, 0, 0, None)
  const ONE_ITEM := Rollup(0, 0, 0, 1, None)

  function MaxOption(a: Option<int>, b: Option<int>): Option<int> {
    match (a, b)
    case (Some(x), Some(y)) => Some(Max(x, y))
    case (Some(x), None) => Some(x)
    case (None, _) => b
  }

  function Plus(a: Rollup, b: Rollup): Rollup {
    Rollup(SatAdd(a.logicalBytes, b.logicalBytes), SatAdd(a.physicalBytes, b.physicalBytes),
           SatAdd(a.fileCount, b.fileCount), SatAdd(a.itemCount, b.itemCount), MaxOption(a.modifiedMax, b.modifiedMax))
  }

  lemma PlusLaws(a: Rollup, b: Rollup, c: Rollup)
    ensures Plus(a, b) == Plus(b, a)
    ensures Plus(Plus(a, b), c) == Plus(a, Plus(b, c))
    ensures Plus(a, NOTHING) == a == Plus(NOTHING, a)
  {
  }

  // ---------- Totals over sets of entries ----------

  /** The total of the entries at the given positions. */
  ghost function Fold(weights: seq<Rollup>, picked: iset<nat>): Rollup {
    if weights == [] then NOTHING
    else
      var n := |weights| - 1;
      if n in picked then Plus(Fold(weights[..n], picked), weights[n]) else Fold(weights[..n], picked)
  }

  lemma {:induction false} FoldAgrees(weights: seq<Rollup>, a: iset<nat>, b: iset<nat>)
    requires forall i: nat :: i < |weights| ==> (i in a <==> i in b)
    ensures Fold(weights, a) == Fold(weights, b)
  {
    if weights != [] {
      FoldAgrees(weights[..|weights| - 1], a, b);
    }
  }

  /** The total over two disjoint sets of entries is the sum of their totals. */
  lemma {:induction false} FoldJoins(weights: seq<Rollup>, a: iset<nat>, b: iset<nat>, both: iset<nat>)
    requires forall i: nat :: i < |weights| ==> (i in both <==> i in a || i in b) && !(i in a && i in b)
    ensures Fold(weights, both) == Plus(Fold(weights, a), Fold(weights, b))
  {
    if weights != [] {
      var n := |weights| - 1;
      FoldJoins(weights[..n], a, b, both);
      PlusLaws(Fold(weights[..n], a), Fold(weights[..n], b), weights[n]);
      PlusLaws(Fold(weights[..n], a), weights[n], Fold(weights[..n], b));
    }
  }

  lemma {:induction false} FoldNone(weights: seq<Rollup>, a: iset<nat>)
    requires forall i: nat :: i < |weights| ==> i !in a
    ensures Fold(weights, a) == NOTHING
  {
    if weights != [] {
      FoldNone(weights[..|weights| - 1], a);
    }
  }

  /** The total of a single entry is its weight. */
  lemma {:induction false} FoldSingle(weights: seq<Rollup>, a: iset<nat>, k: nat)
    requires k < |weights| && forall i: nat :: i < |weights| ==> (i in a <==> i == k)
    ensures Fold(weights, a) == weights[k]
  {
    var n := |weights| - 1;
    if k == n {
      FoldNone(weights[..n], a);
    } else {
      FoldSingle(weights[..n], a, k);
    }
  }

  lemma {:induction false} FoldConcat(a: seq<Rollup>, b: seq<Rollup>, picked: iset<nat>, shifted: iset<nat>)
    requires forall i: nat :: i < |b| ==> (i in shifted <==> i + |a| in picked)
    ensures Fold(a + b, picked) == Plus(Fold(a, picked), Fold(b, shifted))
  {
    if b == [] {
      assert a + b == a;
      PlusLaws(Fold(a, picked), NOTHING, NOTHING);
    } else {
      var n := |b| - 1;
      FoldConcat(a, b[..n], picked, shifted);
      assert (a + b)[..|a| + n] == a + b[..n];
      PlusLaws(Fold(a, picked), Fold(b[..n], shifted), b[n]);
    }
  }

  // ---------- Saturating sums are exact until the largest number ----------

  datatype Column = LogicalBytes | PhysicalBytes | FileCount | ItemCount

  function Cell(r: Rollup, c: Column): U64 {
    match c
    case LogicalBytes => r.logicalBytes
    case PhysicalBytes => r.physicalBytes
    case FileCount => r.fileCount
    case ItemCount => r.itemCount
  }

  ghost function ExactSum(weights: seq<Rollup>, picked: iset<nat>, c: Column): nat {
    if weights == [] then 0
    else
      var n := |weights| - 1;
      ExactSum(weights[..n], picked, c) + if n in picked then Cell(weights[n], c) else 0
  }

  /** Bytes and counts are the exact sums, as far as 64 bits reach. */
  lemma {:induction false} FoldIsSaturatedSum(weights: seq<Rollup>, picked: iset<nat>, c: Column)
    ensures Cell(Fold(weights, picked), c) == Saturated(ExactSum(weights, picked, c))
  {
    if weights != [] {
      FoldIsSaturatedSum(weights[..|weights| - 1], picked, c);
    }
  }

  /** The newest time is the latest of the times there are, if there are any. */
  lemma {:induction false} FoldIsNewest(weights: seq<Rollup>, picked: iset<nat>)
    ensures forall k: nat :: k < |weights| && k in picked && weights[k].modifiedMax.Some? ==>
              Fold(weights, picked).modifiedMax.Some?
              && weights[k].modifiedMax.value <= Fold(weights, picked).modifiedMax.value
    ensures Fold(weights, picked).modifiedMax.Some? ==>
              exists k: nat :: k < |weights| && k in picked
                               && weights[k].modifiedMax == Fold(weights, picked).modifiedMax
  {
    if weights != [] {
      var n := |weights| - 1;
      FoldIsNewest(weights[..n], picked);
      if Fold(weights[..n], picked).modifiedMax.Some? {
        var k: nat :| k < n && k in picked && weights[..n][k].modifiedMax == Fold(weights[..n], picked).modifiedMax;
        assert weights[k].modifiedMax == Fold(weights[..n], picked).modifiedMax;
      }
      forall k: nat | k < |weights| && k in picked && weights[k].modifiedMax.Some?
        ensures Fold(weights, picked).modifiedMax.Some?
                && weights[k].modifiedMax.value <= Fold(weights, picked).modifiedMax.value
      {
        if k < n {
          assert weights[..n][k] == weights[k];
        }
      }
    }
  }

  // ---------- The parent forest ----------

  /** For each directory its parent's index; only the chosen root has none. */
  type Parents = seq<Option<nat>>

  predicate InBounds(parents: Parents) {
    forall i :: 0 <= i < |parents| && parents[i].Some? ==> parents[i].value < |parents|
  }

  /** `v` is found `n` parent steps above `d`, over the links of the directories in `open` only. */
  ghost predicate Under(parents: Parents, open: iset<nat>, d: nat, v: nat, n: nat)
    requires InBounds(parents)
    decreases n
  {
    d < |parents| && if n == 0 then d == v
                     else d in open && parents[d].Some? && Under(parents, open, parents[d].value, v, n - 1)
  }

  ghost predicate IsUnder(parents: Parents, open: iset<nat>, d: nat, v: nat)
    requires InBounds(parents)
  {
    exists n: nat :: Under(parents, open, d, v, n)
  }

  ghost const EVERY: iset<nat> := iset n: nat | true

  ghost predicate Reachable(parents: Parents, root: nat, v: nat)
    requires InBounds(parents)
  {
    IsUnder(parents, EVERY, v, root)
  }

  lemma UnderSelf(parents: Parents, open: iset<nat>, v: nat)
    requires InBounds(parents) && v < |parents|
    ensures IsUnder(parents, open, v, v)
  {
    assert Under(parents, open, v, v, 0);
  }

  lemma UnderStep(parents: Parents, open: iset<nat>, d: nat, v: nat)
    requires InBounds(parents) && d < |parents| && d != v
    ensures IsUnder(parents, open, d, v) <==>
            d in open && parents[d].Some? && IsUnder(parents, open, parents[d].value, v)
  {
    if IsUnder(parents, open, d, v) {
      var n: nat :| Under(parents, open, d, v, n);
      assert Under(parents, open, parents[d].value, v, n - 1);
    }
    if d in open && parents[d].Some? && IsUnder(parents, open, parents[d].value, v) {
      var n: nat :| Under(parents, open, parents[d].value, v, n);
      assert Under(parents, open, d, v, n + 1);
    }
  }

  // ---------- Entries and where they count ----------

  /** A file counts where it lies; a directory counts as one item of its parent. */
  datatype Item = FileItem(directory: nat, weight: Rollup) | DirectoryItem(index: nat)

  function Weight(item: Item): Rollup {
    if item.FileItem? then item.weight else ONE_ITEM
  }

  function Weights(items: seq<Item>): (w: seq<Rollup>)
    ensures |w| == |items| && forall i :: 0 <= i < |items| ==> w[i] == Weight(items[i])
  {
    seq(|items|, i requires 0 <= i < |items| => Weight(items[i]))
  }

  ghost predicate CountsIn(parents: Parents, open: iset<nat>, item: Item, v: nat)
    requires InBounds(parents)
  {
    match item
    case FileItem(directory, _) => IsUnder(parents, open, directory, v)
    case DirectoryItem(index) =>
      index < |parents| && index in open && parents[index].Some? && IsUnder(parents, open, parents[index].value, v)
  }

  ghost function Held(parents: Parents, open: iset<nat>, items: seq<Item>, v: nat): iset<nat>
    requires InBounds(parents)
  {
    iset k: nat | k < |items| && CountsIn(parents, open, items[k], v)
  }

  /** The total of `v` when links of the directories in `open` have been rolled up. */
  ghost function TotalOf(parents: Parents, open: iset<nat>, items: seq<Item>, v: nat): Rollup
    requires InBounds(parents)
  {
    Fold(Weights(items), Held(parents, open, items, v))
  }

  /** Everything in the subtree of `v`. */
  ghost function SubtreeTotal(parents: Parents, items: seq<Item>, v: nat): Rollup
    requires InBounds(parents)
  {
    TotalOf(parents, EVERY, items, v)
  }

  // ---------- Opening one more link ----------

  lemma {:induction false} OpenOther(parents: Parents, open: iset<nat>, c: nat, p: nat, d: nat, v: nat, n: nat)
    requires InBounds(parents) && c < |parents| && parents[c] == Some(p) && c !in open && p !in open && p != c
    requires Under(parents, open + iset{c}, d, v, n)
    ensures IsUnder(parents, open, d, v) || (v == p && IsUnder(parents, open, d, c))
    decreases n
  {
    if n == 0 {
      UnderSelf(parents, open, v);
    } else if d == c {
      UnderSelf(parents, open, c);
    } else {
      OpenOther(parents, open, c, p, parents[d].value, v, n - 1);
      if d != v {
        UnderStep(parents, open, d, v);
      } else {
        UnderSelf(parents, open, v);
      }
      UnderStep(parents, open, d, c);
    }
  }

  lemma {:induction false} OpenMore(parents: Parents, open: iset<nat>, more: iset<nat>, d: nat, v: nat, n: nat)
    requires InBounds(parents) && open <= more && Under(parents, open, d, v, n)
    ensures Under(parents, more, d, v, n)
    decreases n
  {
    if n > 0 {
      OpenMore(parents, open, more, parents[d].value, v, n - 1);
    }
  }

  lemma {:induction false} OpenThrough(parents: Parents, open: iset<nat>, c: nat, p: nat, d: nat, n: nat)
    requires InBounds(parents) && c < |parents| && parents[c] == Some(p) && Under(parents, open, d, c, n)
    ensures Under(parents, open + iset{c}, d, p, n + 1)
    decreases n
  {
    if n == 0 {
      assert Under(parents, open + iset{c}, p, p, 0);
    } else {
      OpenThrough(parents, open, c, p, parents[d].value, n - 1);
    }
  }

  /** A closed directory is where every chain stops, so no chain passes one closed directory and reaches another. */
  lemma {:induction false} ClosedStops(parents: Parents, open: iset<nat>, d: nat, v: nat, w: nat, m: nat, n: nat)
    requires InBounds(parents) && v !in open && w !in open
    requires Under(parents, open, d, v, m) && Under(parents, open, d, w, n)
    ensures v == w
    decreases m
  {
    if m > 0 && n > 0 {
      ClosedStops(parents, open, parents[d].value, v, w, m - 1, n - 1);
    }
  }

  /** What opening the link of `c` to its parent `p` does to where an entry counts. */
  lemma OpenLink(parents: Parents, open: iset<nat>, c: nat, p: nat, d: nat, v: nat)
    requires InBounds(parents) && c < |parents| && parents[c] == Some(p) && c !in open && p !in open && p != c
    ensures IsUnder(parents, open + iset{c}, d, v) <==>
              IsUnder(parents, open, d, v) || (v == p && IsUnder(parents, open, d, c))
    ensures !(IsUnder(parents, open, d, p) && IsUnder(parents, open, d, c))
  {
    var more := open + iset{c};
    if IsUnder(parents, more, d, v) {
      var n: nat :| Under(parents, more, d, v, n);
      OpenOther(parents, open, c, p, d, v, n);
    }
    if IsUnder(parents, open, d, v) {
      var n: nat :| Under(parents, open, d, v, n);
      OpenMore(parents, open, more, d, v, n);
    }
    if IsUnder(parents, open, d, c) {
      var n: nat :| Under(parents, open, d, c, n);
      OpenThrough(parents, open, c, p, d, n);
      if IsUnder(parents, open, d, p) {
        var m: nat :| Under(parents, open, d, p, m);
        ClosedStops(parents, open, d, p, c, m, n);
      }
    }
  }

  /** Each directory is listed once as an item, and no two items are the same directory. */
  ghost predicate ItemsOk(parents: Parents, items: seq<Item>) {
    && (forall k ::
          0 <= k < |items| && items[k].DirectoryItem? ==> items[k].index < |parents| && parents[items[k].index].Some?)
    && (forall d :: 0 <= d < |parents| && parents[d].Some? ==> Listed(items, d))
    && (forall j, k :: 0 <= j < k < |items| && items[j].DirectoryItem? && items[k].DirectoryItem? ==>
          items[j].index != items[k].index)
  }

  ghost predicate Listed(items: seq<Item>, d: nat) {
    exists k :: 0 <= k < |items| && items[k] == DirectoryItem(d)
  }

  /** The reverse sweep: adding a child's total and one item to its parent accounts for exactly one more link. */
  lemma SweepStep(parents: Parents, open: iset<nat>, items: seq<Item>, c: nat, p: nat, v: nat)
    requires InBounds(parents) && c < |parents| && parents[c] == Some(p) && c !in open && p !in open && p != c
    requires ItemsOk(parents, items)
    ensures TotalOf(parents, open + iset{c}, items, v) ==
            if v == p then Plus(Plus(TotalOf(parents, open, items, p), TotalOf(parents, open, items, c)), ONE_ITEM)
            else TotalOf(parents, open, items, v)
  {
    var more := open + iset{c};
    var w := Weights(items);
    var before, child, after := Held(parents, open, items, v), Held(parents, open, items, c),
      Held(parents, more, items, v);
    forall k: nat | k < |items|
      ensures v != p ==> (k in after <==> k in before)
      ensures v == p ==> (k in after <==> k in before || k in child || items[k] == DirectoryItem(c))
      ensures v == p ==> !(k in before && k in child) && !((k in before || k in child) && items[k] == DirectoryItem(c))
    {
      match items[k]
      case FileItem(d, _) => OpenLink(parents, open, c, p, d, v);
      case DirectoryItem(d) =>
        OpenLink(parents, open, c, p, parents[d].value, v);
        if d == c && v == p {
          UnderSelf(parents, more, p);
        }
        if d == c && v != p && IsUnder(parents, more, p, v) {
          UnderStep(parents, more, p, v);
        }
    }
    if v == p {
      var k :| 0 <= k < |items| && items[k] == DirectoryItem(c);
      var both := iset i: nat | i in before || i in child;
      FoldJoins(w, before, child, both);
      FoldJoins(w, both, iset{k}, after);
      FoldSingle(w, iset{k}, k);
    } else {
      FoldAgrees(w, before, after);
    }
  }
}
