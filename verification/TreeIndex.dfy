/**
 The in-memory tree: directories sorted by id, each attached to one parent, children grouped by a counting
 pass, and totals rolled up without recursion by a breadth-first order swept backwards.
 */
module TreeIndex {
  import opened Basics
  import opened Rollups

  datatype Directory = Directory(id: U64, parent: Option<U64>)

  datatype File = File(parent: U64, size: U64, allocation: U64, modified: Option<int>)

  // ---------- Finding a directory ----------

  /** Consecutive ids need no table. */
  datatype DirectoryLookup = Dense(first: U64, len: nat) | Sparse(indices: map<U64, nat>)

  predicate Consecutive(ds: seq<Directory>) {
    forall i :: 0 <= i < |ds| ==> ds[i].id == ds[0].id + i
  }

  function Get(lookup: DirectoryLookup, id: U64): Option<nat> {
    match lookup
    case Dense(first, len) => if first <= id && id - first < len then Some(id - first) else None
    case Sparse(indices) => if id in indices then Some(indices[id]) else None
  }

  ghost predicate Inside(ds: seq<Directory>, lookup: DirectoryLookup) {
    forall id: U64 :: Get(lookup, id).Some? ==> Get(lookup, id).value < |ds|
  }

  /** Where each id was found last. */
  function LastIndices(ds: seq<Directory>): (indices: map<U64, nat>)
    ensures forall id <- indices :: indices[id] < |ds|
  {
    if ds == [] then map[] else LastIndices(ds[..|ds| - 1])[ds[|ds| - 1].id := |ds| - 1]
  }

  function NewLookup(ds: seq<Directory>): (lookup: DirectoryLookup)
    ensures Inside(ds, lookup)
  {
    if Consecutive(ds) then Dense(if ds == [] then 0 else ds[0].id, |ds|) else Sparse(LastIndices(ds))
  }

  /** The last directory with an id, or none when no directory has it. */
  ghost predicate Finds(ds: seq<Directory>, id: U64, found: Option<nat>) {
    match found
    case Some(i) => i < |ds| && ds[i].id == id && forall j :: i < j < |ds| ==> ds[j].id != id
    case None => forall i :: 0 <= i < |ds| ==> ds[i].id != id
  }

  lemma {:induction false} LastIndexFinds(ds: seq<Directory>, id: U64)
    ensures Finds(ds, id, if id in LastIndices(ds) then Some(LastIndices(ds)[id]) else None)
  {
    if ds != [] {
      var n := |ds| - 1;
      LastIndexFinds(ds[..n], id);
      assert forall i :: 0 <= i < n ==> ds[..n][i] == ds[i];
    }
  }

  /** The lookup finds a directory by its id exactly when there is one; of several, the last. */
  lemma LookupFinds(ds: seq<Directory>, id: U64)
    ensures Finds(ds, id, Get(NewLookup(ds), id))
  {
    if Consecutive(ds) {
      forall i | 0 <= i < |ds| ensures ds[i].id == ds[0].id + i {
      }
    } else {
      LastIndexFinds(ds, id);
    }
  }

  // ---------- The root and the parent of every directory ----------

  predicate IsRootLike(ds: seq<Directory>, lookup: DirectoryLookup, d: Directory) {
    match d.parent
    case None => true
    case Some(p) => p == d.id || Get(lookup, p).None?
  }

  function FirstRootLike(ds: seq<Directory>, lookup: DirectoryLookup, from: nat): (root: Option<nat>)
    requires from <= |ds|
    ensures root.Some? ==> from <= root.value < |ds| && IsRootLike(ds, lookup, ds[root.value])
    ensures forall i :: from <= i < (if root.Some? then root.value else |ds|) ==> !IsRootLike(ds, lookup, ds[i])
    decreases |ds| - from
  {
    if from == |ds| then None
    else if IsRootLike(ds, lookup, ds[from]) then Some(from)
    else FirstRootLike(ds, lookup, from + 1)
  }

  function ChooseRoot(ds: seq<Directory>, lookup: DirectoryLookup): (root: Option<nat>)
    requires Inside(ds, lookup)
    ensures root.Some? ==> root.value < |ds| && IsRootLike(ds, lookup, ds[root.value])
    ensures root.None? ==> forall i :: 0 <= i < |ds| ==> !IsRootLike(ds, lookup, ds[i])
  {
    match Get(lookup, 5)
    case Some(i) => if IsRootLike(ds, lookup, ds[i]) then Some(i) else FirstRootLike(ds, lookup, 0)
    case None => FirstRootLike(ds, lookup, 0)
  }

  /** The last record 5 is the root if it has no structural parent; otherwise the first directory that has none. */
  lemma RootPreference(ds: seq<Directory>)
    ensures var lookup, root := NewLookup(ds), ChooseRoot(ds, NewLookup(ds));
            if exists i :: 0 <= i < |ds| && ds[i].id == 5 then
              exists i: nat :: i < |ds| && Finds(ds, 5, Some(i))
                               && (IsRootLike(ds, lookup, ds[i]) ==> root == Some(i))
                               && (!IsRootLike(ds, lookup, ds[i]) ==> IsFirstRoot(ds, lookup, root))
            else IsFirstRoot(ds, lookup, root)
  {
    LookupFinds(ds, 5);
    hide NewLookup, Get, IsRootLike;
  }

  ghost predicate IsFirstRoot(ds: seq<Directory>, lookup: DirectoryLookup, root: Option<nat>) {
    && (root.Some? ==> root.value < |ds| && IsRootLike(ds, lookup, ds[root.value]))
    && forall i :: 0 <= i < (if root.Some? && root.value < |ds| then root.value else |ds|) ==>
         !IsRootLike(ds, lookup, ds[i])
  }

  /** The structural parent; a directory without one hangs off the root. */
  function ParentIndex(ds: seq<Directory>, lookup: DirectoryLookup, root: Option<nat>, i: nat): (parent: Option<nat>)
    requires i < |ds| && Inside(ds, lookup) && (root.Some? ==> root.value < |ds|)
    ensures parent.Some? ==> parent.value < |ds| && parent.value != i
    ensures root.Some? ==> (parent.None? <==> i == root.value)
  {
    if root == Some(i) then None
    else
      match ds[i].parent
      case None => root
      case Some(p) =>
        if p == ds[i].id || Get(lookup, p).None? || Get(lookup, p) == Some(i) then root else Get(lookup, p)
  }

  function ParentIndices(ds: seq<Directory>, lookup: DirectoryLookup, root: Option<nat>): (parents: Parents)
    requires Inside(ds, lookup) && (root.Some? ==> root.value < |ds|)
    ensures |parents| == |ds| && InBounds(parents)
    ensures forall i :: 0 <= i < |ds| ==> parents[i] == ParentIndex(ds, lookup, root, i) && parents[i] != Some(i)
    ensures root.Some? ==> forall i :: 0 <= i < |ds| ==> (parents[i].None? <==> i == root.value)
  {
    seq(|ds|, i requires 0 <= i < |ds| => ParentIndex(ds, lookup, root, i))
  }

  // ---------- Children grouped by parent ----------

  /** The children of `p` among the first `limit` directories, in index order. */
  ghost function ChildrenOf(parents: Parents, p: nat, limit: nat): seq<nat>
    requires limit <= |parents|
  {
    if limit == 0 then []
    else if parents[limit - 1] == Some(p) then ChildrenOf(parents, p, limit - 1) + [limit - 1]
    else ChildrenOf(parents, p, limit - 1)
  }

  ghost predicate Rising(s: seq<nat>) {
    forall i, j :: 0 <= i < j < |s| ==> s[i] < s[j]
  }

  /** They are exactly the directories with that parent, in ascending order. */
  lemma {:induction false} ChildrenAre(parents: Parents, p: nat, limit: nat)
    requires limit <= |parents|
    ensures forall c <- ChildrenOf(parents, p, limit) :: c < limit && parents[c] == Some(p)
    ensures forall c :: 0 <= c < limit && parents[c] == Some(p) ==> c in ChildrenOf(parents, p, limit)
    ensures Rising(ChildrenOf(parents, p, limit))
  {
    if limit > 0 {
      ChildrenAre(parents, p, limit - 1);
      var before := ChildrenOf(parents, p, limit - 1);
      assert forall i :: 0 <= i < |before| ==> before[i] in before && before[i] < limit - 1;
    }
  }

  ghost function Before(counts: seq<nat>, p: nat): nat
    requires p <= |counts|
  {
    if p == 0 then 0 else Before(counts, p - 1) + counts[p - 1]
  }

  lemma {:induction false} BeforeGrows(counts: seq<nat>, p: nat, q: nat)
    requires p < q <= |counts|
    ensures Before(counts, p) + counts[p] <= Before(counts, q)
    decreases q
  {
    if p < q - 1 {
      BeforeGrows(counts, p, q - 1);
    }
  }

  lemma {:induction false} MoreChildren(parents: Parents, p: nat, limit: nat)
    requires limit <= |parents|
    ensures |ChildrenOf(parents, p, limit)| <= |ChildrenOf(parents, p, |parents|)|
    decreases |parents| - limit
  {
    if limit < |parents| {
      MoreChildren(parents, p, limit + 1);
    }
  }

  ghost predicate IsGrouped(parents: Parents, ranges: seq<(nat, nat)>, children: seq<nat>) {
    && |ranges| == |parents|
    && forall p :: 0 <= p < |parents| ==>
         ranges[p].0 <= ranges[p].1 <= |children|
           && children[ranges[p].0..ranges[p].1] == ChildrenOf(parents, p, |parents|)
  }

  /** Counts the children of each directory, turns the counts into ranges, and fills them in one more pass. */
  method GroupChildren(parents: Parents) returns (ranges: seq<(nat, nat)>, children: seq<nat>)
    requires InBounds(parents)
    ensures IsGrouped(parents, ranges, children)
  {
    hide ChildrenOf, Before;
    var counts := CountChildren(parents);
    var total;
    ranges, total := RangesOf(counts);
    var cursors;
    children, cursors := FillChildren(parents, counts, ranges, total);
    forall p | 0 <= p < |parents|
      ensures ranges[p].0 <= ranges[p].1 <= |children|
              && children[ranges[p].0..ranges[p].1] == ChildrenOf(parents, p, |parents|)
    {
      assert FilledFor(parents, counts, children, |parents|, cursors[p], p);
    }
  }

  method RangesOf(counts: seq<nat>) returns (ranges: seq<(nat, nat)>, total: nat)
    ensures |ranges| == |counts| && total == Before(counts, |counts|)
    ensures forall p :: 0 <= p < |counts| ==> ranges[p] == (Before(counts, p), Before(counts, p) + counts[p])
  {
    ranges, total := [], 0;
    for p := 0 to |counts|
      invariant |ranges| == p && total == Before(counts, p)
      invariant forall q :: 0 <= q < p ==> ranges[q] == (Before(counts, q), Before(counts, q) + counts[q])
    {
      ranges := ranges + [(total, total + counts[p])];
      total := total + counts[p];
    }
  }

  ghost predicate Counted(parents: Parents, counts: seq<nat>) {
    |counts| == |parents| && forall p :: 0 <= p < |parents| ==> counts[p] == |ChildrenOf(parents, p, |parents|)|
  }

  method CountChildren(parents: Parents) returns (counts: seq<nat>)
    requires InBounds(parents)
    ensures Counted(parents, counts)
  {
    counts := seq(|parents|, _ => 0);
    for c := 0 to |parents|
      invariant |counts| == |parents| && forall p :: 0 <= p < |parents| ==> counts[p] == |ChildrenOf(parents, p, c)|
    {
      if parents[c].Some? {
        counts := counts[parents[c].value := counts[parents[c].value] + 1];
      }
    }
  }

  /** The range of `p`, up to its cursor, holds those of its children that have been placed. */
  ghost predicate FilledFor(parents: Parents, counts: seq<nat>, slots: seq<nat>, limit: nat, cursor: nat, p: nat)
    requires limit <= |parents| && p < |counts|
  {
    var start, placed := Before(counts, p), ChildrenOf(parents, p, limit);
    start <= cursor <= |slots| && slots[start..cursor] == placed
  }

  lemma FillStep(parents: Parents, counts: seq<nat>, slots: seq<nat>, c: nat, parent: nat, slot: nat, p: nat,
                 cursor: nat)
    requires c < |parents| && Counted(parents, counts) && parents[c] == Some(parent) && parent < |parents|
             && p < |parents|
    requires |slots| == Before(counts, |parents|)
    requires FilledFor(parents, counts, slots, c, slot, parent) && FilledFor(parents, counts, slots, c, cursor, p)
    ensures slot < |slots|
    ensures FilledFor(parents, counts, slots[slot := c], c + 1, if p == parent then slot + 1 else cursor, p)
  {
    var start := Before(counts, p);
    MoreChildren(parents, parent, c + 1);
    MoreChildren(parents, p, c + 1);
    BeforeGrows(counts, parent, |parents|);
    if p < parent {
      BeforeGrows(counts, p, parent);
    } else if parent < p {
      BeforeGrows(counts, parent, p);
    } else {
      assert slots[slot := c][start..slot + 1] == slots[start..slot] + [c];
    }
    if p != parent {
      assert slots[slot := c][start..cursor] == slots[start..cursor];
    }
  }

  lemma FillOthers(parents: Parents, counts: seq<nat>, slots: seq<nat>, c: nat, cursor: nat, p: nat)
    requires c < |parents| && p < |counts| && parents[c].None? && FilledFor(parents, counts, slots, c, cursor, p)
    ensures FilledFor(parents, counts, slots, c + 1, cursor, p)
  {
  }

  method FillChildren(parents: Parents, ghost counts: seq<nat>, ranges: seq<(nat, nat)>, total: nat)
    returns (slots: seq<nat>, cursors: seq<nat>)
    requires InBounds(parents) && Counted(parents, counts) && |ranges| == |parents|
             && total == Before(counts, |parents|)
    requires forall p :: 0 <= p < |parents| ==> ranges[p].0 == Before(counts, p)
    ensures |slots| == total && |cursors| == |parents|
    ensures forall p :: 0 <= p < |parents| ==> FilledFor(parents, counts, slots, |parents|, cursors[p], p)
    ensures forall p :: 0 <= p < |parents| ==> cursors[p] == Before(counts, p) + counts[p]
  {
    cursors := seq(|parents|, p requires 0 <= p < |parents| && |ranges| == |parents| => ranges[p].0);
    slots := seq(total, _ => 0);
    NothingFilled(parents, counts, slots, cursors);
    for child := 0 to |parents|
      invariant |slots| == total && |cursors| == |parents| && AllFilled(parents, counts, slots, child, cursors)
    {
      hide FilledFor, Counted, ChildrenOf, Before, AllFilled;
      FillAll(parents, counts, slots, child, cursors);
      if parents[child].Some? {
        var parent := parents[child].value;
        var slot := cursors[parent];
        slots := slots[slot := child];
        cursors := cursors[parent := cursors[parent] + 1];
      }
    }
    CursorsAtEnd(parents, counts, slots, cursors);
  }

  ghost predicate AllFilled(parents: Parents, counts: seq<nat>, slots: seq<nat>, limit: nat, cursors: seq<nat>)
    requires limit <= |parents| == |counts| == |cursors|
  {
    forall p :: 0 <= p < |parents| ==> FilledFor(parents, counts, slots, limit, cursors[p], p)
  }

  lemma NothingFilled(parents: Parents, counts: seq<nat>, slots: seq<nat>, cursors: seq<nat>)
    requires Counted(parents, counts) && |slots| == Before(counts, |parents|) && |cursors| == |parents|
    requires forall p :: 0 <= p < |parents| ==> cursors[p] == Before(counts, p)
    ensures AllFilled(parents, counts, slots, 0, cursors)
  {
    forall p | 0 <= p < |parents| ensures FilledFor(parents, counts, slots, 0, cursors[p], p) {
      BeforeGrows(counts, p, |parents|);
    }
  }

  /** One directory goes to the cursor of its parent, which moves on. */
  lemma FillAll(parents: Parents, counts: seq<nat>, slots: seq<nat>, c: nat, cursors: seq<nat>)
    requires InBounds(parents) && c < |parents| == |cursors| && Counted(parents, counts)
    requires |slots| == Before(counts, |parents|) && AllFilled(parents, counts, slots, c, cursors)
    ensures match parents[c]
            case None => AllFilled(parents, counts, slots, c + 1, cursors)
            case Some(parent) =>
              && cursors[parent] < |slots|
              && AllFilled(parents, counts, slots[cursors[parent] := c], c + 1, cursors[parent := cursors[parent] + 1])
  {
    hide FilledFor, ChildrenOf, Before;
    var done := c + 1;
    match parents[c]
    case Some(parent) =>
      FillStep(parents, counts, slots, c, parent, cursors[parent], parent, cursors[parent]);
      forall p | 0 <= p < |parents|
        ensures FilledFor(parents, counts, slots[cursors[parent] := c], done,
                          if p == parent then cursors[p] + 1 else cursors[p], p)
      {
        FillStep(parents, counts, slots, c, parent, cursors[parent], p, cursors[p]);
      }
    case None =>
      forall p | 0 <= p < |parents| ensures FilledFor(parents, counts, slots, done, cursors[p], p) {
        FillOthers(parents, counts, slots, c, cursors[p], p);
      }
  }

  lemma CursorsAtEnd(parents: Parents, counts: seq<nat>, slots: seq<nat>, cursors: seq<nat>)
    requires Counted(parents, counts) && |cursors| == |parents|
    requires AllFilled(parents, counts, slots, |parents|, cursors)
    ensures forall p :: 0 <= p < |parents| ==>
              && FilledFor(parents, counts, slots, |parents|, cursors[p], p)
              && cursors[p] == Before(counts, p) + counts[p]
  {
    forall p | 0 <= p < |parents|
      ensures FilledFor(parents, counts, slots, |parents|, cursors[p], p) && cursors[p] == Before(counts, p) + counts[p]
    {
      assert FilledFor(parents, counts, slots, |parents|, cursors[p], p);
    }
  }
}
