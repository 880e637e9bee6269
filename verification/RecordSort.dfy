/**
 Sorting the records of a catalog by id without a second record array: records whose ids form a dense range
 are swapped straight to their offsets; otherwise compact keys are sorted and their permutation is applied
 to the records cycle by cycle.
 */
module RecordSort {
  import opened Basics

  predicate Ascending(ids: seq<U64>) {
    forall i, j :: 0 <= i < j < |ids| ==> ids[i] <= ids[j]
  }

  function Ids<T>(records: seq<T>, key: T -> U64): (ids: seq<U64>)
    ensures |ids| == |records| && forall i :: 0 <= i < |records| ==> ids[i] == key(records[i])
  {
    seq(|records|, i requires 0 <= i < |records| => key(records[i]))
  }

  // ---------- Permutations by swapping ----------

  function Swapped<T>(s: seq<T>, i: nat, j: nat): seq<T>
    requires i < |s| && j < |s|
  {
    s[i := s[j]][j := s[i]]
  }

  method SwapAt<T>(a: array<T>, i: nat, j: nat)
    requires i < a.Length && j < a.Length
    modifies a
    ensures a[..] == Swapped(old(a[..]), i, j) && multiset(a[..]) == multiset(old(a[..]))
  {
    a[i], a[j] := a[j], a[i];
    assert a[..] == Swapped(old(a[..]), i, j);
  }

  // ---------- Library sort of the compact keys ----------

  type Keyed = (U64, nat)

  predicate SortedKeys(s: seq<Keyed>) {
    forall i, j :: 0 <= i < j < |s| ==> s[i].0 <= s[j].0
  }

  function Insert(s: seq<Keyed>, k: Keyed): seq<Keyed> {
    if s == [] || s[|s| - 1].0 <= k.0 then s + [k] else Insert(s[..|s| - 1], k) + [s[|s| - 1]]
  }

  lemma {:induction false} InsertSorts(s: seq<Keyed>, k: Keyed)
    requires SortedKeys(s)
    ensures SortedKeys(Insert(s, k)) && Insert(s, k) != []
    ensures var r := Insert(s, k); r[|r| - 1].0 == k.0 || (s != [] && r[|r| - 1].0 == s[|s| - 1].0)
  {
    if s != [] && s[|s| - 1].0 > k.0 {
      InsertSorts(s[..|s| - 1], k);
      var r := Insert(s[..|s| - 1], k);
      assert r[|r| - 1].0 <= s[|s| - 1].0;
    }
  }

  lemma {:induction false} InsertAdds(s: seq<Keyed>, k: Keyed)
    ensures multiset(Insert(s, k)) == multiset(s) + multiset{k}
  {
    if s != [] && s[|s| - 1].0 > k.0 {
      InsertAdds(s[..|s| - 1], k);
      assert s == s[..|s| - 1] + [s[|s| - 1]];
    }
  }

  function Sorted(s: seq<Keyed>): (r: seq<Keyed>)
    ensures SortedKeys(r) && multiset(r) == multiset(s)
  {
    if s == [] then []
    else
      var r := Sorted(s[..|s| - 1]);
      InsertSorts(r, s[|s| - 1]);
      InsertAdds(r, s[|s| - 1]);
      assert s == s[..|s| - 1] + [s[|s| - 1]];
      Insert(r, s[|s| - 1])
  }

  /** Some sorted permutation, as the library's unstable sort gives; which one is not relied on. */
  method SortKeys(keyed: array<Keyed>)
    modifies keyed
    ensures SortedKeys(keyed[..]) && multiset(keyed[..]) == multiset(old(keyed[..]))
  {
    var sorted := Sorted(keyed[..]);
    assert |sorted| == |multiset(sorted)| == keyed.Length;
    forall i | 0 <= i < keyed.Length {
      keyed[i] := sorted[i];
    }
    assert keyed[..] == sorted;
  }

  // ---------- Dense ids ----------

  /** The offsets that do not hold the record with their id yet. */
  ghost function Unsettled(ids: seq<U64>, minimum: U64): set<int> {
    set i | 0 <= i < |ids| && ids[i] != minimum + i
  }

  ghost predicate InDenseRange(ids: seq<U64>, minimum: U64) {
    forall i :: 0 <= i < |ids| ==> minimum <= ids[i] < minimum + |ids|
  }

  /** Swaps each record to the offset of its id; a duplicate id stops the attempt, and swaps alone lose nothing. */
  method PlaceDense<T>(records: array<T>, key: T -> U64, minimum: U64) returns (unique: bool)
    requires InDenseRange(Ids(records[..], key), minimum)
    modifies records
    ensures multiset(records[..]) == multiset(old(records[..]))
    ensures unique ==> Ascending(Ids(records[..], key))
  {
    for position := 0 to records.Length
      invariant InDenseRange(Ids(records[..], key), minimum) && multiset(records[..]) == multiset(old(records[..]))
      invariant forall i :: 0 <= i < position ==> i !in Unsettled(Ids(records[..], key), minimum)
    {
      unique := SettlePosition(records, key, minimum, position);
      if !unique {
        return;
      }
    }
    SettledIsAscending(Ids(records[..], key), minimum);
    unique := true;
  }

  lemma SettledIsAscending(ids: seq<U64>, minimum: U64)
    requires forall i :: 0 <= i < |ids| ==> i !in Unsettled(ids, minimum)
    ensures Ascending(ids)
  {
    forall i | 0 <= i < |ids| ensures ids[i] == minimum + i {
      assert i !in Unsettled(ids, minimum);
    }
  }

  /** Swaps until the record of one offset is in place, unless it meets a duplicate of the id it is holding. */
  method SettlePosition<T>(records: array<T>, key: T -> U64, minimum: U64, position: nat) returns (unique: bool)
    requires InDenseRange(Ids(records[..], key), minimum) && position < records.Length
    modifies records
    ensures InDenseRange(Ids(records[..], key), minimum) && multiset(records[..]) == multiset(old(records[..]))
    ensures Unsettled(Ids(records[..], key), minimum) <= Unsettled(Ids(old(records[..]), key), minimum)
    ensures unique ==> position !in Unsettled(Ids(records[..], key), minimum)
  {
    while true
      invariant InDenseRange(Ids(records[..], key), minimum) && multiset(records[..]) == multiset(old(records[..]))
      invariant Unsettled(Ids(records[..], key), minimum) <= Unsettled(Ids(old(records[..]), key), minimum)
      decreases Unsettled(Ids(records[..], key), minimum)
    {
      ghost var before := records[..];
      OffsetIsInside(before, key, minimum, position);
      hide InDenseRange, Unsettled;
      var id := key(records[position]);
      var destination := id - minimum;
      if destination == position {
        return true;
      }
      if key(records[destination]) == id {
        return false;
      }
      SwapAt(records, position, destination);
      SwapSettles(before, key, minimum, position, destination);
    }
  }

  lemma OffsetIsInside<T>(records: seq<T>, key: T -> U64, minimum: U64, i: nat)
    requires InDenseRange(Ids(records, key), minimum) && i < |records|
    ensures minimum <= key(records[i]) < minimum + |records|
    ensures key(records[i]) == minimum + i ==> i !in Unsettled(Ids(records, key), minimum)
  {
    assert Ids(records, key)[i] == key(records[i]);
  }

  /** Each swap settles the destination and disturbs nothing that was settled. */
  lemma SwapSettles<T>(records: seq<T>, key: T -> U64, minimum: U64, i: nat, j: nat)
    requires i < |records| && j < |records| && InDenseRange(Ids(records, key), minimum)
    requires key(records[i]) == minimum + j && i != j && key(records[j]) != key(records[i])
    ensures InDenseRange(Ids(Swapped(records, i, j), key), minimum)
    ensures Unsettled(Ids(Swapped(records, i, j), key), minimum) < Unsettled(Ids(records, key), minimum)
  {
    var before, after := Ids(records, key), Ids(Swapped(records, i, j), key);
    assert after == before[i := before[j]][j := before[i]];
    assert j in Unsettled(before, minimum) && j !in Unsettled(after, minimum);
  }

  // ---------- Arbitrary ids ----------

  ghost predicate IsDecorated<T>(keyed: seq<Keyed>, records: seq<T>, key: T -> U64) {
    |keyed| == |records| && forall i :: 0 <= i < |keyed| ==> keyed[i] == (key(records[i]), i)
  }

  /** Sorted decorated keys still name every original position exactly once, each with its own id. */
  ghost predicate NamesPositions<T>(sorted: seq<Keyed>, records: seq<T>, key: T -> U64) {
    && |sorted| == |records|
    && (forall d :: 0 <= d < |sorted| ==> sorted[d].1 < |records| && sorted[d].0 == key(records[sorted[d].1]))
    && (forall d, e :: 0 <= d < e < |sorted| ==> sorted[d].1 != sorted[e].1)
    && (forall o :: 0 <= o < |records| ==> Named(sorted, o))
  }

  ghost predicate Named(sorted: seq<Keyed>, o: nat) {
    exists d :: 0 <= d < |sorted| && sorted[d].1 == o
  }

  lemma SortedKeysNamePositions<T>(sorted: seq<Keyed>, decorated: seq<Keyed>, records: seq<T>, key: T -> U64)
    requires IsDecorated(decorated, records, key) && multiset(sorted) == multiset(decorated)
    ensures NamesPositions(sorted, records, key)
  {
    assert |sorted| == |multiset(sorted)| == |decorated|;
    forall d | 0 <= d < |sorted| ensures sorted[d].1 < |records| && sorted[d].0 == key(records[sorted[d].1]) {
      assert sorted[d] in multiset(decorated);
    }
    forall d, e | 0 <= d < e < |sorted| ensures sorted[d].1 != sorted[e].1 {
      if sorted[d].1 == sorted[e].1 {
        TwiceInMultiset(sorted, d, e);
        OnceInMultiset(decorated, sorted[d].1);
      }
    }
    forall o | 0 <= o < |records| ensures Named(sorted, o) {
      assert decorated[o] in multiset(sorted);
    }
  }

  lemma TwiceInMultiset(s: seq<Keyed>, d: nat, e: nat)
    requires d < e < |s| && s[d] == s[e]
    ensures multiset(s)[s[d]] >= 2
  {
    assert s == s[..e] + s[e..] && s[e..] == [s[e]] + s[e + 1..];
    assert s[d] in s[..e];
  }

  lemma OnceInMultiset(s: seq<Keyed>, o: nat)
    requires o < |s| && forall i :: 0 <= i < |s| ==> s[i].1 == i
    ensures multiset(s)[s[o]] == 1
  {
    assert s == s[..o] + [s[o]] + s[o + 1..];
    assert s[o] !in s[..o] && s[o] !in s[o + 1..];
  }

  /** Every record has a different target, and targets are ordered like the sorted ids. */
  ghost predicate Targeted<T>(records: seq<T>, targets: seq<U64>, sorted: seq<Keyed>, key: T -> U64) {
    && |records| == |targets| == |sorted|
    && (forall i :: 0 <= i < |records| ==> targets[i] < |records| && key(records[i]) == sorted[targets[i]].0)
    && (forall i, j :: 0 <= i < j < |records| ==> targets[i] != targets[j])
  }

  function Targets(keyed: seq<Keyed>): (t: seq<U64>)
    ensures |t| == |keyed| && forall i :: 0 <= i < |t| ==> t[i] == keyed[i].0
  {
    seq(|keyed|, i requires 0 <= i < |keyed| => keyed[i].0)
  }

  /** For each original position, the place at which the sorted keys name it. */
  ghost function Places<T>(sorted: seq<Keyed>, records: seq<T>, key: T -> U64): (places: seq<nat>)
    requires NamesPositions(sorted, records, key)
    ensures |places| == |records|
    ensures forall o :: 0 <= o < |records| ==> places[o] < |sorted| && sorted[places[o]].1 == o
  {
    seq(|records|, o requires 0 <= o < |records| && Named(sorted, o) =>
      var d :| 0 <= d < |sorted| && sorted[d].1 == o; d)
  }

  lemma PlacesInvert<T>(sorted: seq<Keyed>, records: seq<T>, key: T -> U64)
    requires NamesPositions(sorted, records, key)
    ensures forall d :: 0 <= d < |sorted| ==> sorted[d].1 < |records| && Places(sorted, records, key)[sorted[d].1] == d
  {
  }

  /** Turns the sorted order into the target position of each original one, reusing the key slots. */
  method InvertPermutation<T>(keyed: array<Keyed>, ghost records: seq<T>, ghost key: T -> U64)
    requires NamesPositions(keyed[..], records, key) && keyed.Length <= U64_MAX
    modifies keyed
    ensures Targeted(records, Targets(keyed[..]), old(keyed[..]), key)
  {
    ghost var sorted := keyed[..];
    ghost var places := Places(sorted, records, key);
    PlacesInvert(sorted, records, key);
    for destination := 0 to keyed.Length
      invariant Inverting(keyed[..], sorted, places, destination)
    {
      ghost var before := keyed[..];
      var original := keyed[destination].1;
      assert original == sorted[destination].1 && places[original] == destination;
      keyed[original] := (destination, keyed[original].1);
      assert keyed[..] == before[original := (destination, before[original].1)];
      InvertStep(before, sorted, places, destination);
    }
    InvertedIsTargeted(keyed[..], sorted, places, records, key);
  }

  ghost predicate Inverting(current: seq<Keyed>, sorted: seq<Keyed>, places: seq<nat>, done: nat) {
    && |current| == |sorted| == |places|
    && (forall o :: 0 <= o < |current| ==> current[o].1 == sorted[o].1)
    && (forall o :: 0 <= o < |current| && places[o] < done ==> current[o].0 == places[o])
  }

  lemma InvertStep(current: seq<Keyed>, sorted: seq<Keyed>, places: seq<nat>, done: nat)
    requires Inverting(current, sorted, places, done) && done < |sorted| <= U64_MAX
    requires sorted[done].1 < |sorted| && places[sorted[done].1] == done
    requires forall o :: 0 <= o < |places| ==> places[o] < |sorted| && sorted[places[o]].1 == o
    ensures var o := sorted[done].1;
            Inverting(current[o := (done, current[o].1)], sorted, places, done + 1)
  {
  }

  lemma InvertedIsTargeted<T>(current: seq<Keyed>, sorted: seq<Keyed>, places: seq<nat>, records: seq<T>, key: T -> U64)
    requires Inverting(current, sorted, places, |sorted|) && NamesPositions(sorted, records, key)
    requires forall o :: 0 <= o < |places| ==> places[o] < |sorted| && sorted[places[o]].1 == o
    ensures Targeted(records, Targets(current), sorted, key)
  {
    var targets := Targets(current);
    forall o | 0 <= o < |records|
      ensures targets[o] == places[o] < |records| && sorted[targets[o]].1 == o
              && key(records[o]) == sorted[targets[o]].0
    {
      assert sorted[places[o]].0 == key(records[sorted[places[o]].1]);
    }
  }

  ghost function Misplaced(targets: seq<U64>): set<int> {
    set i | 0 <= i < |targets| && targets[i] != i
  }

  /** Moves each record to its target; every swap puts at least one more record in place. */
  method ApplyCycles<T>(records: array<T>, keyed: array<Keyed>, key: T -> U64, ghost sorted: seq<Keyed>)
    requires Targeted(records[..], Targets(keyed[..]), sorted, key) && SortedKeys(sorted)
    requires keyed.Length == records.Length && (records as object) != keyed
    modifies records, keyed
    ensures multiset(records[..]) == multiset(old(records[..])) && Ascending(Ids(records[..], key))
  {
    for position := 0 to records.Length
      invariant multiset(records[..]) == multiset(old(records[..]))
      invariant Targeted(records[..], Targets(keyed[..]), sorted, key)
      invariant forall i :: 0 <= i < position ==> i !in Misplaced(Targets(keyed[..]))
    {
      FollowCycle(records, keyed, key, sorted, position);
    }
    PlacedIsAscending(records[..], Targets(keyed[..]), sorted, key);
  }

  lemma PlacedIsAscending<T>(records: seq<T>, targets: seq<U64>, sorted: seq<Keyed>, key: T -> U64)
    requires Targeted(records, targets, sorted, key) && SortedKeys(sorted)
    requires forall i :: 0 <= i < |records| ==> i !in Misplaced(targets)
    ensures Ascending(Ids(records, key))
  {
    forall i | 0 <= i < |records| ensures Ids(records, key)[i] == sorted[i].0 {
      assert i !in Misplaced(targets);
    }
  }

  /** Swaps the record at one position onward until the one that belongs there arrives. */
  method FollowCycle<T>(records: array<T>, keyed: array<Keyed>, key: T -> U64, ghost sorted: seq<Keyed>, position: nat)
    requires Targeted(records[..], Targets(keyed[..]), sorted, key) && position < records.Length
    requires keyed.Length == records.Length && (records as object) != keyed
    modifies records, keyed
    ensures multiset(records[..]) == multiset(old(records[..]))
    ensures Targeted(records[..], Targets(keyed[..]), sorted, key)
    ensures Misplaced(Targets(keyed[..])) <= Misplaced(Targets(old(keyed[..])))
    ensures position !in Misplaced(Targets(keyed[..]))
  {
    while keyed[position].0 != position
      invariant multiset(records[..]) == multiset(old(records[..]))
      invariant Targeted(records[..], Targets(keyed[..]), sorted, key)
      invariant Misplaced(Targets(keyed[..])) <= Misplaced(Targets(old(keyed[..])))
      decreases Misplaced(Targets(keyed[..]))
    {
      ghost var before, keys := records[..], keyed[..];
      TargetIsInside(before, keys, sorted, key, position);
      hide Targeted, Misplaced, Targets;
      var destination := keyed[position].0;
      SwapAt(records, position, destination);
      SwapAt(keyed, position, destination);
      SwapPlaces(before, keys, sorted, key, position, destination);
    }
    TargetIsInside(records[..], keyed[..], sorted, key, position);
  }

  lemma TargetIsInside<T>(records: seq<T>, keyed: seq<Keyed>, sorted: seq<Keyed>, key: T -> U64, i: nat)
    requires Targeted(records, Targets(keyed), sorted, key) && i < |records| == |keyed|
    ensures keyed[i].0 < |records|
    ensures keyed[i].0 == i ==> i !in Misplaced(Targets(keyed))
  {
    assert Targets(keyed)[i] == keyed[i].0;
  }

  /** Each swap puts one more record in its place and disturbs none that is. */
  lemma SwapPlaces<T>(records: seq<T>, keyed: seq<Keyed>, sorted: seq<Keyed>, key: T -> U64, i: nat, j: nat)
    requires Targeted(records, Targets(keyed), sorted, key) && i < |records| == |keyed| && j == keyed[i].0 && i != j
    ensures j < |records|
    ensures Targeted(Swapped(records, i, j), Targets(Swapped(keyed, i, j)), sorted, key)
    ensures Misplaced(Targets(Swapped(keyed, i, j))) < Misplaced(Targets(keyed))
  {
    var targets := Targets(keyed);
    assert targets[i] == j;
    assert Targets(Swapped(keyed, i, j)) == Swapped(targets, i, j);
    assert j in Misplaced(targets) && j !in Misplaced(Swapped(targets, i, j));
  }

  // ---------- The sort ----------

  /** Whatever the ids, duplicates included: the same records, in ascending order of their ids. */
  method SortRecordsById<T>(records: array<T>, key: T -> U64)
    requires records.Length <= U64_MAX
    modifies records
    ensures multiset(records[..]) == multiset(old(records[..]))
    ensures Ascending(Ids(records[..], key))
  {
    var sortedAlready := IsSorted(records, key);
    if sortedAlready {
      return;
    }
    var minimum, maximum := IdRange(records, key);
    var range: int := maximum - minimum;
    if range + 1 == records.Length {
      var unique := PlaceDense(records, key, minimum);
      if unique {
        return;
      }
    }
    ghost var start := records[..];
    var keyed := new Keyed[records.Length](i requires 0 <= i < records.Length reads records => (key(records[i]), i));
    ghost var decorated := keyed[..];
    SortKeys(keyed);
    ghost var sorted := keyed[..];
    SortedKeysNamePositions(sorted, decorated, start, key);
    InvertPermutation(keyed, start, key);
    ApplyCycles(records, keyed, key, sorted);
  }

  method IsSorted<T>(records: array<T>, key: T -> U64) returns (sorted: bool)
    ensures sorted ==> Ascending(Ids(records[..], key))
    ensures !sorted ==> records.Length > 0
  {
    sorted := true;
    if records.Length == 0 {
      return;
    }
    for i := 1 to records.Length
      invariant forall a, b :: 0 <= a < b < i && b < records.Length ==> key(records[a]) <= key(records[b])
    {
      if key(records[i - 1]) > key(records[i]) {
        return false;
      }
    }
  }

  method IdRange<T>(records: array<T>, key: T -> U64) returns (minimum: U64, maximum: U64)
    requires records.Length > 0
    ensures minimum <= maximum
    ensures forall i :: 0 <= i < records.Length ==> minimum <= key(records[i]) <= maximum
    ensures minimum in Ids(records[..], key) && maximum in Ids(records[..], key)
  {
    minimum, maximum := U64_MAX, 0;
    ghost var ids := Ids(records[..], key);
    for i := 0 to records.Length
      invariant forall j :: 0 <= j < i ==> minimum <= key(records[j]) <= maximum
      invariant if i == 0 then minimum == U64_MAX && maximum == 0
                else minimum <= maximum && minimum in ids && maximum in ids
    {
      assert ids[i] == key(records[i]) && ids[i] in ids;
      minimum := if key(records[i]) < minimum then key(records[i]) else minimum;
      maximum := MaxU64(maximum, key(records[i]));
    }
  }
}
