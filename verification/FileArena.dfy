/**
 The files of a transaction: an arena of records and a lookup from id to position. The lookup starts as a table
 indexed by id and turns into a map when an id lies too far out; removal swaps the last record into the hole.
 */
module FileArena {
  import opened Basics
  import opened Records

  type File = FileRecord<string>

  const U32_MAX := 0xFFFF_FFFF

  // ---------- Positions ----------

  /** A slot holds 0 for no position, otherwise the position plus one; a vector's length fits in 64 bits. */
  type Slots = s: seq<U32> | |s| <= U64_MAX

  datatype FilePositions = Dense(slots: Slots, hint: nat) | Sparse(positions: map<U64, nat>)

  function Decoded(encoded: U32): Option<nat> {
    if encoded == 0 then None else Some(encoded - 1)
  }

  function Get(p: FilePositions, id: U64): Option<nat> {
    match p
    case Dense(slots, _) => if id < |slots| then Decoded(slots[id]) else None
    case Sparse(positions) => if id in positions then Some(positions[id]) else None
  }

  /** The lookup answers as before, except that `id` is at `position`. */
  ghost predicate Placed(before: FilePositions, after: FilePositions, id: U64, position: nat) {
    forall x: U64 :: Get(after, x) == if x == id then Some(position) else Get(before, x)
  }

  /** How much the allocator gave a vector: any number that is large enough. */
  method CapacityOf(slots: Slots) returns (capacity: nat)
    ensures |slots| <= capacity <= U64_MAX
  {
    capacity :| |slots| <= capacity <= U64_MAX;
  }

  /** One entry is set; the table becomes a map only for an id past every limit or a position past 32 bits. */
  method InsertPosition(p: FilePositions, id: U64, position: nat, live: nat) returns (q: FilePositions)
    ensures Placed(p, q, id, position)
    ensures p.Dense? && id < |p.slots| && position < U32_MAX ==> q == Dense(p.slots[id := position + 1], p.hint)
    ensures p.Dense? && (id <= p.hint || id < 4 * live + 16_384) && id < U64_MAX && position < U32_MAX ==> q.Dense?
    ensures p.Sparse? ==> q.Sparse?
  {
    match p {
      case Dense(slots, hint) =>
        var capacity := CapacityOf(slots);
        var limit := Max(Max(capacity, Saturated(hint + 1)), Saturated(Saturated(live * 4) + 16_384));
        if position + 1 <= U32_MAX && id < limit {
          var grown := if id >= |slots| then slots + seq(id + 1 - |slots|, _ => 0) else slots;
          return Dense(grown[id := position + 1], hint);
        }
        var positions := Promote(slots);
        assert forall x: U64 :: Get(Sparse(positions), x) == Get(p, x);
        q := Sparse(positions[id := position]);
      case Sparse(positions) =>
        q := Sparse(positions[id := position]);
    }
  }

  /** The replacement map keeps every entry, the one for id 0 and those after holes included. */
  method Promote(slots: Slots) returns (positions: map<U64, nat>)
    ensures forall x: U64, hint :: Get(Sparse(positions), x) == Get(Dense(slots, hint), x)
  {
    positions := map[];
    var id := 0;
    while id < |slots|
      invariant 0 <= id <= |slots|
      invariant forall x: U64 :: x in positions <==> x < id && slots[x] != 0
      invariant forall x: U64 :: x in positions ==> positions[x] == slots[x] - 1
    {
      if slots[id] != 0 {
        positions := positions[id := slots[id] - 1];
      }
      id := id + 1;
    }
  }

  function WithoutPosition(p: FilePositions, id: U64): (q: FilePositions)
    ensures forall x: U64 :: Get(q, x) == if x == id then None else Get(p, x)
  {
    match p
    case Dense(slots, hint) => if id < |slots| then Dense(slots[id := 0], hint) else p
    case Sparse(positions) => Sparse(positions - {id})
  }

  // ---------- The arena and its lookup ----------

  /** Lookup and arena are inverse to each other. */
  ghost predicate Linked(p: FilePositions, records: seq<File>) {
    && (forall i :: 0 <= i < |records| ==> Get(p, records[i].id) == Some(i))
    && (forall id: U64 :: Get(p, id).Some? ==> Get(p, id).value < |records| && records[Get(p, id).value].id == id)
  }

  /** The map that an arena stands for. */
  ghost function ContentsOf(records: seq<File>): map<U64, File>
    requires UniqueIds(records)
  {
    map i | 0 <= i < |records| :: records[i].id := records[i]
  }

  lemma LinkedIsUnique(p: FilePositions, records: seq<File>)
    requires Linked(p, records)
    ensures UniqueIds(records)
  {
    forall i, j | 0 <= i < j < |records| ensures records[i].id != records[j].id {
      assert Get(p, records[i].id) == Some(i);
    }
  }

  lemma ContentsAt(p: FilePositions, records: seq<File>, id: U64)
    requires Linked(p, records) && UniqueIds(records)
    ensures id in ContentsOf(records) <==> Get(p, id).Some?
    ensures id in ContentsOf(records) ==>
              Get(p, id).value < |records| && ContentsOf(records)[id] == records[Get(p, id).value]
  {
    hide Get;
    assert Get(p, id).Some? ==> records[Get(p, id).value].id == id;
  }

  /** The contents of an arena are known once its lookup is. */
  lemma ContentsAre(p: FilePositions, records: seq<File>, m: map<U64, File>)
    requires Linked(p, records)
    requires forall id: U64 :: id in m <==> Get(p, id).Some?
    requires forall id: U64 :: id in m ==> m[id] == records[Get(p, id).value]
    ensures UniqueIds(records) && ContentsOf(records) == m
  {
    LinkedIsUnique(p, records);
    hide Get, Linked, ContentsOf;
    forall id: U64 ensures (id in m <==> id in ContentsOf(records)) && (id in m ==> m[id] == ContentsOf(records)[id]) {
      ContentsAt(p, records, id);
    }
  }

  lemma ReplaceKeeps(p: FilePositions, records: seq<File>, position: nat, record: File)
    requires Linked(p, records) && Get(p, record.id) == Some(position)
    ensures position < |records|
    ensures Linked(p, records[position := record])
    ensures UniqueIds(records) && UniqueIds(records[position := record])
    ensures ContentsOf(records[position := record]) == ContentsOf(records)[record.id := record]
  {
    hide Get, ContentsOf;
    LinkedIsUnique(p, records);
    forall id: U64 ensures (id in ContentsOf(records) <==> Get(p, id).Some?)
                           && (id in ContentsOf(records) ==> ContentsOf(records)[id] == records[Get(p, id).value])
    {
      ContentsAt(p, records, id);
    }
    ContentsAre(p, records[position := record], ContentsOf(records)[record.id := record]);
  }

  lemma AppendKeeps(p: FilePositions, q: FilePositions, records: seq<File>, record: File)
    requires Linked(p, records) && Get(p, record.id) == None && Placed(p, q, record.id, |records|)
    ensures Linked(q, records + [record])
    ensures UniqueIds(records) && UniqueIds(records + [record])
    ensures ContentsOf(records + [record]) == ContentsOf(records)[record.id := record]
  {
    hide Get, ContentsOf;
    LinkedIsUnique(p, records);
    forall id: U64 ensures (id in ContentsOf(records) <==> Get(p, id).Some?)
                           && (id in ContentsOf(records) ==> ContentsOf(records)[id] == records[Get(p, id).value])
    {
      ContentsAt(p, records, id);
    }
    ContentsAre(q, records + [record], ContentsOf(records)[record.id := record]);
  }

  /** `Vec::swap_remove`. */
  function SwapRemove(records: seq<File>, position: nat): (rest: seq<File>)
    requires position < |records|
    ensures |rest| == |records| - 1
    ensures forall i :: 0 <= i < |rest| ==> rest[i] == if i == position then records[|records| - 1] else records[i]
  {
    records[position := records[|records| - 1]][..|records| - 1]
  }

  /** Moving the last record into the hole keeps both directions of the lookup. */
  lemma SwapRemoveKeeps(p: FilePositions, q: FilePositions, records: seq<File>, id: U64, position: nat)
    requires Linked(p, records) && Get(p, id) == Some(position) && position < |records|
    requires var rest := SwapRemove(records, position);
             if position < |rest| then Placed(WithoutPosition(p, id), q, rest[position].id, position)
             else q == WithoutPosition(p, id)
    ensures Linked(q, SwapRemove(records, position))
    ensures UniqueIds(records) && UniqueIds(SwapRemove(records, position))
    ensures ContentsOf(SwapRemove(records, position)) == ContentsOf(records) - {id}
  {
    var rest := SwapRemove(records, position);
    LinkedIsUnique(p, records);
    SwapRemoveLinks(p, q, records, id, position);
    hide Get, ContentsOf, SwapRemove, WithoutPosition, Placed, Linked, UniqueIds;
    forall x: U64
      ensures x in ContentsOf(records) - {id} <==> Get(q, x).Some?
      ensures x in ContentsOf(records) - {id} ==>
                Get(q, x).value < |rest| && (ContentsOf(records) - {id})[x] == rest[Get(q, x).value]
    {
      SwapRemovedAt(p, q, records, id, position, x);
    }
    ContentsAre(q, rest, ContentsOf(records) - {id});
  }

  lemma SwapRemovedAt(p: FilePositions, q: FilePositions, records: seq<File>, id: U64, position: nat, x: U64)
    requires Linked(p, records) && UniqueIds(records) && Get(p, id) == Some(position) && position < |records|
    requires var rest := SwapRemove(records, position);
             Linked(q, rest) && Get(q, x) == if x == id then None
                                             else if position < |rest| && x == rest[position].id then Some(position)
                                             else Get(p, x)
    ensures x in ContentsOf(records) - {id} <==> Get(q, x).Some?
    ensures x in ContentsOf(records) - {id} ==>
              Get(q, x).value < |records| - 1
              && (ContentsOf(records) - {id})[x] == SwapRemove(records, position)[Get(q, x).value]
  {
    hide Get, ContentsOf, Linked, UniqueIds, SwapRemove;
    var rest, last := SwapRemove(records, position), |records| - 1;
    ContentsAt(p, records, x);
    LinkedBack(p, records, last);
    LinkedAt(p, records, id);
    if x != id && Get(p, x).Some? {
      LinkedAt(p, records, x);
      var k := Get(p, x).value;
      if k == last {
        assert Get(q, x) == Some(position) && rest[position] == records[last];
      } else {
        assert Get(q, x) == Some(k) && rest[k] == records[k];
      }
    }
  }

  lemma LinkedBack(p: FilePositions, records: seq<File>, i: nat)
    requires Linked(p, records) && i < |records|
    ensures Get(p, records[i].id) == Some(i)
  {
  }

  lemma LinkedAt(p: FilePositions, records: seq<File>, x: U64)
    requires Linked(p, records) && Get(p, x).Some?
    ensures Get(p, x).value < |records| && records[Get(p, x).value].id == x
  {
  }

  lemma SwapRemoveLinks(p: FilePositions, q: FilePositions, records: seq<File>, id: U64, position: nat)
    requires Linked(p, records) && Get(p, id) == Some(position) && position < |records|
    requires var rest := SwapRemove(records, position);
             if position < |rest| then Placed(WithoutPosition(p, id), q, rest[position].id, position)
             else q == WithoutPosition(p, id)
    ensures Linked(q, SwapRemove(records, position))
    ensures var rest := SwapRemove(records, position);
            forall x: U64 :: Get(q, x) == if x == id then None
                                          else if position < |rest| && x == rest[position].id then Some(position)
                                          else Get(p, x)
  {
    hide Get, SwapRemove, WithoutPosition;
    var rest := SwapRemove(records, position);
    var last := |records| - 1;
    assert Get(p, records[last].id) == Some(last);
    assert records[position].id == id;
    forall x: U64
      ensures Get(q, x) == if x == id then None
                           else if position < |rest| && x == rest[position].id then Some(position) else Get(p, x)
    {
      assert Get(WithoutPosition(p, id), x) == if x == id then None else Get(p, x);
    }
    forall i | 0 <= i < |rest| ensures Get(q, rest[i].id) == Some(i) {
      assert Get(p, records[i].id) == Some(i);
    }
    forall x: U64 | Get(q, x).Some? ensures Get(q, x).value < |rest| && rest[Get(q, x).value].id == x {
      assert Get(p, x).Some? && records[Get(p, x).value].id == x;
    }
  }

  /** A record that moves already has a slot, and a smaller position always fits: no removal leaves the table. */
  lemma MovedHasSlot(p: FilePositions, records: seq<File>, id: U64, position: nat)
    requires Linked(p, records) && Get(p, id) == Some(position) && p.Dense? && position < |records| - 1
    ensures var last := records[|records| - 1].id;
            last != id && last < |p.slots| && position < U32_MAX
  {
    assert Get(p, records[|records| - 1].id) == Some(|records| - 1);
  }

  class FileRecords {
    var positions: FilePositions
    var records: seq<File>

    ghost predicate Valid()
      reads this
    {
      Linked(positions, records) && UniqueIds(records)
    }

    ghost function Contents(): map<U64, File>
      requires Valid()
      reads this
    {
      ContentsOf(records)
    }

    constructor (capacity: nat)
      ensures Valid() && Contents() == map[]
    {
      positions := Dense([], capacity);
      records := [];
    }

    method Reserve(total: nat)
      requires Valid()
      modifies this
      ensures Valid() && records == old(records) && Contents() == old(Contents())
      ensures positions == match old(positions)
                           case Dense(slots, hint) => Dense(slots, Max(hint, total))
                           case Sparse(_) => old(positions)
    {
      match positions {
        case Dense(slots, hint) =>
          if total > 0 {
            positions := Dense(slots, Max(hint, total));
          }
          assert forall id :: Get(positions, id) == Get(old(positions), id);
        case Sparse(_) =>
      }
    }

    method Insert(id: U64, record: File)
      requires Valid() && id == record.id
      modifies this
      ensures Valid() && Contents() == old(Contents())[id := record]
    {
      hide Linked;
      match Get(positions, id) {
        case Some(position) =>
          ReplaceKeeps(positions, records, position, record);
          records := records[position := record];
        case None =>
          var position := |records|;
          ghost var before, q := records, positions;
          records := records + [record];
          positions := InsertPosition(positions, id, position, |records|);
          AppendKeeps(q, positions, before, record);
      }
    }

    method Remove(id: U64)
      requires Valid()
      modifies this
      ensures Valid() && Contents() == old(Contents()) - {id}
      ensures old(positions).Dense? ==> positions.Dense?
    {
      hide Placed;
      match Get(positions, id) {
        case None =>
          assert id !in Contents();
        case Some(position) =>
          ghost var p, before := positions, records;
          positions := WithoutPosition(positions, id);
          records := SwapRemove(records, position);
          if position < |records| {
            if p.Dense? {
              MovedHasSlot(p, before, id, position);
            }
            positions := InsertPosition(positions, records[position].id, position, |records|);
          }
          SwapRemoveKeeps(p, positions, before, id, position);
      }
    }

    /** Order does not count: two arenas are equal exactly when they stand for the same map. */
    method Equals(other: FileRecords) returns (equal: bool)
      requires Valid() && other.Valid()
      ensures equal <==> Contents() == other.Contents()
    {
      hide ContentsOf, Get, Linked, UniqueIds, AllFound;
      SizeOfContents(records);
      SizeOfContents(other.records);
      if |records| != |other.records| {
        return false;
      }
      equal := FindAll(records, other.positions, other.records);
      FoundIsEqual(positions, records, other.positions, other.records);
    }
  }

  ghost predicate AllFound(records: seq<File>, p: FilePositions, others: seq<File>) {
    forall k :: 0 <= k < |records| ==> IsFound(records[k], p, others)
  }

  predicate IsFound(record: File, p: FilePositions, others: seq<File>) {
    Get(p, record.id).Some? && Get(p, record.id).value < |others| && others[Get(p, record.id).value] == record
  }

  method FindAll(records: seq<File>, p: FilePositions, others: seq<File>) returns (all: bool)
    requires Linked(p, others)
    ensures all <==> AllFound(records, p, others)
  {
    hide Get;
    for i := 0 to |records|
      invariant forall k :: 0 <= k < i ==> IsFound(records[k], p, others)
    {
      var found := Get(p, records[i].id);
      if found.None? || others[found.value] != records[i] {
        assert !IsFound(records[i], p, others);
        return false;
      }
    }
    return true;
  }

  lemma FoundIsEqual(p: FilePositions, records: seq<File>, q: FilePositions, others: seq<File>)
    requires Linked(p, records) && UniqueIds(records) && Linked(q, others) && UniqueIds(others)
    requires |records| == |others| == |ContentsOf(records)| == |ContentsOf(others)|
    ensures AllFound(records, q, others) <==> ContentsOf(records) == ContentsOf(others)
  {
    hide ContentsOf, Get, Linked, UniqueIds;
    if AllFound(records, q, others) {
      forall id | id in ContentsOf(records)
        ensures id in ContentsOf(others) && ContentsOf(others)[id] == ContentsOf(records)[id]
      {
        ContentsAt(p, records, id);
        LinkedAt(p, records, id);
        assert IsFound(records[Get(p, id).value], q, others);
        ContentsAt(q, others, id);
      }
      SameSizeMaps(ContentsOf(records), ContentsOf(others));
    }
    if ContentsOf(records) == ContentsOf(others) {
      forall k | 0 <= k < |records| ensures IsFound(records[k], q, others) {
        LinkedBack(p, records, k);
        ContentsAt(p, records, records[k].id);
        ContentsAt(q, others, records[k].id);
      }
    }
  }

  ghost function IdsOf(records: seq<File>): set<U64> {
    if records == [] then {} else IdsOf(records[..|records| - 1]) + {records[|records| - 1].id}
  }

  lemma {:induction false} IdsAre(records: seq<File>, id: U64)
    ensures id in IdsOf(records) <==> exists i :: 0 <= i < |records| && records[i].id == id
  {
    if records != [] {
      var n := |records| - 1;
      IdsAre(records[..n], id);
      assert forall i :: 0 <= i < n ==> records[..n][i] == records[i];
    }
  }

  lemma {:induction false} SizeOfIds(records: seq<File>)
    requires UniqueIds(records)
    ensures |IdsOf(records)| == |records|
  {
    if records != [] {
      var n := |records| - 1;
      SizeOfIds(records[..n]);
      IdsAre(records[..n], records[n].id);
    }
  }

  lemma SizeOfContents(records: seq<File>)
    requires UniqueIds(records)
    ensures |ContentsOf(records)| == |records|
  {
    SizeOfIds(records);
    forall id: U64 ensures id in ContentsOf(records).Keys <==> id in IdsOf(records) {
      IdsAre(records, id);
    }
    assert ContentsOf(records).Keys == IdsOf(records);
  }

  lemma SameSizeMaps(a: map<U64, File>, b: map<U64, File>)
    requires |a| == |b| && forall id <- a :: id in b && b[id] == a[id]
    ensures a == b
  {
    SubsetOfSameSize(a.Keys, b.Keys);
  }

  lemma SubsetOfSameSize(a: set<U64>, b: set<U64>)
    requires a <= b && |a| == |b|
    ensures a == b
  {
    assert |b - a| == |b| - |a|;
  }
}
