/** What the MFT parser hands to the stream: base entries, and sizes carried by extension records. */
module MftRecords {
  import opened Basics
  import opened ParentGraph

  datatype Sizes = Sizes(size: U64, allocation: U64)

  const NO_SIZES := Sizes(0, 0)

  function MaxSizes(a: Sizes, b: Sizes): Sizes {
    Sizes(MaxU64(a.size, b.size), MaxU64(a.allocation, b.allocation))
  }

  datatype Metadata = Metadata(attributes: nat, created: Option<int>, modified: Option<int>, accessed: Option<int>)

  datatype Entry = Entry(fileId: U64, parent: Option<U64>, name: string, isDirectory: bool,
                         sizes: Sizes, hasAttributeList: bool, metadata: Metadata)

  datatype Extension = Extension(baseRecord: U64, sizes: Sizes)

  /** A directory entry that takes part in path resolution; record 5 is synthesized up front instead. */
  predicate IsPlaced(e: Entry) {
    e.isDirectory && e.fileId != ROOT
  }

  ghost predicate UniqueIds(es: seq<Entry>) {
    forall i, j :: 0 <= i < j < |es| ==> es[i].fileId != es[j].fileId
  }

  /** The parent graph of a stream of entries. */
  ghost function DirsOf(es: seq<Entry>): Dirs {
    if es == [] then map[]
    else
      var e := es[|es| - 1];
      var before := DirsOf(es[..|es| - 1]);
      if IsPlaced(e) then before[e.fileId := Dir(e.parent, e.name)] else before
  }

  /** The position at which each placed directory arrived. */
  ghost function ArrivalOf(es: seq<Entry>): map<U64, nat> {
    if es == [] then map[]
    else
      var e := es[|es| - 1];
      var before := ArrivalOf(es[..|es| - 1]);
      if IsPlaced(e) then before[e.fileId := |es| - 1] else before
  }

  ghost predicate EntryAt(es: seq<Entry>, e: Entry, i: nat) {
    && e.fileId in DirsOf(es) && DirsOf(es)[e.fileId] == Dir(e.parent, e.name)
    && e.fileId in ArrivalOf(es) && ArrivalOf(es)[e.fileId] == i
  }

  ghost predicate FromEntry(es: seq<Entry>, id: U64) {
    && id in ArrivalOf(es) && ArrivalOf(es)[id] < |es|
    && IsPlaced(es[ArrivalOf(es)[id]]) && es[ArrivalOf(es)[id]].fileId == id
  }

  /** Both maps hold exactly the placed directories, each with its own entry's link and position. */
  lemma {:induction false} DirsOfEntries(es: seq<Entry>)
    requires UniqueIds(es)
    ensures DirsOf(es).Keys == ArrivalOf(es).Keys && ROOT !in DirsOf(es)
    ensures forall i :: 0 <= i < |es| && IsPlaced(es[i]) ==> EntryAt(es, es[i], i)
    ensures forall id <- DirsOf(es) :: FromEntry(es, id)
  {
    if es != [] {
      var n := |es| - 1;
      DirsOfEntries(es[..n]);
      assert es == es[..n] + [es[n]];
      EntriesArePlaced(es[..n], es[n]);
      PlacedAreEntries(es[..n], es[n]);
      hide DirsOf, ArrivalOf, UniqueIds, IsPlaced, EntryAt, FromEntry;
    }
  }

  lemma OneMoreEntry(es: seq<Entry>, e: Entry)
    ensures DirsOf(es + [e]) == if IsPlaced(e) then DirsOf(es)[e.fileId := Dir(e.parent, e.name)] else DirsOf(es)
    ensures ArrivalOf(es + [e]) == if IsPlaced(e) then ArrivalOf(es)[e.fileId := |es|] else ArrivalOf(es)
  {
    assert (es + [e])[..|es|] == es;
  }

  lemma EntriesArePlaced(es: seq<Entry>, e: Entry)
    requires UniqueIds(es + [e]) && forall i :: 0 <= i < |es| && IsPlaced(es[i]) ==> EntryAt(es, es[i], i)
    ensures forall i :: 0 <= i < |es + [e]| && IsPlaced((es + [e])[i]) ==> EntryAt(es + [e], (es + [e])[i], i)
  {
    OneMoreEntry(es, e);
    hide DirsOf, ArrivalOf, IsPlaced;
    var all := es + [e];
    forall i | 0 <= i < |all| && IsPlaced(all[i]) ensures EntryAt(all, all[i], i) {
      assert i < |es| ==> all[i] == es[i] && all[i].fileId != all[|es|].fileId;
    }
  }

  lemma PlacedAreEntries(es: seq<Entry>, e: Entry)
    requires DirsOf(es).Keys == ArrivalOf(es).Keys && ROOT !in DirsOf(es)
    requires forall id <- DirsOf(es) :: FromEntry(es, id)
    ensures DirsOf(es + [e]).Keys == ArrivalOf(es + [e]).Keys && ROOT !in DirsOf(es + [e])
    ensures forall id <- DirsOf(es + [e]) :: FromEntry(es + [e], id)
  {
    OneMoreEntry(es, e);
    assert IsPlaced(e) ==> e.fileId != ROOT;
    hide DirsOf, ArrivalOf, IsPlaced;
    var all := es + [e];
    forall id | id in DirsOf(all) ensures FromEntry(all, id) {
      assert id in DirsOf(es) ==> FromEntry(es, id);
    }
  }

  /** The parent graph does not depend on the order in which the entries arrive. */
  lemma DirsIgnoreOrder(es: seq<Entry>, es': seq<Entry>)
    requires UniqueIds(es) && UniqueIds(es') && multiset(es) == multiset(es')
    ensures DirsOf(es) == DirsOf(es')
  {
    DirsOfEntries(es);
    DirsOfEntries(es');
    DirsWithin(es, es');
    DirsWithin(es', es);
  }

  lemma DirsWithin(es: seq<Entry>, es': seq<Entry>)
    requires UniqueIds(es) && UniqueIds(es') && multiset(es) == multiset(es')
    ensures forall id <- DirsOf(es) :: id in DirsOf(es') && DirsOf(es')[id] == DirsOf(es)[id]
  {
    DirsOfEntries(es);
    DirsOfEntries(es');
    forall id | id in DirsOf(es) ensures id in DirsOf(es') && DirsOf(es')[id] == DirsOf(es)[id] {
      var e := es[ArrivalOf(es)[id]];
      assert e in multiset(es');
      var j :| 0 <= j < |es'| && es'[j] == e;
    }
  }
}
