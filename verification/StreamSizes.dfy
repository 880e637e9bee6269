/**
 File sizes in the stream: a base record may be followed or preceded by extension records that carry larger
 sizes. What the stream ends with is specified as a function of the history of its inputs.
 */
module StreamSizes {
  import opened Basics
  import opened ParentGraph
  import opened MftRecords

  datatype Input = Base(entry: Entry) | Ext(extension: Extension)

  datatype FileFound = FileFound(id: U64, parent: U64, name: string, sizes: Sizes, metadata: Metadata)

  function Found(e: Entry, sizes: Sizes): FileFound {
    FileFound(e.fileId, if e.parent.Some? then e.parent.value else ROOT, e.name, sizes, e.metadata)
  }

  // ---------- Readings of a history ----------

  ghost function Entries(h: seq<Input>): seq<Entry> {
    if h == [] then []
    else
      var before := Entries(h[..|h| - 1]);
      match h[|h| - 1]
      case Base(e) => before + [e]
      case Ext(_) => before
  }

  ghost predicate Ingested(h: seq<Input>, id: U64) {
    exists e <- Entries(h) :: e.fileId == id
  }

  /** The file entries, as they arrived. */
  ghost function FileEntries(h: seq<Input>): map<U64, Entry> {
    if h == [] then map[]
    else
      var before := FileEntries(h[..|h| - 1]);
      match h[|h| - 1]
      case Base(e) => if e.isDirectory then before else before[e.fileId := e]
      case Ext(_) => before
  }

  ghost function FileIds(h: seq<Input>): seq<U64> {
    if h == [] then []
    else
      var before := FileIds(h[..|h| - 1]);
      match h[|h| - 1]
      case Base(e) => if e.isDirectory then before else before + [e.fileId]
      case Ext(_) => before
  }

  /** The largest sizes any extension record carries for a base record. */
  ghost function Extended(h: seq<Input>, id: U64): Sizes {
    if h == [] then NO_SIZES
    else
      var before := Extended(h[..|h| - 1], id);
      match h[|h| - 1]
      case Base(_) => before
      case Ext(x) => if x.baseRecord == id then MaxSizes(before, x.sizes) else before
  }

  /** Extensions of a base record that has not parsed yet are kept; those of record 5 never are. */
  ghost function Parked(h: seq<Input>, id: U64): Sizes {
    if id == ROOT then NO_SIZES else Extended(h, id)
  }

  /** The sizes the stream ends up reporting for each file. */
  ghost function Effective(h: seq<Input>): (sizes: map<U64, Sizes>)
    ensures sizes.Keys == FileEntries(h).Keys
  {
    if h == [] then map[]
    else
      var init := h[..|h| - 1];
      var before := Effective(init);
      match h[|h| - 1]
      case Base(e) => if e.isDirectory then before else before[e.fileId := MaxSizes(e.sizes, Parked(init, e.fileId))]
      case Ext(x) =>
        if x.baseRecord in before && FileEntries(init)[x.baseRecord].hasAttributeList
        then before[x.baseRecord := MaxSizes(before[x.baseRecord], x.sizes)]
        else before
  }

  datatype Column = Logical | Allocated

  function Cell(s: Sizes, c: Column): U64 {
    if c == Logical then s.size else s.allocation
  }

  ghost function Sum(ids: seq<U64>, sizes: map<U64, Sizes>, c: Column): nat
    requires forall id <- ids :: id in sizes
  {
    if ids == [] then 0 else Sum(ids[..|ids| - 1], sizes, c) + Cell(sizes[ids[|ids| - 1]], c)
  }

  ghost predicate Distinct(ids: seq<U64>) {
    forall i, j :: 0 <= i < j < |ids| ==> ids[i] != ids[j]
  }

  lemma {:induction false} SumChanges(ids: seq<U64>, sizes: map<U64, Sizes>, id: U64, to: Sizes, c: Column)
    requires Distinct(ids) && forall x <- ids :: x in sizes
    ensures Sum(ids, sizes[id := to], c) ==
            Sum(ids, sizes, c) + if id in ids then Cell(to, c) - Cell(sizes[id], c) else 0
  {
    if ids != [] {
      var n := |ids| - 1;
      SumChanges(ids[..n], sizes, id, to, c);
      assert ids == ids[..n] + [ids[n]];
      assert ids[n] !in ids[..n];
    }
  }

  lemma {:induction false} FileIdsAreFiles(h: seq<Input>)
    requires UniqueIds(Entries(h))
    ensures Distinct(FileIds(h))
    ensures forall id :: id in FileIds(h) <==> id in FileEntries(h)
    ensures forall id :: id in FileEntries(h) ==> Ingested(h, id) && FileEntries(h)[id].fileId == id
    ensures forall id :: id in FileEntries(h) ==> !FileEntries(h)[id].isDirectory
  {
    if h != [] {
      var init := h[..|h| - 1];
      assert forall i :: 0 <= i < |Entries(init)| ==> Entries(h)[i] == Entries(init)[i];
      FileIdsAreFiles(init);
      if h[|h| - 1].Base? {
        var e := h[|h| - 1].entry;
        assert Entries(h)[|Entries(h)| - 1] == e;
        assert e.fileId !in FileIds(init);
        forall id | Ingested(init, id) ensures Ingested(h, id) {
          var x :| x in Entries(init) && x.fileId == id;
          assert x in Entries(h);
        }
        assert e in Entries(h);
      }
    }
  }

  // ---------- What the stream's fields hold ----------

  ghost function LastFound(events: seq<FileFound>, id: U64): Option<FileFound> {
    if events == [] then None
    else if events[|events| - 1].id == id then Some(events[|events| - 1])
    else LastFound(events[..|events| - 1], id)
  }

  ghost predicate SummaryOk(h: seq<Input>, seen: U64, total: U64, alloc: U64) {
    && (forall id <- FileIds(h) :: id in Effective(h))
    && seen == Saturated(|FileIds(h)|)
    && total == Saturated(Sum(FileIds(h), Effective(h), Logical))
    && alloc == Saturated(Sum(FileIds(h), Effective(h), Allocated))
  }

  ghost predicate RetainedOk(h: seq<Input>, retained: map<U64, Entry>) {
    && (forall id :: id in retained <==> id in FileEntries(h) && FileEntries(h)[id].hasAttributeList)
    && (forall id <- retained :: retained[id] == FileEntries(h)[id].(sizes := Effective(h)[id]))
  }

  function PendingFor(pending: map<U64, Sizes>, id: U64): Sizes {
    if id in pending then pending[id] else NO_SIZES
  }

  ghost predicate PendingOk(h: seq<Input>, pending: map<U64, Sizes>) {
    forall id: U64 :: !Ingested(h, id) ==> PendingFor(pending, id) == Parked(h, id)
  }

  /** The last announcement of each file carries its effective sizes; nothing else is announced as a file. */
  ghost predicate FileEventsOk(h: seq<Input>, events: seq<FileFound>) {
    && (forall id <- FileEntries(h) :: LastFound(events, id) == Some(Found(FileEntries(h)[id], Effective(h)[id])))
    && (forall e <- events :: e.id in FileEntries(h))
  }

  ghost predicate FilesOk(h: seq<Input>, seen: U64, total: U64, alloc: U64, retained: map<U64, Entry>,
                          pending: map<U64, Sizes>, events: seq<FileFound>) {
    SummaryOk(h, seen, total, alloc) && RetainedOk(h, retained) && PendingOk(h, pending) && FileEventsOk(h, events)
  }

  // ---------- How each input changes them ----------

  lemma EntriesGrow(h: seq<Input>, input: Input)
    ensures (h + [input])[..|h|] == h && (h + [input])[|h|] == input
    ensures Entries(h + [input]) == Entries(h) + if input.Base? then [input.entry] else []
    ensures forall id :: Ingested(h + [input], id) <==> Ingested(h, id) || (input.Base? && input.entry.fileId == id)
  {
    assert (h + [input])[..|h|] == h;
    var h' := h + [input];
    forall id ensures Ingested(h', id) <==> Ingested(h, id) || (input.Base? && input.entry.fileId == id) {
      if input.Base? {
        assert input.entry in Entries(h');
      }
      if Ingested(h, id) {
        var e :| e in Entries(h) && e.fileId == id;
        assert e in Entries(h');
      }
    }
  }

  /** A directory changes nothing about files. */
  lemma DirectoryArrives(h: seq<Input>, e: Entry)
    requires e.isDirectory && UniqueIds(Entries(h))
    ensures var h' := h + [Base(e)];
            && FileIds(h') == FileIds(h) && FileEntries(h') == FileEntries(h) && Effective(h') == Effective(h)
            && forall id :: Parked(h', id) == Parked(h, id)
  {
    EntriesGrow(h, Base(e));
  }

  lemma SaturatedAdds(n: nat, more: U64)
    ensures SatAdd(Saturated(n), more) == Saturated(n + more)
  {
  }

  lemma FileGrows(h: seq<Input>, e: Entry)
    requires UniqueIds(Entries(h)) && !Ingested(h, e.fileId) && !e.isDirectory
    ensures var h' := h + [Base(e)];
            && e.fileId !in FileEntries(h) && e.fileId !in FileIds(h)
            && FileIds(h') == FileIds(h) + [e.fileId]
            && FileEntries(h') == FileEntries(h)[e.fileId := e]
            && Effective(h') == Effective(h)[e.fileId := MaxSizes(e.sizes, Parked(h, e.fileId))]
            && (forall id :: Parked(h', id) == Parked(h, id))
  {
    EntriesGrow(h, Base(e));
    FileIdsAreFiles(h);
  }

  /** A new file adds its own sizes to a sum. */
  lemma SumGrows(ids: seq<U64>, sizes: map<U64, Sizes>, id: U64, to: Sizes, c: Column, total: U64)
    requires Distinct(ids) && (forall x <- ids :: x in sizes) && id !in ids && total == Saturated(Sum(ids, sizes, c))
    ensures forall x <- ids + [id] :: x in sizes[id := to]
    ensures SatAdd(total, Cell(to, c)) == Saturated(Sum(ids + [id], sizes[id := to], c))
  {
    assert (ids + [id])[..|ids|] == ids;
    SumChanges(ids, sizes, id, to, c);
    SaturatedAdds(Sum(ids, sizes, c), Cell(to, c));
  }

  lemma FileArrives(h: seq<Input>, e: Entry, sizes: Sizes, seen: U64, total: U64, alloc: U64)
    requires UniqueIds(Entries(h)) && !Ingested(h, e.fileId) && !e.isDirectory
    requires sizes == MaxSizes(e.sizes, Parked(h, e.fileId)) && SummaryOk(h, seen, total, alloc)
    ensures var h' := h + [Base(e)];
            && e.fileId !in FileEntries(h)
            && FileEntries(h') == FileEntries(h)[e.fileId := e]
            && Effective(h') == Effective(h)[e.fileId := sizes]
            && (forall id :: Parked(h', id) == Parked(h, id))
            && SummaryOk(h', SatAdd(seen, 1), SatAdd(total, sizes.size), SatAdd(alloc, sizes.allocation))
  {
    hide Entries, Ingested, UniqueIds, Effective, FileEntries, FileIds, Parked, Sum, MaxSizes, SatAdd, Saturated;
    FileGrows(h, e);
    FileIdsAreFiles(h);
    SumGrows(FileIds(h), Effective(h), e.fileId, sizes, Logical, total);
    SumGrows(FileIds(h), Effective(h), e.fileId, sizes, Allocated, alloc);
    SaturatedAdds(|FileIds(h)|, 1);
  }

  lemma ExtensionRaises(h: seq<Input>, x: Extension)
    requires x.baseRecord in FileEntries(h) && FileEntries(h)[x.baseRecord].hasAttributeList
    ensures var h' := h + [Ext(x)];
            && FileIds(h') == FileIds(h) && FileEntries(h') == FileEntries(h)
            && Effective(h') == Effective(h)[x.baseRecord := MaxSizes(Effective(h)[x.baseRecord], x.sizes)]
  {
    EntriesGrow(h, Ext(x));
  }

  lemma SumRaises(h: seq<Input>, id: U64, after: Sizes, c: Column, total: U64)
    requires UniqueIds(Entries(h)) && id in FileEntries(h)
    requires (forall x <- FileIds(h) :: x in Effective(h)) && total == Saturated(Sum(FileIds(h), Effective(h), c))
    requires Cell(after, c) >= Cell(Effective(h)[id], c)
    ensures SatAdd(total, Cell(after, c) - Cell(Effective(h)[id], c)) ==
              Saturated(Sum(FileIds(h), Effective(h)[id := after], c))
  {
    hide Effective, FileEntries, FileIds, Entries;
    FileIdsAreFiles(h);
    SumChanges(FileIds(h), Effective(h), id, after, c);
    SaturatedAdds(Sum(FileIds(h), Effective(h), c), Cell(after, c) - Cell(Effective(h)[id], c));
  }

  /** An extension of a retained file raises its sizes and both totals by the difference. */
  lemma ExtensionCorrects(h: seq<Input>, x: Extension, seen: U64, total: U64, alloc: U64)
    requires UniqueIds(Entries(h)) && SummaryOk(h, seen, total, alloc)
    requires x.baseRecord in FileEntries(h) && FileEntries(h)[x.baseRecord].hasAttributeList
    ensures var h', before := h + [Ext(x)], Effective(h)[x.baseRecord];
            var after := MaxSizes(before, x.sizes);
            && FileEntries(h') == FileEntries(h) && Effective(h') == Effective(h)[x.baseRecord := after]
            && SummaryOk(h', seen, SatAdd(total, after.size - before.size),
                         SatAdd(alloc, after.allocation - before.allocation))
  {
    hide Effective, FileEntries, FileIds, Entries, Sum, Saturated, SatAdd;
    var after := MaxSizes(Effective(h)[x.baseRecord], x.sizes);
    ExtensionRaises(h, x);
    SumRaises(h, x.baseRecord, after, Logical, total);
    SumRaises(h, x.baseRecord, after, Allocated, alloc);
  }

  lemma ExtensionOtherwise(h: seq<Input>, x: Extension)
    requires UniqueIds(Entries(h))
    requires !(x.baseRecord in FileEntries(h) && FileEntries(h)[x.baseRecord].hasAttributeList)
    ensures var h' := h + [Ext(x)];
            && FileIds(h') == FileIds(h) && FileEntries(h') == FileEntries(h) && Effective(h') == Effective(h)
  {
    EntriesGrow(h, Ext(x));
  }

  lemma ExtensionParks(h: seq<Input>, x: Extension)
    ensures forall id :: Parked(h + [Ext(x)], id) ==
              if id == x.baseRecord && id != ROOT then MaxSizes(Parked(h, id), x.sizes) else Parked(h, id)
  {
    EntriesGrow(h, Ext(x));
  }

  // ---------- The steps of the stream ----------

  /** Extensions that arrived before their base record are folded into it and forgotten. */
  function WithPending(e: Entry, pending: map<U64, Sizes>): Entry {
    e.(sizes := MaxSizes(e.sizes, PendingFor(pending, e.fileId)))
  }

  lemma PendingAfterEntry(h: seq<Input>, e: Entry, pending: map<U64, Sizes>)
    requires PendingOk(h, pending) && !Ingested(h, e.fileId)
    ensures WithPending(e, pending).sizes == MaxSizes(e.sizes, Parked(h, e.fileId))
    ensures PendingOk(h + [Base(e)], pending - {e.fileId})
  {
    EntriesGrow(h, Base(e));
  }

  lemma DirectoryStep(h: seq<Input>, e: Entry, seen: U64, total: U64, alloc: U64, retained: map<U64, Entry>,
                      pending: map<U64, Sizes>, events: seq<FileFound>)
    requires UniqueIds(Entries(h)) && !Ingested(h, e.fileId) && e.isDirectory
    requires FilesOk(h, seen, total, alloc, retained, pending, events)
    ensures FilesOk(h + [Base(e)], seen, total, alloc, retained, pending - {e.fileId}, events)
  {
    DirectoryArrives(h, e);
    PendingAfterEntry(h, e, pending);
  }

  lemma FileStep(h: seq<Input>, e: Entry, seen: U64, total: U64, alloc: U64, retained: map<U64, Entry>,
                 pending: map<U64, Sizes>, events: seq<FileFound>)
    requires UniqueIds(Entries(h)) && !Ingested(h, e.fileId) && !e.isDirectory
    requires FilesOk(h, seen, total, alloc, retained, pending, events)
    ensures var entry := WithPending(e, pending);
            FilesOk(h + [Base(e)], SatAdd(seen, 1), SatAdd(total, entry.sizes.size),
                    SatAdd(alloc, entry.sizes.allocation),
                    if entry.hasAttributeList then retained[entry.fileId := entry] else retained,
                    pending - {e.fileId}, events + [Found(entry, entry.sizes)])
  {
    hide SummaryOk, FileEventsOk, PendingOk, RetainedOk, Effective, FileEntries, Entries, FileIds, Parked, UniqueIds;
    hide SatAdd, Saturated, MaxSizes, PendingFor, Ingested;
    var entry := WithPending(e, pending);
    PendingAfterEntry(h, e, pending);
    FileArrives(h, e, entry.sizes, seen, total, alloc);
    RetainedGrows(h, e, entry, retained);
    EventAppended(h, h + [Base(e)], events, Found(entry, entry.sizes));
  }

  lemma RetainedGrows(h: seq<Input>, e: Entry, entry: Entry, retained: map<U64, Entry>)
    requires RetainedOk(h, retained) && e.fileId !in FileEntries(h) && entry == e.(sizes := entry.sizes)
    requires FileEntries(h + [Base(e)]) == FileEntries(h)[e.fileId := e]
    requires Effective(h + [Base(e)]) == Effective(h)[e.fileId := entry.sizes]
    ensures RetainedOk(h + [Base(e)], if e.hasAttributeList then retained[e.fileId := entry] else retained)
  {
    hide FileEntries, Effective;
  }

  /** What an entry, a directory or a file, does to everything known about files. */
  lemma EntryStep(h: seq<Input>, e: Entry, seen: U64, total: U64, alloc: U64, retained: map<U64, Entry>,
                  pending: map<U64, Sizes>, events: seq<FileFound>)
    requires UniqueIds(Entries(h)) && !Ingested(h, e.fileId)
    requires FilesOk(h, seen, total, alloc, retained, pending, events)
    ensures var entry := WithPending(e, pending);
            if e.isDirectory then FilesOk(h + [Base(e)], seen, total, alloc, retained, pending - {e.fileId}, events)
            else
              FilesOk(h + [Base(e)], SatAdd(seen, 1), SatAdd(total, entry.sizes.size),
                      SatAdd(alloc, entry.sizes.allocation),
                      if entry.hasAttributeList then retained[entry.fileId := entry] else retained,
                      pending - {e.fileId}, events + [Found(entry, entry.sizes)])
  {
    hide FilesOk, UniqueIds, Ingested, Entries;
    if e.isDirectory {
      DirectoryStep(h, e, seen, total, alloc, retained, pending, events);
    } else {
      FileStep(h, e, seen, total, alloc, retained, pending, events);
    }
  }

  /** Appending the announcement of one file leaves the last announcement of every other file alone. */
  lemma EventAppended(h: seq<Input>, h': seq<Input>, events: seq<FileFound>, e: FileFound)
    requires FileEventsOk(h, events) && FileEntries(h).Keys + {e.id} == FileEntries(h').Keys
    requires e == Found(FileEntries(h')[e.id], Effective(h')[e.id])
    requires forall id <- FileEntries(h) :: id != e.id ==>
               FileEntries(h')[id] == FileEntries(h)[id] && Effective(h')[id] == Effective(h)[id]
    ensures FileEventsOk(h', events + [e])
  {
    assert (events + [e])[..|events|] == events;
  }

  lemma CorrectionStep(h: seq<Input>, x: Extension, seen: U64, total: U64, alloc: U64, retained: map<U64, Entry>,
                       pending: map<U64, Sizes>, events: seq<FileFound>)
    requires UniqueIds(Entries(h)) && FilesOk(h, seen, total, alloc, retained, pending, events)
    requires x.baseRecord in retained
    ensures var before := retained[x.baseRecord].sizes;
            var after := MaxSizes(before, x.sizes);
            var entry := retained[x.baseRecord].(sizes := after);
            FilesOk(h + [Ext(x)], seen, SatAdd(total, after.size - before.size),
                    SatAdd(alloc, after.allocation - before.allocation),
                    retained[x.baseRecord := entry], pending, events + [Found(entry, after)])
  {
    hide SummaryOk, FileEventsOk, PendingOk, RetainedOk, Effective, FileEntries, Entries, FileIds, UniqueIds;
    hide SatAdd, Saturated, MaxSizes;
    RetainedIs(h, x.baseRecord, retained);
    var after := MaxSizes(retained[x.baseRecord].sizes, x.sizes);
    var entry := retained[x.baseRecord].(sizes := after);
    ExtensionCorrects(h, x, seen, total, alloc);
    FileIdsAreFiles(h);
    RetainedRises(h, x, after, retained);
    CorrectionKeepsPending(h, x, pending);
    EventAppended(h, h + [Ext(x)], events, Found(entry, after));
  }

  lemma RetainedIs(h: seq<Input>, id: U64, retained: map<U64, Entry>)
    requires RetainedOk(h, retained) && id in retained
    ensures id in FileEntries(h) && FileEntries(h)[id].hasAttributeList
    ensures retained[id] == FileEntries(h)[id].(sizes := Effective(h)[id])
  {
    hide FileEntries, Effective;
  }

  lemma RetainedRises(h: seq<Input>, x: Extension, after: Sizes, retained: map<U64, Entry>)
    requires RetainedOk(h, retained) && x.baseRecord in retained && FileEntries(h + [Ext(x)]) == FileEntries(h)
    requires Effective(h + [Ext(x)]) == Effective(h)[x.baseRecord := after]
    ensures RetainedOk(h + [Ext(x)], retained[x.baseRecord := retained[x.baseRecord].(sizes := after)])
  {
    hide FileEntries, Effective;
  }

  /** An extension that is no larger than what is known already changes nothing. */
  lemma CorrectionIdle(h: seq<Input>, x: Extension, seen: U64, total: U64, alloc: U64, retained: map<U64, Entry>,
                       pending: map<U64, Sizes>, events: seq<FileFound>)
    requires UniqueIds(Entries(h)) && FilesOk(h, seen, total, alloc, retained, pending, events)
    requires x.baseRecord in retained
    requires MaxSizes(retained[x.baseRecord].sizes, x.sizes) == retained[x.baseRecord].sizes
    ensures FilesOk(h + [Ext(x)], seen, total, alloc, retained, pending, events)
  {
    hide PendingOk, RetainedOk, SummaryOk, FileEventsOk, Effective, FileEntries, FileIds, UniqueIds, Ingested, Entries;
    RetainedIs(h, x.baseRecord, retained);
    ExtensionRaises(h, x);
    FileIdsAreFiles(h);
    CorrectionKeepsPending(h, x, pending);
    assert Effective(h + [Ext(x)]) == Effective(h);
    SameFilesOk(h, h + [Ext(x)], seen, total, alloc, retained, events);
  }

  /** What is known about files depends on nothing else. */
  lemma SameFilesOk(h: seq<Input>, h': seq<Input>, seen: U64, total: U64, alloc: U64, retained: map<U64, Entry>,
                    events: seq<FileFound>)
    requires SummaryOk(h, seen, total, alloc) && RetainedOk(h, retained) && FileEventsOk(h, events)
    requires FileIds(h') == FileIds(h) && FileEntries(h') == FileEntries(h) && Effective(h') == Effective(h)
    ensures SummaryOk(h', seen, total, alloc) && RetainedOk(h', retained) && FileEventsOk(h', events)
  {
    hide Effective, FileEntries, FileIds, Sum;
  }

  lemma CorrectionKeepsPending(h: seq<Input>, x: Extension, pending: map<U64, Sizes>)
    requires PendingOk(h, pending) && Ingested(h, x.baseRecord)
    ensures PendingOk(h + [Ext(x)], pending)
  {
    EntriesGrow(h, Ext(x));
    ExtensionParks(h, x);
  }

  lemma ParkStep(h: seq<Input>, x: Extension, seen: U64, total: U64, alloc: U64, retained: map<U64, Entry>,
                 pending: map<U64, Sizes>, events: seq<FileFound>)
    requires UniqueIds(Entries(h)) && FilesOk(h, seen, total, alloc, retained, pending, events)
    requires x.baseRecord !in retained
    ensures x.baseRecord == ROOT || Ingested(h, x.baseRecord) ==>
              FilesOk(h + [Ext(x)], seen, total, alloc, retained, pending, events)
    ensures x.baseRecord != ROOT ==>
              FilesOk(h + [Ext(x)], seen, total, alloc, retained,
                      pending[x.baseRecord := MaxSizes(PendingFor(pending, x.baseRecord), x.sizes)], events)
  {
    hide PendingOk, RetainedOk, SummaryOk, FileEventsOk, Effective, FileEntries, FileIds, UniqueIds, Entries;
    hide Ingested, MaxSizes, PendingFor;
    NotRetained(h, x.baseRecord, retained);
    ExtensionOtherwise(h, x);
    SameFilesOk(h, h + [Ext(x)], seen, total, alloc, retained, events);
    ParkedStays(h, x, pending);
  }

  lemma NotRetained(h: seq<Input>, id: U64, retained: map<U64, Entry>)
    requires RetainedOk(h, retained) && id !in retained
    ensures !(id in FileEntries(h) && FileEntries(h)[id].hasAttributeList)
  {
    hide FileEntries, Effective;
  }

  lemma ParkedStays(h: seq<Input>, x: Extension, pending: map<U64, Sizes>)
    requires PendingOk(h, pending)
    ensures x.baseRecord == ROOT || Ingested(h, x.baseRecord) ==> PendingOk(h + [Ext(x)], pending)
    ensures x.baseRecord != ROOT ==>
              PendingOk(h + [Ext(x)], pending[x.baseRecord := MaxSizes(PendingFor(pending, x.baseRecord), x.sizes)])
  {
    ExtensionParks(h, x);
    EntriesGrow(h, Ext(x));
    hide Entries, Extended, Ingested, Parked, MaxSizes;
  }

  // ---------- Conservation ----------

  predicate Corrects(later: Input, earlier: Input) {
    later.Ext? && earlier.Base? && !earlier.entry.isDirectory && later.extension.baseRecord == earlier.entry.fileId
  }

  /** Every file for which an extension arrives after its base record has an attribute list. */
  ghost predicate CorrectionsListed(h: seq<Input>) {
    forall i, j :: 0 <= i < j < |h| && Corrects(h[j], h[i]) ==> h[i].entry.hasAttributeList
  }

  ghost predicate RootIsDirectory(h: seq<Input>) {
    ROOT !in FileEntries(h)
  }

  /** Each file ends with the maximum of its base sizes and of all its extensions, whatever the interleaving. */
  lemma {:induction false} SizesAreMaxima(h: seq<Input>, id: U64)
    requires UniqueIds(Entries(h)) && CorrectionsListed(h) && RootIsDirectory(h) && id in FileEntries(h)
    ensures Effective(h)[id] == MaxSizes(FileEntries(h)[id].sizes, Extended(h, id))
  {
    var n := |h| - 1;
    var init := h[..n];
    assert h == init + [h[n]];
    EntriesGrow(init, h[n]);
    assert UniqueIds(Entries(init)) by {
      assert forall i :: 0 <= i < |Entries(init)| ==> Entries(init)[i] == Entries(h)[i];
    }
    if h[n].Base? && h[n].entry.fileId == id && !h[n].entry.isDirectory {
    } else {
      assert CorrectionsListed(init) by {
        assert forall i :: 0 <= i < n ==> init[i] == h[i];
      }
      SizesAreMaxima(init, id);
      if h[n].Ext? && h[n].extension.baseRecord == id {
        FileCameFrom(init, id);
      }
    }
  }

  lemma {:induction false} FileCameFrom(h: seq<Input>, id: U64)
    requires id in FileEntries(h)
    ensures exists i ::
              0 <= i < |h| && h[i] == Base(FileEntries(h)[id]) && h[i].entry.fileId == id && !h[i].entry.isDirectory
  {
    var n := |h| - 1;
    if h[n].Base? && h[n].entry.fileId == id && !h[n].entry.isDirectory {
    } else {
      FileCameFrom(h[..n], id);
      var i :| 0 <= i < n && h[..n][i] == Base(FileEntries(h)[id]) && h[..n][i].entry.fileId == id
               && !h[..n][i].entry.isDirectory;
      assert h[i] == Base(FileEntries(h)[id]);
    }
  }

  /** Extended sizes are the componentwise least upper bound of the extensions of a base record. */
  lemma {:induction false} ExtendedIsLeastBound(h: seq<Input>, id: U64, c: Column)
    ensures forall x <- h :: x.Ext? && x.extension.baseRecord == id ==>
                               Cell(x.extension.sizes, c) <= Cell(Extended(h, id), c)
    ensures Cell(Extended(h, id), c) == 0 || exists x <- h :: x.Ext? && x.extension.baseRecord == id
                                                  && Cell(x.extension.sizes, c) == Cell(Extended(h, id), c)
  {
    if h != [] {
      var n := |h| - 1;
      ExtendedIsLeastBound(h[..n], id, c);
      assert h == h[..n] + [h[n]];
      assert h[n] in h;
    }
  }

  lemma ExtendedIgnoresOrder(h: seq<Input>, h': seq<Input>, id: U64)
    requires multiset(h) == multiset(h')
    ensures Extended(h, id) == Extended(h', id)
  {
    assert forall x :: x in h <==> x in multiset(h');
    ExtendedIsLeastBound(h, id, Logical);
    ExtendedIsLeastBound(h', id, Logical);
    ExtendedIsLeastBound(h, id, Allocated);
    ExtendedIsLeastBound(h', id, Allocated);
    assert Cell(Extended(h, id), Logical) == Cell(Extended(h', id), Logical);
    assert Cell(Extended(h, id), Allocated) == Cell(Extended(h', id), Allocated);
  }

  /** The final sizes of every file are the same for every interleaving of the same inputs. */
  lemma SizesIgnoreOrder(h: seq<Input>, h': seq<Input>)
    requires multiset(h) == multiset(h') && UniqueIds(Entries(h)) && UniqueIds(Entries(h'))
    requires CorrectionsListed(h) && CorrectionsListed(h') && RootIsDirectory(h) && RootIsDirectory(h')
    ensures Effective(h) == Effective(h')
  {
    FilesWithin(h, h');
    FilesWithin(h', h);
    forall id | id in Effective(h) ensures Effective(h)[id] == Effective(h')[id] {
      SizesAreMaxima(h, id);
      SizesAreMaxima(h', id);
      ExtendedIgnoresOrder(h, h', id);
    }
  }

  lemma FilesWithin(h: seq<Input>, h': seq<Input>)
    requires multiset(h) == multiset(h') && UniqueIds(Entries(h'))
    ensures forall id <- FileEntries(h) :: id in FileEntries(h') && FileEntries(h')[id] == FileEntries(h)[id]
  {
    forall id | id in FileEntries(h) ensures id in FileEntries(h') && FileEntries(h')[id] == FileEntries(h)[id] {
      FileCameFrom(h, id);
      var x := Base(FileEntries(h)[id]);
      assert x in multiset(h');
      BaseIsFile(h', x.entry);
    }
  }

  lemma {:induction false} BaseIsFile(h: seq<Input>, e: Entry)
    requires Base(e) in h && !e.isDirectory && UniqueIds(Entries(h))
    ensures e.fileId in FileEntries(h) && FileEntries(h)[e.fileId] == e && e in Entries(h)
  {
    var n := |h| - 1;
    var init := h[..n];
    assert h == init + [h[n]];
    EntriesGrow(init, h[n]);
    if h[n] != Base(e) {
      assert UniqueIds(Entries(init)) by {
        assert forall i :: 0 <= i < |Entries(init)| ==> Entries(init)[i] == Entries(h)[i];
      }
      BaseIsFile(init, e);
      if h[n].Base? {
        var i :| 0 <= i < |Entries(init)| && Entries(init)[i] == e;
        assert Entries(h)[i] == e && Entries(h)[|Entries(h)| - 1] == h[n].entry;
      }
    }
  }
}
