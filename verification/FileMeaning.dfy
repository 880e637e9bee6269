/** What a stream says about its files in the end, read off the records. */
module FileMeaning {
  import opened Basics
  import opened MftRecords
  import opened StreamSizes

  predicate IsAbout(x: Input, e: Entry) {
    x.Ext? && x.extension.baseRecord == e.fileId
  }

  /** The largest amount among the base record of a file and its extension records. */
  ghost predicate IsLargest(n: U64, h: seq<Input>, e: Entry, amount: Sizes -> U64) {
    && amount(e.sizes) <= n
    && (forall x <- h :: IsAbout(x, e) ==> amount(x.extension.sizes) <= n)
    && (n == amount(e.sizes) || exists x <- h :: IsAbout(x, e) && amount(x.extension.sizes) == n)
  }

  /** What is announced about a file: its own link, name and times, and the largest sizes recorded for it. */
  ghost predicate IsAnnouncementOf(f: FileFound, h: seq<Input>, e: Entry) {
    && f.id == e.fileId && f.name == e.name && f.metadata == e.metadata
    && f.parent == (match e.parent case Some(p) => p case None => 5)
    && IsLargest(f.sizes.size, h, e, (s: Sizes) => s.size)
    && IsLargest(f.sizes.allocation, h, e, (s: Sizes) => s.allocation)
  }

  lemma EffectiveIsLargest(h: seq<Input>, e: Entry)
    requires UniqueIds(Entries(h)) && CorrectionsListed(h) && RootIsDirectory(h) && Base(e) in h && !e.isDirectory
    ensures e.fileId in FileEntries(h) && FileEntries(h)[e.fileId] == e
    ensures IsLargest(Effective(h)[e.fileId].size, h, e, (s: Sizes) => s.size)
    ensures IsLargest(Effective(h)[e.fileId].allocation, h, e, (s: Sizes) => s.allocation)
  {
    BaseIsFile(h, e);
    SizesAreMaxima(h, e.fileId);
    ExtendedIsLeastBound(h, e.fileId, Logical);
    ExtendedIsLeastBound(h, e.fileId, Allocated);
    hide FileEntries, Effective, Entries, Extended;
  }

  lemma {:induction false} LastFoundIsLast(files: seq<FileFound>, id: U64) returns (k: nat)
    requires LastFound(files, id).Some?
    ensures k < |files| && LastFound(files, id) == Some(files[k]) && files[k].id == id
    ensures forall j :: k < j < |files| ==> files[j].id != id
  {
    var n := |files| - 1;
    if files[n].id == id {
      k := n;
    } else {
      k := LastFoundIsLast(files[..n], id);
    }
  }

  /** The last announcement of a file holds its record and the largest of its sizes. */
  lemma LastAnnouncement(h: seq<Input>, files: seq<FileFound>, e: Entry) returns (k: nat)
    requires UniqueIds(Entries(h)) && CorrectionsListed(h) && RootIsDirectory(h) && FileEventsOk(h, files)
    requires Base(e) in h && !e.isDirectory
    ensures k < |files| && IsAnnouncementOf(files[k], h, e)
    ensures forall j :: k < j < |files| ==> files[j].id != e.fileId
  {
    EffectiveIsLargest(h, e);
    k := LastFoundIsLast(files, e.fileId);
    hide FileEntries, Effective, Entries, IsLargest, LastFound;
  }
}
