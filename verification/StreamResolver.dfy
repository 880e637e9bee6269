/**
 The streaming resolver itself: directory and file records arrive in MFT order, are announced as soon as
 their place is known, and whatever is left waiting is placed by the final pass.
 */
module StreamResolver {
  import opened Basics
  import opened Paths
  import SortedMaps
  import opened ParentGraph
  import opened MftRecords
  import opened ArrivalOrder
  import opened StreamState
  import opened StreamSizes
  import opened PathMeaning

  datatype Summary = Summary(filesSeen: U64, directoriesSeen: U64, totalSize: U64, totalAllocation: U64)

  class NtfsStreamState {
    const rootText: string
    var resolvedPaths: map<U64, string>
    /** Directories whose parent has not resolved, filed under that parent. */
    var orphanDirs: Buckets
    var retainedFiles: map<U64, Entry>
    var pendingExtensions: map<U64, Sizes>
    var cascade: seq<Entry>
    var filesSeen: U64
    var directoriesSeen: U64
    var totalSize: U64
    var totalAllocation: U64
    /** The events handed to the callback, one log for each kind. */
    var directoryEvents: seq<DirectoryFound>
    var fileEvents: seq<FileFound>
    ghost var history: seq<Input>

    ghost function Dirs(): Dirs
      reads this
    {
      DirsOf(Entries(history))
    }

    ghost function Arrival(): Order
      reads this
    {
      ArrivalOf(Entries(history))
    }

    /** Every file the history mentions is counted, summed, retained and announced with its effective sizes. */
    ghost predicate FilesValid()
      reads this
    {
      FilesOk(history, filesSeen, totalSize, totalAllocation, retainedFiles, pendingExtensions, fileEvents)
    }

    /** Between calls, while records still arrive. */
    ghost predicate Valid()
      reads this
    {
      && UniqueIds(Entries(history)) && cascade == []
      && Settled(Dirs(), Arrival(), {ROOT}, Below(Dirs(), {ROOT}), rootText, resolvedPaths, orphanDirs, directoryEvents)
      && directoriesSeen == Saturated(|directoryEvents|)
      && FilesValid()
    }

    constructor (root: string)
      ensures rootText == root && resolvedPaths == map[] && orphanDirs == map[] && cascade == [] && history == []
      ensures retainedFiles == map[] && pendingExtensions == map[] && directoryEvents == [] && fileEvents == []
      ensures filesSeen == directoriesSeen == totalSize == totalAllocation == 0
    {
      rootText := root;
      resolvedPaths, orphanDirs, retainedFiles, pendingExtensions, cascade := map[], map[], map[], map[], [];
      filesSeen, directoriesSeen, totalSize, totalAllocation := 0, 0, 0, 0;
      directoryEvents, fileEvents := [], [];
      history := [];
    }

    /** Announces record 5 up front, so that its children resolve in a single hop. */
    method EmitRoot()
      requires resolvedPaths == map[] && orphanDirs == map[] && cascade == [] && history == []
      requires retainedFiles == map[] && pendingExtensions == map[] && directoryEvents == [] && fileEvents == []
      requires filesSeen == directoriesSeen == totalSize == totalAllocation == 0
      modifies this
      ensures Valid() && history == []
    {
      resolvedPaths := resolvedPaths[ROOT := rootText];
      directoriesSeen := SatAdd(directoriesSeen, 1);
      directoryEvents := directoryEvents + [DirectoryFound(ROOT, None, rootText, rootText)];
      assert directoryEvents[0].id == ROOT;
    }

    method IngestEntry(e: Entry)
      requires Valid() && !Ingested(history, e.fileId)
      modifies this
      ensures Valid() && history == old(history) + [Base(e)]
    {
      hide Settled, FilesOk, UniqueIds, Below, Ingested, Entries, DirsOf, ArrivalOf, PendingFor, MaxSizes;
      ghost var h := history;
      EntriesGrow(h, Base(e));
      UniqueStays(h, e);
      EntryStep(h, e, filesSeen, totalSize, totalAllocation, retainedFiles, pendingExtensions, fileEvents);
      PlacedAlike(Entries(h), e, WithPending(e, pendingExtensions));
      var entry := FoldPending(e);
      if entry.isDirectory {
        IngestDirectory(entry);
      } else {
        EmitFile(entry);
      }
      history := history + [Base(e)];
    }

    /** Extensions that arrived before their base record are folded into it and forgotten. */
    method FoldPending(e: Entry) returns (entry: Entry)
      modifies this`pendingExtensions
      ensures entry == WithPending(e, old(pendingExtensions))
      ensures pendingExtensions == old(pendingExtensions) - {e.fileId}
    {
      entry := e;
      if pendingExtensions != map[] {
        if e.fileId in pendingExtensions {
          entry := entry.(sizes := MaxSizes(entry.sizes, pendingExtensions[e.fileId]));
        }
      }
      assert entry == WithPending(e, pendingExtensions);
      pendingExtensions := pendingExtensions - {e.fileId};
    }

    /** Only the link and the name of a directory count for paths, and nothing of a file does. */
    lemma PlacedAlike(es: seq<Entry>, e: Entry, entry: Entry)
      requires entry == e.(sizes := entry.sizes)
      ensures DirsOf(es + [entry]) == DirsOf(es + [e]) && ArrivalOf(es + [entry]) == ArrivalOf(es + [e])
      ensures !e.isDirectory ==> DirsOf(es + [e]) == DirsOf(es) && ArrivalOf(es + [e]) == ArrivalOf(es)
    {
      assert (es + [e])[..|es|] == es && (es + [entry])[..|es|] == es;
    }

    lemma UniqueStays(h: seq<Input>, e: Entry)
      requires UniqueIds(Entries(h)) && !Ingested(h, e.fileId)
      ensures UniqueIds(Entries(h) + [e]) && UniqueIds(Entries(h + [Base(e)]))
    {
      EntriesGrow(h, Base(e));
    }

    /** Places a directory whose parent has resolved, with everything that was waiting for it; files it otherwise. */
    method IngestDirectory(entry: Entry)
      requires UniqueIds(Entries(history)) && !Ingested(history, entry.fileId) && cascade == []
      requires Settled(Dirs(), Arrival(), {ROOT}, Below(Dirs(), {ROOT}), rootText, resolvedPaths, orphanDirs,
                       directoryEvents)
      requires directoriesSeen == Saturated(|directoryEvents|) && entry.isDirectory
      modifies this`resolvedPaths, this`orphanDirs, this`cascade, this`directoryEvents, this`directoriesSeen
      ensures cascade == [] && directoriesSeen == Saturated(|directoryEvents|)
      ensures var d := DirsOf(Entries(history) + [entry]);
              Settled(d, ArrivalOf(Entries(history) + [entry]), {ROOT}, Below(d, {ROOT}), rootText,
                      resolvedPaths, orphanDirs, directoryEvents)
    {
      hide Draining, Settled, Entries, DirsOf, ArrivalOf, UniqueIds, Below;
      ghost var d, arrival, position := Dirs(), Arrival(), |Entries(history)|;
      OneMoreEntry(Entries(history), entry);
      if entry.fileId == ROOT {
        return;
      }
      DirsWereIngested(history, entry.fileId);
      ghost var d', arrival' := d[entry.fileId := Dir(entry.parent, entry.name)], arrival[entry.fileId := position];
      var parent := NormalizedParent(entry.fileId, entry.parent);
      if parent in resolvedPaths {
        ArrivalStartsDrain(d, arrival, rootText, resolvedPaths, orphanDirs, directoryEvents, entry, position);
        cascade := [entry];
        DrainCascade(d', arrival', {ROOT}, Below(d', {ROOT}), Start(parent, false, [entry], [], 0));
      } else {
        ArrivalIsFiled(d, arrival, rootText, resolvedPaths, orphanDirs, directoryEvents, entry, position);
        orphanDirs := orphanDirs[parent := (if parent in orphanDirs then orphanDirs[parent] else []) + [entry]];
      }
    }

    /** Counts and announces a file; one with an attribute list is kept, so that its sizes can still be corrected. */
    method EmitFile(entry: Entry)
      modifies this`filesSeen, this`totalSize, this`totalAllocation, this`fileEvents, this`retainedFiles
      ensures filesSeen == SatAdd(old(filesSeen), 1)
      ensures totalSize == SatAdd(old(totalSize), entry.sizes.size)
      ensures totalAllocation == SatAdd(old(totalAllocation), entry.sizes.allocation)
      ensures fileEvents == old(fileEvents) + [Found(entry, entry.sizes)]
      ensures retainedFiles == if entry.hasAttributeList then old(retainedFiles)[entry.fileId := entry]
                               else old(retainedFiles)
    {
      filesSeen := SatAdd(filesSeen, 1);
      totalSize := SatAdd(totalSize, entry.sizes.size);
      totalAllocation := SatAdd(totalAllocation, entry.sizes.allocation);
      fileEvents := fileEvents + [Found(entry, entry.sizes)];
      if entry.hasAttributeList {
        retainedFiles := retainedFiles[entry.fileId := entry];
      }
    }

    /**
     Corrects a retained file and announces it again, unless its sizes stay the same; keeps the sizes for a base
     record that has not parsed yet; drops those of a resolved directory.
     */
    method IngestExtension(x: Extension)
      requires Valid()
      modifies this
      ensures Valid() && history == old(history) + [Ext(x)]
    {
      hide Settled, FilesOk, UniqueIds, Below, Ingested, Entries, DirsOf, ArrivalOf;
      ghost var h := history;
      EntriesGrow(h, Ext(x));
      SettledFacts(Dirs(), Arrival(), {ROOT}, Below(Dirs(), {ROOT}), rootText, resolvedPaths, orphanDirs,
                   directoryEvents);
      ResolvedWereIngested(h);
      if x.baseRecord in retainedFiles {
        CorrectionStep(h, x, filesSeen, totalSize, totalAllocation, retainedFiles, pendingExtensions, fileEvents);
        if MaxSizes(retainedFiles[x.baseRecord].sizes, x.sizes) == retainedFiles[x.baseRecord].sizes {
          CorrectionIdle(h, x, filesSeen, totalSize, totalAllocation, retainedFiles, pendingExtensions, fileEvents);
        }
        CorrectFile(x);
      } else {
        ParkStep(h, x, filesSeen, totalSize, totalAllocation, retainedFiles, pendingExtensions, fileEvents);
        if x.baseRecord !in resolvedPaths {
          pendingExtensions := pendingExtensions[x.baseRecord := MaxSizes(PendingFor(pendingExtensions, x.baseRecord),
                                                                          x.sizes)];
        }
      }
      history := history + [Ext(x)];
      assert Entries(history) == Entries(h);
    }

    method CorrectFile(x: Extension)
      requires x.baseRecord in retainedFiles
      modifies this`totalSize, this`totalAllocation, this`retainedFiles, this`fileEvents
      ensures var before := old(retainedFiles)[x.baseRecord];
              var entry := before.(sizes := MaxSizes(before.sizes, x.sizes));
              if entry == before then unchanged(this)
              else
                && totalSize == SatAdd(old(totalSize), entry.sizes.size - before.sizes.size)
                && totalAllocation == SatAdd(old(totalAllocation), entry.sizes.allocation - before.sizes.allocation)
                && retainedFiles == old(retainedFiles)[x.baseRecord := entry]
                && fileEvents == old(fileEvents) + [Found(entry, entry.sizes)]
    {
      var entry := retainedFiles[x.baseRecord];
      var sizes := MaxSizes(entry.sizes, x.sizes);
      if sizes == entry.sizes {
        return;
      }
      totalSize := SatAdd(totalSize, sizes.size - entry.sizes.size);
      totalAllocation := SatAdd(totalAllocation, sizes.allocation - entry.sizes.allocation);
      entry := entry.(sizes := sizes);
      retainedFiles := retainedFiles[x.baseRecord := entry];
      fileEvents := fileEvents + [Found(entry, sizes)];
    }

    lemma DirsWereIngested(h: seq<Input>, id: U64)
      requires UniqueIds(Entries(h)) && !Ingested(h, id)
      ensures id !in DirsOf(Entries(h)) && DirsOf(Entries(h)).Keys == ArrivalOf(Entries(h)).Keys
      ensures forall x <- DirsOf(Entries(h)) :: ArrivalOf(Entries(h))[x] < |Entries(h)|
    {
      hide Entries, DirsOf, ArrivalOf, UniqueIds, EntryAt;
      DirsOfEntries(Entries(h));
    }

    lemma ResolvedWereIngested(h: seq<Input>)
      requires UniqueIds(Entries(h))
      requires forall id <- resolvedPaths :: id == ROOT || id in DirsOf(Entries(h))
      ensures forall id <- resolvedPaths :: id == ROOT || Ingested(h, id)
    {
      DirsOfEntries(Entries(h));
    }

    /**
     Announces every directory on the worklist, then those that were waiting for one of them, transitively.
     An entry whose parent is not resolved when it is popped falls back to the root path.
     */
    method DrainCascade(ghost d: Dirs, ghost arrival: Order, ghost stops: set<U64>, ghost tops: set<U64>,
                        ghost s: Start)
      requires Draining(d, arrival, stops, tops, rootText, s, resolvedPaths, orphanDirs, cascade, |cascade|,
                        directoryEvents)
      requires directoriesSeen == Saturated(|directoryEvents|)
      modifies this`resolvedPaths, this`orphanDirs, this`cascade, this`directoryEvents, this`directoriesSeen
      ensures cascade == [] && directoriesSeen == Saturated(|directoryEvents|)
      ensures Settled(d, arrival, stops, tops, rootText, resolvedPaths, orphanDirs, directoryEvents)
      ensures old(directoryEvents) <= directoryEvents
    {
      hide Draining, Settled;
      ghost var left: nat := |cascade|;
      while cascade != []
        invariant left <= |cascade|
        invariant Draining(d, arrival, stops, tops, rootText, s, resolvedPaths, orphanDirs, cascade, left,
                           directoryEvents)
        invariant directoriesSeen == Saturated(|directoryEvents|)
        invariant old(directoryEvents) <= directoryEvents
        decreases d.Keys - resolvedPaths.Keys
      {
        DrainStep(d, arrival, stops, tops, rootText, s, resolvedPaths, orphanDirs, cascade, left, directoryEvents);
        ghost var id := cascade[|cascade| - 1].fileId;
        assert id in d.Keys - resolvedPaths.Keys;
        left := LeftAfter(left, |cascade|);
        AnnounceNext();
      }
      DrainEnds(d, arrival, stops, tops, rootText, s, resolvedPaths, orphanDirs, directoryEvents);
    }

    /** Takes the last entry of the worklist, announces it, and puts those behind it that were waiting for it. */
    method AnnounceNext()
      requires cascade != []
      modifies this`resolvedPaths, this`orphanDirs, this`cascade, this`directoryEvents, this`directoriesSeen
      ensures cascade == Popped(old(orphanDirs), old(cascade))
      ensures var e := old(cascade)[|old(cascade)| - 1];
              var path := AnnouncedPath(rootText, old(resolvedPaths), e);
              && resolvedPaths == old(resolvedPaths)[e.fileId := path] && orphanDirs == old(orphanDirs) - {e.fileId}
              && directoryEvents == old(directoryEvents) + [DirectoryFound(e.fileId, e.parent, e.name, path)]
      ensures directoriesSeen == SatAdd(old(directoriesSeen), 1)
    {
      var entry := cascade[|cascade| - 1];
      cascade := cascade[..|cascade| - 1];
      var parent := NormalizedParent(entry.fileId, entry.parent);
      var fullPath := JoinMftPath(if parent in resolvedPaths then resolvedPaths[parent] else rootText, entry.name);
      directoriesSeen := SatAdd(directoriesSeen, 1);
      directoryEvents := directoryEvents + [DirectoryFound(entry.fileId, entry.parent, entry.name, fullPath)];
      resolvedPaths := resolvedPaths[entry.fileId := fullPath];
      if entry.fileId in orphanDirs {
        cascade := cascade + orphanDirs[entry.fileId];
      }
      orphanDirs := orphanDirs - {entry.fileId};
    }

    method Feed(inputs: seq<Input>)
      requires Valid() && history == [] && UniqueIds(Entries(inputs))
      modifies this
      ensures Valid() && history == inputs
    {
      hide UniqueIds, Settled, FilesOk;
      for i := 0 to |inputs|
        invariant Valid() && history == inputs[..i]
      {
        assert inputs[..i + 1] == inputs[..i] + [inputs[i]];
        NextIsNew(inputs, i);
        match inputs[i]
        case Base(e) => IngestEntry(e);
        case Ext(x) => IngestExtension(x);
      }
      assert inputs[..|inputs|] == inputs;
    }

    /**
     Places the directories whose parent never resolved. Buckets whose key waits itself are left for their
     parent's cascade; when every key waits, the least one is forced.
     */
    method Finish()
      requires Valid()
      modifies this`resolvedPaths, this`orphanDirs, this`cascade, this`directoryEvents, this`directoriesSeen
      ensures orphanDirs == map[] && cascade == []
      ensures resolvedPaths == StreamPaths(Entries(history), rootText)
      ensures EventsOk(Dirs(), Detached(Dirs(), Arrival()), rootText, resolvedPaths, directoryEvents)
      ensures old(directoryEvents) <= directoryEvents
      ensures directoriesSeen == Saturated(|directoryEvents|)
    {
      hide Settled, Detached, Waiting, Keys, FinalStops, Stuck, FinalPaths;
      hide DirsOf, ArrivalOf, Entries, FilesOk, UniqueIds;
      ghost var d, arrival := Dirs(), Arrival();
      SettledFacts(d, arrival, {ROOT}, Below(d, {ROOT}), rootText, resolvedPaths, orphanDirs, directoryEvents);
      ghost var tops := Detached(d, arrival);
      ghost var round := {ROOT};
      EnterFinalPass(d, arrival, rootText, resolvedPaths, orphanDirs, directoryEvents);
      while orphanDirs != map[]
        invariant cascade == []
                  && Settled(d, arrival, round, tops, rootText, resolvedPaths, orphanDirs, directoryEvents)
        invariant ROOT in round && FinalStops(d, round) == AllStops(d)
        invariant directoriesSeen == Saturated(|directoryEvents|) && old(directoryEvents) <= directoryEvents
        decreases |Waiting(d, round)|
      {
        var stuck := StuckKeys(d, arrival, round, tops);
        RoundGoesOn(d, round);
        ForceStuck(stuck, d, arrival, round);
        round := round + stuck;
      }
      SettledEvents(d, arrival, round, tops, rootText, resolvedPaths, orphanDirs, directoryEvents);
      NothingWaits(d, arrival, rootText, round, resolvedPaths, orphanDirs, directoryEvents);
    }

    /** The bucket keys that no bucket holds; when every key waits itself, the least one. */
    method StuckKeys(ghost d: Dirs, ghost arrival: Order, ghost stops: set<U64>, ghost tops: set<U64>)
      returns (stuck: set<U64>)
      requires Settled(d, arrival, stops, tops, rootText, resolvedPaths, orphanDirs, directoryEvents)
      requires orphanDirs != map[]
      ensures Waiting(d, stops) != {} && stuck == Stuck(d, stops)
    {
      hide Settled, Waiting, Keys;
      SettledFacts(d, arrival, stops, tops, rootText, resolvedPaths, orphanDirs, directoryEvents);
      var waiting := set key, i | key in orphanDirs && 0 <= i < |orphanDirs[key]| :: orphanDirs[key][i].fileId;
      assert waiting == Waiting(d, stops);
      stuck := set key | key in orphanDirs && key !in waiting;
      assert stuck == Keys(d, stops) - Waiting(d, stops);
      if stuck == {} {
        stuck := {SortedMaps.Least(orphanDirs.Keys)};
      }
    }

    /** One round of the final pass: forces the buckets of the stuck keys in ascending order. */
    method ForceStuck(keys: set<U64>, ghost d: Dirs, ghost arrival: Order, ghost round: set<U64>)
      requires d.Keys <= arrival.Keys && cascade == []
      requires Settled(d, arrival, round, Detached(d, arrival), rootText, resolvedPaths, orphanDirs, directoryEvents)
      requires ROOT in round && Waiting(d, round) != {} && keys == Stuck(d, round)
               && FinalStops(d, round) == AllStops(d)
      requires directoriesSeen == Saturated(|directoryEvents|)
      modifies this`resolvedPaths, this`orphanDirs, this`cascade, this`directoryEvents, this`directoriesSeen
      ensures cascade == []
      ensures Settled(d, arrival, round + keys, Detached(d, arrival), rootText, resolvedPaths, orphanDirs,
                      directoryEvents)
      ensures directoriesSeen == Saturated(|directoryEvents|) && old(directoryEvents) <= directoryEvents
    {
      hide Settled, Reached, Waiting, Keys, FinalStops, Detached;
      ghost var done: set<U64> := {};
      var stuck := keys;
      assert round + done == round;
      while stuck != {}
        invariant cascade == [] && done + stuck == keys && done !! stuck
        invariant Settled(d, arrival, round + done, Detached(d, arrival), rootText, resolvedPaths, orphanDirs,
                          directoryEvents)
        invariant directoriesSeen == Saturated(|directoryEvents|) && old(directoryEvents) <= directoryEvents
        decreases stuck
      {
        var parent := SortedMaps.Least(stuck);
        RoundStays(d, round, done, parent);
        ForceKey(parent, d, arrival, round + done);
        assert round + done + {parent} == round + (done + {parent});
        done, stuck := done + {parent}, stuck - {parent};
      }
      assert done == keys;
    }

    method ForceKey(parent: U64, ghost d: Dirs, ghost arrival: Order, ghost stops: set<U64>)
      requires d.Keys <= arrival.Keys && cascade == []
      requires Settled(d, arrival, stops, Detached(d, arrival), rootText, resolvedPaths, orphanDirs, directoryEvents)
      requires parent in AllStops(d) && parent in Keys(d, stops)
      requires forall x :: x in AllStops(d) && x !in stops + {parent} ==> !Reached(d, stops + {parent}, x)
      requires directoriesSeen == Saturated(|directoryEvents|)
      modifies this`resolvedPaths, this`orphanDirs, this`cascade, this`directoryEvents, this`directoriesSeen
      ensures cascade == []
      ensures Settled(d, arrival, stops + {parent}, Detached(d, arrival), rootText, resolvedPaths, orphanDirs,
                      directoryEvents)
      ensures directoriesSeen == Saturated(|directoryEvents|) && old(directoryEvents) <= directoryEvents
    {
      hide Draining, Settled;
      hide *;
      ResolvedAreReached(d, arrival, stops, Detached(d, arrival), rootText, resolvedPaths, orphanDirs, directoryEvents);
      if parent in orphanDirs {
        ghost var s := ForceStartsDrain(d, arrival, stops, rootText, resolvedPaths, orphanDirs, directoryEvents,
                                        parent);
        cascade := orphanDirs[parent];
        orphanDirs := orphanDirs - {parent};
        DrainCascade(d, arrival, stops + {parent}, Detached(d, arrival), s);
      }
    }
  }

  /** An announced directory is record 5 under the root path, or a directory record with its own link and name. */
  ghost predicate Announces(es: seq<Entry>, root: string, found: DirectoryFound) {
    if found.id == 5 then found.parent == None && found.name == root && found.fullPath == root
    else exists e <- es :: e.isDirectory && found.id == e.fileId && found.parent == e.parent && found.name == e.name
  }

  lemma EventsAnnounce(es: seq<Entry>, tops: set<U64>, root: string, resolved: map<U64, string>,
                       events: seq<DirectoryFound>)
    requires UniqueIds(es) && EventsOk(DirsOf(es), tops, root, resolved, events)
    requires ROOT in resolved && resolved[ROOT] == root
    ensures forall found <- events :: Announces(es, root, found)
  {
    DirsOfEntries(es);
    hide DirsOf, ArrivalOf, UniqueIds;
    forall found | found in events ensures Announces(es, root, found) {
      var i :| 0 <= i < |events| && events[i] == found;
      assert EventOk(DirsOf(es), root, resolved, events[i]);
      if found.id != ROOT {
        assert FromEntry(es, found.id);
        var e := es[ArrivalOf(es)[found.id]];
        assert EntryAt(es, e, ArrivalOf(es)[found.id]);
        assert e in es;
      }
    }
  }

  /**
   A whole scan. The result is a function of the inputs: the final path of every directory, each directory
   announced exactly once, and each file counted once with the sizes that were last announced for it.
   */
  method StreamEntries(root: string, inputs: seq<Input>)
    returns (paths: map<U64, string>, directories: seq<DirectoryFound>, files: seq<FileFound>, summary: Summary)
    requires UniqueIds(Entries(inputs))
    ensures paths == StreamPaths(Entries(inputs), root)
    ensures |directories| == |paths|
            && forall i, j :: 0 <= i < j < |directories| ==> directories[i].id != directories[j].id
    ensures forall e <- directories :: e.id in paths && e.fullPath == paths[e.id]
    ensures forall e <- directories :: Announces(Entries(inputs), root, e)
    ensures FileEventsOk(inputs, files)
    ensures SummaryOk(inputs, summary.filesSeen, summary.totalSize, summary.totalAllocation)
    ensures summary.directoriesSeen == Saturated(|paths|)
  {
    hide Settled, SummaryOk, RetainedOk, PendingOk, FileEventsOk, UniqueIds, FollowsParent, StreamPaths, Sum;
    var state := new NtfsStreamState(root);
    state.EmitRoot();
    state.Feed(inputs);
    state.Finish();
    paths, directories, files := state.resolvedPaths, state.directoryEvents, state.fileEvents;
    summary := Summary(state.filesSeen, state.directoriesSeen, state.totalSize, state.totalAllocation);
    DirsOfEntries(Entries(inputs));
    OnlyDirectoriesHavePaths(Entries(inputs), root, ROOT);
    EventsCountPaths(state.Dirs(), Detached(state.Dirs(), state.Arrival()), root, paths, directories);
    EventsAnnounce(Entries(inputs), Detached(state.Dirs(), state.Arrival()), root, paths, directories);
  }

  lemma {:induction false} EntriesOfPrefix(inputs: seq<Input>, i: nat)
    requires i <= |inputs|
    ensures Entries(inputs[..i]) <= Entries(inputs)
    decreases |inputs| - i
  {
    if i < |inputs| {
      EntriesOfPrefix(inputs, i + 1);
      assert inputs[..i + 1][..i] == inputs[..i];
    } else {
      assert inputs[..i] == inputs;
    }
  }

  lemma NextIsNew(inputs: seq<Input>, i: nat)
    requires UniqueIds(Entries(inputs)) && i < |inputs|
    ensures inputs[i].Base? ==> !Ingested(inputs[..i], inputs[i].entry.fileId)
  {
    hide Entries;
    EntriesOfPrefix(inputs, i + 1);
    assert inputs[..i + 1] == inputs[..i] + [inputs[i]];
    EntriesGrow(inputs[..i], inputs[i]);
    if inputs[i].Base? {
      var before, all := Entries(inputs[..i]), Entries(inputs);
      assert all[|before|] == inputs[i].entry;
      forall e | e in before ensures e.fileId != inputs[i].entry.fileId {
        var k :| 0 <= k < |before| && before[k] == e;
        assert all[k] == e;
      }
    }
  }
}
