# WinBlaze, verified

WinBlaze reads the Master File Table of an NTFS volume, or walks its directories with several threads, keeps what it
found in a tree with rolled-up sizes, stores snapshots of it, and compares a new scan with a stored one. This project
models that engine in Dafny 4 and proves what it is for. Every module stands for one component; methods with loops and
classes with fields stand where the program changes things step by step, and are proved against functions whose own
properties are the lemmas beside them. The modules whose names end in Meaning, with SnapshotBytes, say what comes out of a
component in terms of its records, listings or bytes alone, without the functions that compute it.

| modules | component |
|---|---|
| ParentGraph, MftRecords, ArrivalOrder, PathMeaning, StreamState, StreamSizes, FileMeaning, StreamResolver | the streaming resolver of MFT records: parent graphs, arrival orders, sizes corrected by extension records |
| DataRuns, ValidLength, RecordFixups, RepairMeaning, BatchParser, ParseMeaning, VolumeReader, SparseRead, SparseParse, MftScan | the bytes of the MFT: run lists, sector repair, blocks, workers, volume reads, skipped clusters, and all of it together |
| RecordSort, TreeIndex, Rollups, TreeRollup, TotalsMeaning, ChildPages, Aggregation, AggregateMeaning | the tree: in-place sort, children, totals without recursion, pages of children, and the older aggregation |
| Bits, Allocation | which file identities have been paid for: bitmap and set, compaction, volumes, shards |
| DirectoryWalk, WalkLaws, WalkMeaning, WorkerProtocol, WorkerInvariants, WorkerSteps, WorkerLaws, SharedWalk, WorkerCount, WorkerProgress | the directory walk: links and cycles, what is reported, and the atomic steps of the workers |
| FileArena, SortedMaps, FileDiff, ChangeMeaning, PathRemap, StableIds, Rescan, RescanLaws | the store in memory: the arena of files and the path-matched rescan |
| Bytes, Utf8Meaning, Fields, FieldLaws, Snapshot, SnapshotBytes, SnapshotLaws, SnapshotIo, CrashSafety | the snapshot file: its format, and its replacement on disk |
| Delimited, CatalogExport, ExportMeaning, Wildcard, Paths | delimited text, the catalog export, name patterns |
| Basics, Records | machine integers, small datatypes, the records of the catalog |

## What the code does that its documentation does not say

- The paths of the streaming resolver depend on the arrival order when the final pass forces a directory on a cycle
  that has a second child: that child is placed under the root path or under the rebuilt cycle, depending on which side
  of the cycle child it arrived. `ArrivalOrder.OrderCanMatter` gives three records; `ConfluentExactlyWhenOrderFree`
  gives the exact condition.
- The streaming resolver joins paths by itself (src/WinBlaze.Scanner/src/ntfs.rs:2422-2434) and puts a backslash after
  an empty base; the rest of the program does not (src/WinBlaze.Core/src/model.rs:159-168). `Paths` has both.
- When a new state cannot be written, the state in memory is the new one all the same
  (`Rescan.IndexRepository.ApplyIncrementalTransaction`).
- After several persists that were cut off, the recovered snapshot need be neither the last one whose persist returned
  nor the one being written (`CrashSafety.NeitherReturnedNorBegun`). What always holds is that it is the one that last
  took the snapshot's name (`RunRecovers`); `ReturnedOrBegunExactly` says when the two agree.
- The pattern matchers test for equal characters before they test for `*`. They are right about a name for every
  pattern exactly when the name holds no `*` (`Wildcard.RightExactlyWithoutStars`). Windows names never do.
- Exported times come back, to the second, exactly when they lie between 1601 and the end of the year 9999
  (`CatalogExport.TimeRoundTrip`).
- The version 1 minimum of 57 bytes for a file record is larger than an empty record of 55 bytes, so that a snapshot
  full of those can be refused (`SnapshotLaws.VersionOneReadsExactlyWhen`).
- Directories that are not reachable from the root keep the totals of the files directly in them; the comment at
  src/WinBlaze.Index/src/tree.rs:250-253 says that they stay zero.
- A text of more than one mebibyte can be written into a snapshot, which then cannot be read
  (`FieldLaws.StringRoundTrip`). Persisting such a state returns, and the index opened next is empty
  (`CrashSafety.OverlongNeverLoads`).

## Model

| member | source | states |
|---|---|---|
| `ParentGraph.ClimbsUnique` | src/WinBlaze.Scanner/src/ntfs.rs:448-528 | the number of parent steps from a directory to the first place where its path starts is unique, on every parent graph |
| `ParentGraph.KeysAreUnresolved` | src/WinBlaze.Scanner/src/ntfs.rs:448-510 | the id under which directories wait is never that of a resolved directory |
| `ParentGraph.StuckProgress` | src/WinBlaze.Scanner/src/ntfs.rs:483-510 | each round of the final pass resolves at least one more directory, on every parent graph, cyclic ones included; this is why the pass ends |
| `ParentGraph.LaterStopsAreKeys` | src/WinBlaze.Scanner/src/ntfs.rs:483-510 | a directory that has resolved is never forced later |
| `ArrivalOrder.StopsApart` | src/WinBlaze.Scanner/src/ntfs.rs:483-510 | no cycle is forced at two of its directories |
| `ArrivalOrder.EveryDirectoryIsPlaced` | src/WinBlaze.Scanner/src/ntfs.rs:483-510 | every directory of every parent graph ends up with a path |
| `ArrivalOrder.RealPath` | src/WinBlaze.Scanner/src/ntfs.rs:332-510 | a directory whose parent chain reaches record 5 gets the root path joined with the names on that chain, in every arrival order |
| `ArrivalOrder.MissingParentPath` | src/WinBlaze.Scanner/src/ntfs.rs:483-528 | a directory whose parent record never arrived is placed directly under the root path |
| `PathMeaning.RootedPath` | src/WinBlaze.Scanner/src/ntfs.rs:332-528 | the text of a path, read off the records: a directory whose parent links lead to record 5, to itself, to a missing record or nowhere has the root path followed by exactly the names on the way, one backslash before each |
| `PathMeaning.EveryPathIsSpelled` | src/WinBlaze.Scanner/src/ntfs.rs:448-528 | every directory, on a cycle or not, has a path that spells a chain of directory records ending in it |
| `PathMeaning.OnlyDirectoriesHavePaths` | src/WinBlaze.Scanner/src/ntfs.rs:316-510 | nothing but the directories of the stream and record 5 has a path, and record 5 has the root path |
| `Paths.SpelledPieces` | src/WinBlaze.Scanner/src/ntfs.rs:2422-2434 | appending names after backslashes appends exactly those names to the pieces of a path |
| `Paths.JoinedPieces` | src/WinBlaze.Core/src/model.rs:158-168 | joining a stored path and a name adds exactly one piece |
| `Paths.JoinedText` | src/WinBlaze.Core/src/model.rs:158-168 | and exactly one backslash stands between them, none after an empty path |
| `ArrivalOrder.Confluence` | src/WinBlaze.Scanner/src/ntfs.rs:316-529 | two arrival orders give the same path to every directory, provided no forced key on a cycle with a name has a second child |
| `ArrivalOrder.SiblingOrderMatters` | src/WinBlaze.Scanner/src/ntfs.rs:448-510 | without that proviso the order does matter: a second child of a forced key on a cycle with a name changes its path when it arrives on the other side of the cycle child |
| `ArrivalOrder.ConfluentExactlyWhenOrderFree` | src/WinBlaze.Scanner/src/ntfs.rs:316-529 | for every set of entries: all its arrival orders give the same paths if and only if no forced key on a cycle with a name has a second child |
| `ArrivalOrder.OrderCanMatter` | src/WinBlaze.Scanner/src/ntfs.rs:483-510 | three concrete records, two of them in a cycle, that get different paths in two arrival orders |
| `StreamState.DrainStep` | src/WinBlaze.Scanner/src/ntfs.rs:448-478 | one turn of the drain: the popped directory is new, gets its parent's path joined with its name (or the root path when the parent is unresolved), and everything known about buckets, worklist, paths and events is kept |
| `StreamState.PoppedChildIsTop` | src/WinBlaze.Scanner/src/ntfs.rs:448-478 | a child popped from a forced bucket starts a path of its own exactly if the forced id is unresolved at that moment |
| `StreamState.ResolvedAreReached` | src/WinBlaze.Scanner/src/ntfs.rs:332-510 | between calls the resolved directories are exactly those whose chain reaches a resolved start, and the buckets are exactly the parents of the others |
| `StreamState.KeysNeverResolved` | src/WinBlaze.Scanner/src/ntfs.rs:332-357 | between calls no bucket key is a resolved id |
| `StreamState.ParentsFirst` | src/WinBlaze.Scanner/src/ntfs.rs:332-357 | every directory announced before the final pass follows the announcement of its parent |
| `StreamState.EventsCountPaths` | src/WinBlaze.Scanner/src/ntfs.rs:448-478 | there are as many announcements as resolved directories |
| `StreamState.AnnouncedOnce` | src/WinBlaze.Scanner/src/ntfs.rs:448-478 | announcements with different ids are of different directories, so each directory is announced exactly once |
| `StreamState.RoundStays` | src/WinBlaze.Scanner/src/ntfs.rs:483-510 | forcing one key of a round leaves the other keys of that round waiting with their buckets |
| `StreamState.NothingWaits` | src/WinBlaze.Scanner/src/ntfs.rs:483-510 | when no bucket is left the resolved paths are the final paths of the parent graph |
| `StreamSizes.SizesAreMaxima` | src/WinBlaze.Scanner/src/ntfs.rs:332-442 | the last announcement of every file carries the maximum of its base sizes and all its extension sizes, for every interleaving in which files corrected late have an attribute list |
| `StreamSizes.SizesIgnoreOrder` | src/WinBlaze.Scanner/src/ntfs.rs:332-442 | two interleavings of the same records give every file the same final sizes |
| `StreamSizes.ExtendedIsLeastBound` | src/WinBlaze.Scanner/src/ntfs.rs:396-442 | the extended sizes are the least upper bound of the extensions of a record, column by column |
| `FileMeaning.LastAnnouncement` | src/WinBlaze.Scanner/src/ntfs.rs:359-446 | the last announcement of a file, read off the records: its own link (record 5 if it has none), name and times, and the largest size and allocation among its base record and its extensions |
| `StreamSizes.EntryStep` | src/WinBlaze.Scanner/src/ntfs.rs:332-394 | a file that arrives is counted once, added to both saturating totals, announced, and kept when it may still be corrected; a directory changes nothing about files |
| `StreamSizes.CorrectionStep` | src/WinBlaze.Scanner/src/ntfs.rs:396-442 | a late extension raises both totals by exactly what it raises the sizes, and announces the file again |
| `StreamSizes.CorrectionIdle` | src/WinBlaze.Scanner/src/ntfs.rs:396-442 | an extension that raises nothing changes nothing |
| `StreamSizes.ParkStep` | src/WinBlaze.Scanner/src/ntfs.rs:396-442 | an extension of a record that has not arrived is kept with the maximum of those before it |
| `StreamResolver.NtfsStreamState.constructor` | src/WinBlaze.Scanner/src/ntfs.rs:297-314 | a new stream has seen nothing |
| `StreamResolver.NtfsStreamState.EmitRoot` | src/WinBlaze.Scanner/src/ntfs.rs:316-331 | record 5 is announced with the root path, which establishes the invariant |
| `StreamResolver.NtfsStreamState.IngestEntry` | src/WinBlaze.Scanner/src/ntfs.rs:332-357 | the invariant about paths, buckets, events, sizes and totals holds after every entry |
| `StreamResolver.NtfsStreamState.EmitFile` | src/WinBlaze.Scanner/src/ntfs.rs:359-394 | counters, totals, the event and the retained record after a file |
| `StreamResolver.NtfsStreamState.IngestExtension` | src/WinBlaze.Scanner/src/ntfs.rs:396-446 | the invariant holds after every extension record |
| `StreamResolver.NtfsStreamState.CorrectFile` | src/WinBlaze.Scanner/src/ntfs.rs:396-442 | the retained record, both totals and the event after a correction |
| `StreamResolver.NtfsStreamState.DrainCascade` | src/WinBlaze.Scanner/src/ntfs.rs:448-478 | the worklist empties on every parent graph, announcements are only added, and the state is settled again |
| `StreamResolver.NtfsStreamState.Finish` | src/WinBlaze.Scanner/src/ntfs.rs:483-510 | no directory is left waiting, and the paths are the final paths of the entries in their arrival order |
| `StreamResolver.NtfsStreamState.ForceStuck` | src/WinBlaze.Scanner/src/ntfs.rs:483-510 | one round of the final pass: the stuck keys in ascending order |
| `StreamResolver.StreamEntries` | src/WinBlaze.Scanner/src/ntfs.rs:316-529 | a whole stream: paths, one announcement per directory with the link and name of its record, last announcement per file, and the summary |
| `DataRuns.DecodeDataRuns` | src/WinBlaze.Scanner/src/ntfs.rs:873-957 | the decoder loop computes the meaning of a run list, with every error case in the code's order |
| `DataRuns.ReadLe` | src/WinBlaze.Scanner/src/ntfs.rs:900-921 | the byte loop assembles a little-endian number |
| `DataRuns.RunIsRead` | src/WinBlaze.Scanner/src/ntfs.rs:878-921 | a stored run is read back with its length and signed delta, whatever sizes its writer chose |
| `DataRuns.RunsRoundTrip` | src/WinBlaze.Scanner/src/ntfs.rs:873-957 | every stored list of runs that stays on the volume decodes to the extents it stands for |
| `ValidLength.TrimExtentsToValidLength` | src/WinBlaze.Scanner/src/ntfs.rs:965-990 | the loop keeps the extents up to the cluster-rounded valid length and cuts the last one; unknown lengths change nothing |
| `ValidLength.TrimmedIsPrefix` | src/WinBlaze.Scanner/src/ntfs.rs:961-990 | what is kept is exactly the beginning of the stream of that length, or all of it |
| `ValidLength.InitializedIsPrefix` | src/WinBlaze.Scanner/src/ntfs.rs:961-990 | the initialized part is the beginning of the stream, as long as the valid length rounded up to the next multiple of the cluster size, or all of it when there is less or the length is unknown |
| `RecordFixups.ApplyRecordFixups` | src/WinBlaze.Scanner/src/ntfs.rs:1397-1423 | the in-place repair of one record: its bytes, its verdict, and nothing outside the record |
| `RecordFixups.ApplyMftFixups` | src/WinBlaze.Scanner/src/ntfs.rs:1428-1438 | every whole record of the buffer is repaired; a torn one loses its signature |
| `RecordFixups.AcceptedBytes` | src/WinBlaze.Scanner/src/ntfs.rs:1393-1423 | in an accepted record every byte is what its origin held on disk: at the end of a sector the array entry, or, where the array itself lies at the end of an earlier sector, what was put there; elsewhere the byte itself |
| `RecordFixups.OriginIsEntry` | src/WinBlaze.Scanner/src/ntfs.rs:1393-1423 | where the array ends before the first sector does, each sector ends with its own array entry and every other byte is unchanged |
| `RecordFixups.AcceptedExactly` | src/WinBlaze.Scanner/src/ntfs.rs:1397-1423 | a record is accepted if and only if every sector ends with the check value |
| `RepairMeaning.RepairMeans` | src/WinBlaze.Scanner/src/ntfs.rs:1393-1438 | read off the bytes: only records that start with FILE are touched; one whose sectors all end with the check value gets every sector end back from the array and keeps the rest, any other one starts with BAAD from then on |
| `BatchParser.RepairThenParse` | src/WinBlaze.Scanner/src/ntfs.rs:585-600 | repairing a buffer and then parsing it is repairing and parsing record by record |
| `BatchParser.ParseConcat` | src/WinBlaze.Scanner/src/ntfs.rs:1983-2008 | cutting a stream between two records changes neither the entries nor the first error |
| `BatchParser.ParseRecordRange` | src/WinBlaze.Scanner/src/ntfs.rs:1983-2008 | the loop yields the entries of all records in order, or the first error |
| `ParseMeaning.ParseMeans` | src/WinBlaze.Scanner/src/ntfs.rs:1983-2008 | record by record: all base entries and all extensions, each in the order of the records, or the error of the first record that cannot be parsed |
| `BatchParser.FixupAndParseBatch` | src/WinBlaze.Scanner/src/ntfs.rs:585-635 | for every number of workers the joined result is that of one pass over the batch |
| `BatchParser.CarryStep` | src/WinBlaze.Scanner/src/ntfs.rs:151-206 | the carried piece and the next block: what is parsed and what is carried on |
| `BatchParser.ParseBlocks` | src/WinBlaze.Scanner/src/ntfs.rs:151-206 | for all block boundaries and worker counts: the entries, or the first error, of the whole stream |
| `MftScan.ScanMft` | src/WinBlaze.Scanner/src/ntfs.rs:1595-1650 | run list, valid length, skipped clusters, volume reads, blocks and batches together: the same entries or the same first error as parsing every record of the initialized part by itself, when records without their bit hold nothing; the initialized part ends at the first multiple of the cluster size that is not below the valid length |
| `MftScan.ExtentsToRead` | src/WinBlaze.Scanner/src/ntfs.rs:1605-1630 | leaving out free clusters, or not where clusters hold no whole records or no bitmap could be read, changes nothing about what is parsed |
| `VolumeReader.VolumeMftReader.constructor` | src/WinBlaze.Scanner/src/ntfs.rs:676-690 | the reader starts in front of the concatenated extents, whatever their offsets and lengths |
| `VolumeReader.VolumeMftReader.FillChunk` | src/WinBlaze.Scanner/src/ntfs.rs:697-722 | the bounce chunk takes the next bytes of the stream with one aligned read, and is empty only at the end |
| `VolumeReader.VolumeMftReader.Read` | src/WinBlaze.Scanner/src/ntfs.rs:726-776 | every read returns the next bytes of the concatenated extents, none only at the end, and asks the volume for whole sectors |
| `VolumeReader.VolumeMftReader.ReadBlock` | src/WinBlaze.Scanner/src/ntfs.rs:123-137 | a block is filled completely unless the stream ends |
| `VolumeReader.ReadBlocks` | src/WinBlaze.Scanner/src/ntfs.rs:121-142 | the blocks up to the first empty one are the whole stream |
| `VolumeReader.EnumerateMft` | src/WinBlaze.Scanner/src/ntfs.rs:121-206 | reader, carry loop and workers together: the parse of the whole stream, independent of block length and worker count |
| `SparseRead.KeepFlags` | src/WinBlaze.Scanner/src/ntfs.rs:1341-1363 | a cluster is kept if and only if it is occupied or its maximal free run is shorter than the threshold |
| `SparseRead.MapKept` | src/WinBlaze.Scanner/src/ntfs.rs:1365-1391 | the coalesced extents read exactly the kept clusters and the tails, in the order of the stream |
| `SparseRead.MftKeepExtents` | src/WinBlaze.Scanner/src/ntfs.rs:1312-1391 | both together, with the cases in which nothing is filtered |
| `SparseRead.PieceAdded` | src/WinBlaze.Scanner/src/ntfs.rs:1374-1377 | joining a piece to a preceding extent reads the same bytes |
| `SparseRead.SkippedRunsAreLong` | src/WinBlaze.Scanner/src/ntfs.rs:1341-1343 | a run that is left out has at least the threshold's number of bytes |
| `SparseRead.ThresholdIsLeast` | src/WinBlaze.Scanner/src/ntfs.rs:1341-1341 | the threshold is the least number of clusters, one at least, that holds its number of bytes |
| `SparseParse.KeptStreamIsParts` | src/WinBlaze.Scanner/src/ntfs.rs:1365-1391 | for whole clusters the expansion of the result is the kept clusters of the stream in logical order |
| `SparseParse.TotalIsLength` | src/WinBlaze.Scanner/src/ntfs.rs:1322-1326 | the clusters counted are the length of the stream |
| `SparseParse.SparseParsesAlike` | src/WinBlaze.Scanner/src/ntfs.rs:1306-1391 | when records with a clear bit parse to nothing, parsing what is kept gives what parsing everything gives |
| `RecordSort.PlaceDense` | src/WinBlaze.Index/src/tree.rs:611-642 | the dense-range swaps lose nothing; without duplicates they sort |
| `RecordSort.SettlePosition` | src/WinBlaze.Index/src/tree.rs:623-638 | one offset is settled, or a duplicate id is met |
| `RecordSort.SwapSettles` | src/WinBlaze.Index/src/tree.rs:624-637 | each swap settles one more record, which is why the swaps end |
| `RecordSort.SortedKeysNamePositions` | src/WinBlaze.Index/src/tree.rs:647-652 | the sorted keys name every position exactly once, duplicates of ids included |
| `RecordSort.InvertPermutation` | src/WinBlaze.Index/src/tree.rs:657-660 | inverting the order in the slots of the keys gives every record its target |
| `RecordSort.FollowCycle` | src/WinBlaze.Index/src/tree.rs:661-667 | following a cycle puts at least one more record in place with every swap |
| `RecordSort.ApplyCycles` | src/WinBlaze.Index/src/tree.rs:661-667 | after all cycles every record is at its target |
| `RecordSort.SortRecordsById` | src/WinBlaze.Index/src/tree.rs:602-669 | for every input, duplicates included: the same records in ascending order of their ids |
| `TreeIndex.LookupFinds` | src/WinBlaze.Index/src/tree.rs:78-114 | the lookup finds a directory by id if it exists, in the dense form and in the table |
| `TreeIndex.ChooseRoot` | src/WinBlaze.Index/src/tree.rs:675-693 | the chosen root has no structural parent; none is chosen only when every directory has one |
| `TreeIndex.RootPreference` | src/WinBlaze.Index/src/tree.rs:675-693 | record 5 is the root if it has no structural parent, otherwise the first directory that has none |
| `TotalsMeaning.RootMeans` | src/WinBlaze.Index/src/tree.rs:675-693 | the same read off the records: the last record 5 if it names no parent, itself, or a missing one, and otherwise the first such directory |
| `TreeIndex.ParentIndices` | src/WinBlaze.Index/src/tree.rs:158-175 | every directory but the root has a parent inside the index, never itself |
| `TreeIndex.ChildrenAre` | src/WinBlaze.Index/src/tree.rs:187-226 | the children of a directory are exactly the directories with that parent, in ascending order |
| `TreeIndex.GroupChildren` | src/WinBlaze.Index/src/tree.rs:187-226 | the counting passes lay the children of every directory out in its range |
| `TreeIndex.FillStep` | src/WinBlaze.Index/src/tree.rs:215-226 | placing a child at its parent's cursor disturbs no other range |
| `Rollups.FoldJoins` | src/WinBlaze.Index/src/tree.rs:254-316 | the total over two disjoint sets of entries is the sum of their totals |
| `Rollups.FoldIsSaturatedSum` | src/WinBlaze.Index/src/tree.rs:254-316 | both byte totals and both counts are the exact sums cut off at the largest number |
| `Rollups.FoldIsNewest` | src/WinBlaze.Index/src/tree.rs:254-316 | the rolled-up time is the latest of the times there are |
| `Rollups.OpenLink` | src/WinBlaze.Index/src/tree.rs:291-315 | what adding one parent link does to where an entry counts, over arbitrary links |
| `Rollups.SweepStep` | src/WinBlaze.Index/src/tree.rs:291-315 | adding a child's total and one item to its parent accounts for exactly one more link |
| `TreeRollup.AddFiles` | src/WinBlaze.Index/src/tree.rs:255-269 | every file is added to its own directory, or to the root when that is unknown |
| `TreeRollup.ExpandStep` | src/WinBlaze.Index/src/tree.rs:275-289 | one step of the breadth-first pass keeps the order without repetition and each parent before its children |
| `TreeRollup.VisitedBelowOthers` | src/WinBlaze.Index/src/tree.rs:275-289 | no directory is visited twice, whatever the parent links are |
| `TreeRollup.BreadthFirst` | src/WinBlaze.Index/src/tree.rs:275-289 | the pass ends, and its order is complete and free of repetition |
| `TreeRollup.OrderIsReachable` | src/WinBlaze.Index/src/tree.rs:275-289 | the order holds exactly the directories whose parent chain ends at the root |
| `TreeRollup.Sweep` | src/WinBlaze.Index/src/tree.rs:291-315 | the reverse sweep over the order leaves every directory with the totals of all links swept |
| `TreeRollup.SweptTotals` | src/WinBlaze.Index/src/tree.rs:250-316 | reachable directories hold the totals of their subtree, the others those of the files directly in them |
| `TreeRollup.ComputeRollups` | src/WinBlaze.Index/src/tree.rs:142-316 | root choice, children, breadth-first pass and sweep together: the totals of every directory, for every list of directories |
| `TotalsMeaning.RollupsMean` | src/WinBlaze.Index/src/tree.rs:250-316 | read off the records: the logical bytes of a reachable directory are the sum of the sizes of the files at or below it, the physical bytes the sum of their allocations, the counts those files and directories, and the time is the newest; of an unreachable one, the files directly in it |
| `ChildPages.MergeIsUnion` | src/WinBlaze.Index/src/tree.rs:528-598 | the merge of directories and files holds every child once |
| `ChildPages.MergeDescends` | src/WinBlaze.Index/src/tree.rs:528-598 | the merge is in descending order of physical size |
| `ChildPages.MergeKeepsOrder` | src/WinBlaze.Index/src/tree.rs:528-598 | directories among themselves keep their order in the merge, and so do files |
| `ChildPages.TiesGoToDirectories` | src/WinBlaze.Index/src/tree.rs:528-598 | no directory stands behind a file of the same size |
| `ChildPages.PagesJoin` | src/WinBlaze.Index/src/tree.rs:523-533 | pages that follow each other make up one page, and together the whole merge |
| `ChildPages.ForEachChild` | src/WinBlaze.Index/src/tree.rs:528-598 | the merging loop visits exactly the page of the merged order that offset and limit name |
| `Aggregation.IncrementAncestors` | src/WinBlaze.Core/src/model.rs:313-358 | an entry is added to its directory and to every directory above it, and to no other |
| `Aggregation.AggregateDirectoryRecords` | src/WinBlaze.Core/src/model.rs:266-310 | totals and direct contributions of every directory, saturating, for every list of directories whose parent links do not run in circles |
| `AggregateMeaning.AggregatesMean` | src/WinBlaze.Core/src/model.rs:266-358 | read off the records: direct bytes are the sizes of the files in a directory, total bytes the allocations of the files at or below it, entries the files and directories in it and below it |
| `Aggregation.AncestorsMatch` | src/WinBlaze.Core/src/model.rs:313-358 | ancestors by id and ancestors by index are the same on connected catalogs |
| `Aggregation.TotalsMatch` | src/WinBlaze.Core/src/model.rs:266-358 | the ancestor walks give each directory the total of its subtree in the tree index |
| `Aggregation.RollupsAgreeWithAggregation` | src/WinBlaze.Index/src/tree.rs:142-316 | on acyclic catalogs with one root and no missing parents, physical bytes and item count equal total_bytes and total_entries of the older aggregation |
| `Bits.SetBitBits` | src/WinBlaze.Scanner/src/allocation.rs:43-63 | setting a bit sets that bit and no other |
| `Bits.SetBitFits` | src/WinBlaze.Scanner/src/allocation.rs:43-63 | a 64-bit word stays one |
| `Bits.BitIsDigit` | src/WinBlaze.Scanner/src/allocation.rs:43-63 | a bit is set exactly when the word is odd after so many halvings |
| `Bits.NextPowerIsLeast` | src/WinBlaze.Scanner/src/allocation.rs:101-103 | the next power of two is a power of two, and the half of it would be too small |
| `Allocation.NarrowIdentities.Insert` | src/WinBlaze.Scanner/src/allocation.rs:43-63 | true exactly for the first insertion; the member set gains that number |
| `Allocation.NarrowIdentities.Compact` | src/WinBlaze.Scanner/src/allocation.rs:65-140 | compaction keeps the member set and the invariant: window aligned to 64, within 2^64, at most 131072 words, at least half used, disjoint from the hash set |
| `Allocation.NarrowIdentities.Rebuild` | src/WinBlaze.Scanner/src/allocation.rs:109-140 | the new window holds the former one and every number that fits |
| `Allocation.MajorityPrefix` | src/WinBlaze.Scanner/src/allocation.rs:66-84 | one pass with one counter finds the prefix that more than half of the numbers share, if there is one |
| `Allocation.SpanOf` | src/WinBlaze.Scanner/src/allocation.rs:85-92 | the range and number of the members of one prefix |
| `Allocation.MarkInserts` | src/WinBlaze.Scanner/src/allocation.rs:43-63 | a test-and-set on the bitmap adds exactly one member |
| `Allocation.PlanCovers` | src/WinBlaze.Scanner/src/allocation.rs:97-111 | a window that would pass the last number is moved down and still covers the former one |
| `Allocation.RebaseKeepsMembers` | src/WinBlaze.Scanner/src/allocation.rs:112-118 | copying words into a wider window keeps the members |
| `Allocation.RebuiltOk` | src/WinBlaze.Scanner/src/allocation.rs:112-139 | the rebuilt pair of window and set satisfies the invariant |
| `Allocation.MoveInto` | src/WinBlaze.Scanner/src/allocation.rs:119-131 | every number in the window's range moves into it; the rest stays |
| `Allocation.PaidOnce` | src/WinBlaze.Scanner/src/allocation.rs:157-187 | paying the first non-zero claim of each identity: what the i-th claim of a sequence is paid depends only on the claims before it |
| `Allocation.VolumeIdentities.Claim` | src/WinBlaze.Scanner/src/allocation.rs:143-154 | a claim pays its bytes if and only if the identity is new |
| `Allocation.AllocationTracker.IdentitiesOf` | src/WinBlaze.Scanner/src/allocation.rs:161-186 | identities of one volume, through the promotion from one volume to many |
| `Allocation.AllocationTracker.Charge` | src/WinBlaze.Scanner/src/allocation.rs:161-186 | charging one volume leaves all others alone |
| `Allocation.AllocationTracker.Claim` | src/WinBlaze.Scanner/src/allocation.rs:157-187 | the tracker pays like one plain set of identities |
| `Allocation.ConcurrentAllocationTracker.constructor` | src/WinBlaze.Scanner/src/allocation.rs:197-205 | 64 empty shards that share nothing |
| `Allocation.ConcurrentAllocationTracker.Claim` | src/WinBlaze.Scanner/src/allocation.rs:207-217 | the sharded tracker pays like one plain set of identities |
| `Allocation.ConcurrentAllocationTracker.ClaimAll` | src/WinBlaze.Scanner/src/allocation.rs:190-218 | over any sequence of claims the sharded tracker pays each identity exactly once, by its first non-zero claim |
| `DirectoryWalk.ContainsIsElement` | src/WinBlaze.Scanner/src/controller.rs:400-410 | the walk over the shared chain finds exactly the directories on it |
| `DirectoryWalk.DescentIsSmaller` | src/WinBlaze.Scanner/src/controller.rs:426-466 | every descent leaves fewer directories outside the chain, or as many and less height below, for arbitrary links |
| `DirectoryWalk.WalkDirectoryTree` | src/WinBlaze.Scanner/src/controller.rs:477-589 | the recursive walk ends on every finite file system, and what it reports is the sequence that the three laws of WalkLaws are about |
| `WalkLaws.DirectoriesFirst` | src/WinBlaze.Scanner/src/controller.rs:477-589 | an entry below another directory than the start is reported after that directory |
| `WalkLaws.ReportedOnce` | src/WinBlaze.Scanner/src/controller.rs:477-589 | when the names in each listing are different, no path is reported twice |
| `WalkLaws.ReportsExactly` | src/WinBlaze.Scanner/src/controller.rs:477-589 | the walk reports exactly the entries of the directories it can get to by descending, link by link |
| `WalkMeaning.ReportedByTrail` | src/WinBlaze.Scanner/src/controller.rs:428-475 | read off the listings: what is reported are the entries of the directories at the end of a trail, on which plain directories are entered always, and links when the policy follows links and the target is not a directory come through |
| `WalkMeaning.PlainDirectoriesAreWalked` | src/WinBlaze.Scanner/src/controller.rs:434-449 | under every policy each entry below plain directories is reported under the names that lead to it |
| `WalkMeaning.LinksAreFollowed` | src/WinBlaze.Scanner/src/controller.rs:451-466 | a following policy reports the entries of a link's target below the link, unless the walk came through that directory |
| `WalkMeaning.NothingBelowSkippedLinks` | src/WinBlaze.Scanner/src/controller.rs:451-453 | a policy that skips links reports nothing below one |
| `WorkerInvariants.WorkersLoadUpdate` | src/WinBlaze.Scanner/src/controller.rs:943-1028 | a step of one worker changes the outstanding work of all by what it changes for that one |
| `WorkerSteps.TakeBalanced` | src/WinBlaze.Scanner/src/controller.rs:986-1005 | taking a task keeps every book balanced |
| `WorkerSteps.ReadDirectoryBalanced` | src/WinBlaze.Scanner/src/controller.rs:1089-1130 | reporting a directory, with its fresh id and its task, keeps every book balanced |
| `WorkerSteps.FlushBalanced` | src/WinBlaze.Scanner/src/controller.rs:1169-1193 | flushing files keeps every book balanced |
| `WorkerSteps.PublishTotalsBalanced` | src/WinBlaze.Scanner/src/controller.rs:838-858 | publishing totals moves them without loss |
| `WorkerSteps.PublishBalanced` | src/WinBlaze.Scanner/src/controller.rs:1013-1024 | publishing found tasks keeps the counter equal to queued plus in-flight tasks |
| `WorkerLaws.StepKeeps` | src/WinBlaze.Scanner/src/controller.rs:943-1028 | every atomic step of every worker keeps the whole invariant |
| `WorkerLaws.StepWakes` | src/WinBlaze.Scanner/src/controller.rs:986-1024 | no step leaves a sleeper behind while there is work, or lets a worker leave while there is some |
| `WorkerLaws.StepStaysWithinLimit` | src/WinBlaze.Scanner/src/controller.rs:958-985 | started workers never exceed the limit, weak exchanges that fail included |
| `WorkerLaws.StepIdsFresh` | src/WinBlaze.Scanner/src/controller.rs:1089-1193 | no task id is given twice; every reported directory took one id from the counter; file ids stay dense blocks |
| `WorkerLaws.RunKeeps` | src/WinBlaze.Scanner/src/controller.rs:865-1028 | the invariant holds at every moment of every run |
| `SharedWalk.OutstandingCounts` | src/WinBlaze.Scanner/src/controller.rs:800-809 | outstanding equals queued plus in-flight tasks |
| `SharedWalk.WaitingMeansWork` | src/WinBlaze.Scanner/src/controller.rs:986-1001 | an un-notified waiter means an empty queue and some worker at work |
| `SharedWalk.LeavingMeansDone` | src/WinBlaze.Scanner/src/controller.rs:993-1005 | no worker leaves while a task is queued or in flight |
| `SharedWalk.NoDeadlock` | src/WinBlaze.Scanner/src/controller.rs:943-1028 | while some worker has not left, some worker can take a step that nobody has to wake it for |
| `SharedWalk.FinishedLikeOneThread` | src/WinBlaze.Scanner/src/controller.rs:865-939 | when all workers have left, every pushed task was taken exactly once and the reports are those of the walk on one thread |
| `SharedWalk.FinishedTotals` | src/WinBlaze.Scanner/src/controller.rs:838-858 | the published counters are the files and bytes of the walk on one thread, and the two id counters have moved by the files and the directories reported |
| `SharedWalk.EveryInterleavingLikeOneThread` | src/WinBlaze.Scanner/src/controller.rs:865-1028 | all of this for every interleaving that ends without cancellation |
| `SharedWalk.EveryEntryOnce` | src/WinBlaze.Scanner/src/controller.rs:865-1028 | every interleaving that ends without cancellation reports exactly the entries that can be reached, and each once when the names in each listing differ |
| `SharedWalk.EmittedByTrail` | src/WinBlaze.Scanner/src/controller.rs:865-1028 | every interleaving that ends without cancellation reports exactly the entries of the directories at the end of a trail |
| `SharedWalk.PublishedAreCounts` | src/WinBlaze.Scanner/src/controller.rs:838-858 | the published totals are the number of reported files and the sum of their sizes |
| `SharedWalk.NeverTooManyWorkers` | src/WinBlaze.Scanner/src/controller.rs:958-985 | at every moment of every run the number of workers is at most the limit, or one |
| `WorkerCount.EnoughAreStarted` | src/WinBlaze.Scanner/src/controller.rs:958-985 | a worker goes on to take a task only when there are as many workers as tasks were waiting, or as the limit allows |
| `WorkerCount.NoneTooMany` | src/WinBlaze.Scanner/src/controller.rs:958-985 | a worker starts another one only while there are fewer than that |
| `WorkerProgress.StepEffort` | src/WinBlaze.Scanner/src/controller.rs:943-1028 | every step does some of what is left to do, unless it wakes up a worker that nobody notified or fails to start another |
| `WorkerProgress.RunsAreShort` | src/WinBlaze.Scanner/src/controller.rs:865-1028 | a run has no more steps than the effort at its start and twice the steps that do nothing |
| `WorkerProgress.EndIsReachable` | src/WinBlaze.Scanner/src/controller.rs:865-1028 | from every moment of every run the walk can go on until all workers have left, with nobody woken from outside |
| `SharedWalk.BlocksPartition` | src/WinBlaze.Scanner/src/controller.rs:1169-1193 | the blocks of file ids cover 1 up to the next id, each id once |
| `FileArena.InsertPosition` | src/WinBlaze.Index/src/file_records.rs:49-96 | one entry of the lookup changes; the table becomes a map only past every limit |
| `FileArena.Promote` | src/WinBlaze.Index/src/file_records.rs:76-96 | promotion keeps every entry, id 0 and entries after holes included |
| `FileArena.SwapRemoveKeeps` | src/WinBlaze.Index/src/file_records.rs:148-156 | swap-removal keeps lookup and arena inverse to each other and removes exactly one record |
| `FileArena.MovedHasSlot` | src/WinBlaze.Index/src/file_records.rs:148-156 | the record that moves has a slot already, so that no removal leaves the table |
| `FileArena.FileRecords.Reserve` | src/WinBlaze.Index/src/file_records.rs:28-37 | reserving changes the hint only |
| `FileArena.FileRecords.Insert` | src/WinBlaze.Index/src/file_records.rs:129-146 | the arena behaves as a map from id to record under insertion under the record's own id |
| `FileArena.FileRecords.Remove` | src/WinBlaze.Index/src/file_records.rs:148-156 | the arena behaves as a map under removal, and a removal never promotes |
| `FileArena.FileRecords.Equals` | src/WinBlaze.Index/src/file_records.rs:193-203 | two arenas are equal exactly when their maps are |
| `SortedMaps.SortedKeysAre` | src/WinBlaze.Index/src/store.rs:485-509 | a snapshot lists every key once, in ascending order |
| `SortedMaps.AscendingIsUnique` | src/WinBlaze.Index/src/store.rs:485-509 | there is only one such list |
| `FileDiff.DiffFileRecords` | src/WinBlaze.Core/src/model.rs:388-449 | the loops and the shortcut for equal lists compute the change set |
| `FileDiff.NothingChanges` | src/WinBlaze.Core/src/model.rs:388-394 | the shortcut is right: a sorted list has no changes against itself |
| `FileDiff.ChangesMention` | src/WinBlaze.Core/src/model.rs:388-449 | a file is mentioned exactly when its record differs, and removed exactly when it is gone |
| `FileDiff.MentionedWhy` | src/WinBlaze.Core/src/model.rs:400-446 | what each change says about the two records of its file |
| `ChangeMeaning.ChangesExactly` | src/WinBlaze.Core/src/model.rs:388-449 | read off the two lists: an edit for every file that stayed and differs in anything but its stored path, an addition for every new one, a removal for every lost one, each with its kind and its paths, and nothing else |
| `ChangeMeaning.LineagesExactly` | src/WinBlaze.Core/src/model.rs:362-386 | a lineage for exactly the edited files with another name, parent or path, saying which |
| `FileDiff.ApplyIncrementalFiles` | src/WinBlaze.Index/src/store.rs:536-580 | the loop applies every change and records every rename and move |
| `FileDiff.AppliedIsCurrent` | src/WinBlaze.Index/src/store.rs:536-580 | after the changes between two lists are applied, the second list is what is stored, up to stored paths |
| `PathRemap.RemapCurrentFilesByPath` | src/WinBlaze.Index/src/store.rs:378-403 | the loop gives known paths their former ids and all others fresh ones |
| `PathRemap.RemappedFilesAreUnique` | src/WinBlaze.Index/src/store.rs:378-403 | the new file ids are unique if and only if no known path occurs twice in the new scan |
| `PathRemap.NextFileIdFollows` | src/WinBlaze.Index/src/store.rs:378-390 | the first fresh file id is one more than the largest in use |
| `PathRemap.RemapCurrentDirectoryIdsByPath` | src/WinBlaze.Index/src/store.rs:304-371 | the loops settle an id for every directory and every reference, and replace all of them |
| `PathRemap.EverythingIsCovered` | src/WinBlaze.Index/src/store.rs:342-371 | every id and every reference has been settled when the records are rewritten |
| `PathRemap.NextDirectoryIdFollows` | src/WinBlaze.Index/src/store.rs:315-329 | the first fresh directory id is one more than the largest in use |
| `StableIds.DirectoryRemapInjective` | src/WinBlaze.Index/src/store.rs:304-371 | different ids stay different if and only if no known path belongs to two current directories |
| `StableIds.DanglingStaysDangling` | src/WinBlaze.Index/src/store.rs:342-360 | a reference without a directory ends up at none, neither a former nor a current one |
| `StableIds.HarmlessReferenceStays` | src/WinBlaze.Index/src/store.rs:342-360 | a reference without a directory keeps its number unless a former directory has that number |
| `StableIds.DirectoryKeepsId` | src/WinBlaze.Index/src/store.rs:330-341 | a known path keeps its id, any other directory gets one that was not in use |
| `Rescan.SnapshotFilesWithPaths` | src/WinBlaze.Index/src/store.rs:515-526 | the loop fills in the paths that scanners leave out |
| `Rescan.FilledIn` | src/WinBlaze.Index/src/store.rs:515-526 | a file without a stored path gets the path of its directory, a backslash and its name |
| `Rescan.CollectFinds` | src/WinBlaze.Index/src/directory_records.rs:24-37 | the directory table finds, for an id, the last record inserted with it |
| `Rescan.CollectKeeps` | src/WinBlaze.Index/src/directory_records.rs:24-41 | records with different ids stay as they were listed |
| `Rescan.IndexRepository.ApplyIncrementalTransaction` | src/WinBlaze.Index/src/store.rs:198-223 | the new state, the change set, and what is stored: the new state is in memory even when it could not be written |
| `Rescan.IndexRepository.ApplyPathMatchedIncrementalTransaction` | src/WinBlaze.Index/src/store.rs:225-260 | the same for a path-matched rescan |
| `RescanLaws.FinalFilesAre` | src/WinBlaze.Index/src/store.rs:225-260 | after both remaps a scanned file has the id of the stored file with its path, if there is one, and is otherwise unchanged but for its parent's id |
| `RescanLaws.StoredFilesAreTheNewScan` | src/WinBlaze.Index/src/store.rs:225-260 | after a rescan the store holds the new scan's files up to ids and stored paths, and no others |
| `RescanLaws.StoredDirectoriesAreTheNewScan` | src/WinBlaze.Index/src/store.rs:225-260 | when no two directories share a settled id, the store holds every scanned directory under its settled id and its parent's, otherwise unchanged |
| `RescanLaws.AddedAreNewPaths` | src/WinBlaze.Index/src/store.rs:225-260 | the files reported as added are exactly those with a new path |
| `RescanLaws.RemovedAreLostPaths` | src/WinBlaze.Index/src/store.rs:225-260 | the files reported as removed are exactly those whose path is gone |
| `RescanLaws.ParentsAgree` | src/WinBlaze.Index/src/store.rs:304-371 | a stored and a renumbered parent id are equal exactly when the parents' paths are |
| `RescanLaws.NoChangesExactly` | src/WinBlaze.Index/src/store.rs:225-260 | the change set is empty if and only if both scans describe the same files, so that renumbering alone is no change |
| `Bytes.LeRoundTrip` | src/WinBlaze.Index/src/store.rs:955-961 | a number that fits its width comes back from its little-endian bytes |
| `Utf8Meaning.Utf8Means` | src/WinBlaze.Index/src/store.rs:1267-1283 | the texts that are accepted are exactly the UTF-8 encodings of sequences of Unicode scalar values |
| `FieldLaws.StringRoundTrip` | src/WinBlaze.Index/src/store.rs:1267-1283 | a text comes back exactly when it is at most one mebibyte long |
| `FieldLaws.RoundTrip` | src/WinBlaze.Index/src/store.rs:862-1324 | every field, table and nested table comes back when its texts are short, and is refused otherwise |
| `FieldLaws.RowsAreLong` | src/WinBlaze.Index/src/store.rs:1248-1265 | a table is at least as long as its least item size says |
| `FieldLaws.ListReadsExactlyWhen` | src/WinBlaze.Index/src/store.rs:1248-1265 | when exactly the length check lets a table through |
| `FieldLaws.GetStable` | src/WinBlaze.Index/src/store.rs:785-860 | what is read from an input is read from every longer one, which leaves that much more over |
| `Snapshot.CollectedIsTable` | src/WinBlaze.Index/src/store.rs:815-860 | collecting the sorted records of a table gives the table |
| `Snapshot.SortedSliceIsUnique` | src/WinBlaze.Index/src/store.rs:760-778 | a sorted slice of all records is the list that sorting gives |
| `SnapshotLaws.BodyIsFair` | src/WinBlaze.Index/src/store.rs:1021-1170 | the version 2 minimum of every table is at most the size of its shortest record |
| `SnapshotLaws.StateComesBack` | src/WinBlaze.Index/src/store.rs:815-860 | the records of a state rebuild the state, not committed |
| `SnapshotLaws.SnapshotRoundTrip` | src/WinBlaze.Index/src/store.rs:731-860 | decoding a version 2 snapshot gives the state that was written, with committed false, and consumes every byte; one with a text over one mebibyte is refused |
| `SnapshotLaws.DecodeStable` | src/WinBlaze.Index/src/store.rs:815-860 | bytes after a snapshot change nothing but what is left over |
| `SnapshotLaws.CutOffSnapshotFails` | src/WinBlaze.Index/src/store.rs:815-860 | every strict prefix of a snapshot decodes to an error |
| `SnapshotLaws.SortedRecordsAreIdentical` | src/WinBlaze.Index/src/store.rs:731-778 | the writer for sorted slices writes what the writer for tables writes |
| `SnapshotBytes.SnapshotIsWritten` | src/WinBlaze.Index/src/store.rs:731-1018 | the bytes of a snapshot: WBIX, the version, six counted tables, and every field of every record in its place and width |
| `SnapshotBytes.CodesArePositions` | src/WinBlaze.Index/src/store.rs:1326-1409 | the one-byte codes of file systems, scan states and change kinds |
| `SnapshotLaws.VersionOneReadsExactlyWhen` | src/WinBlaze.Index/src/store.rs:1099-1105 | version 1 asks for 57 bytes a file while an empty record takes 55: such files are read exactly when two bytes for each of them follow |
| `SnapshotIo.SnapshotReader.constructor` | src/WinBlaze.Index/src/store.rs:790-796 | the reader stands in front of the whole file |
| `SnapshotIo.SnapshotReader.ReadExact` | src/WinBlaze.Index/src/store.rs:798-808 | the counter of remaining bytes refuses what is not there and otherwise advances |
| `SnapshotIo.SnapshotReader.ReadString` | src/WinBlaze.Index/src/store.rs:1267-1283 | length, limit, remaining bytes and UTF-8, in the code's order |
| `SnapshotIo.SnapshotReader.ReadField` | src/WinBlaze.Index/src/store.rs:1213-1324 | one field of any kind |
| `SnapshotIo.SnapshotReader.ReadRows` | src/WinBlaze.Index/src/store.rs:1021-1170 | the loop over the records of a table |
| `SnapshotIo.SnapshotReader.ReadSnapshot` | src/WinBlaze.Index/src/store.rs:815-860 | the reader computes the decoding of the file |
| `SnapshotIo.WriteRecords` | src/WinBlaze.Index/src/store.rs:899-953 | one buffer per record, appended in order, writes the table |
| `SnapshotIo.WriteState` | src/WinBlaze.Index/src/store.rs:731-757 | the writer produces the encoding of the state |
| `SnapshotIo.WriteSortedRecords` | src/WinBlaze.Index/src/store.rs:760-778 | the writer for sorted slices produces the encoding of the lists it is given |
| `CrashSafety.SnapshotFiles.Persist` | src/WinBlaze.Index/src/store.rs:657-693 | cut off anywhere, a persist of a snapshot that can be read leaves either the former or the new one to be recovered, and when it returns, the new one; whatever is persisted, the name is taken by the new file, by the old one, or by neither while the old one is kept aside |
| `CrashSafety.OverlongNeverLoads` | src/WinBlaze.Index/src/store.rs:657-693 | a snapshot with a text that is too long never loads; once its file has taken the name and nothing is kept aside, opening finds nothing |
| `CrashSafety.CutOffNeverLoads` | src/WinBlaze.Index/src/store.rs:626-644 | a snapshot that was not written to its end is never loaded |
| `CrashSafety.StepKeeps` | src/WinBlaze.Index/src/store.rs:657-693 | every file step keeps a file under the snapshot's name complete |
| `CrashSafety.StepRecovers` | src/WinBlaze.Index/src/store.rs:657-693 | only the step that gives the new snapshot its name changes what is recovered |
| `CrashSafety.RunRecovers` | src/WinBlaze.Index/src/store.rs:68-72 | over any run of persists, each cut off anywhere, what is recovered is the snapshot that last took the name |
| `CrashSafety.ReturnedOrBegunExactly` | src/WinBlaze.Index/src/store.rs:657-693 | what is recovered is the snapshot of the last persist that returned or of the last one begun, unless one was cut off between taking the name and returning and another has begun since; then it is neither, when all snapshots differ |
| `CrashSafety.NeitherReturnedNorBegun` | src/WinBlaze.Index/src/store.rs:657-693 | a run over three concrete, different snapshots in which the recovered one is neither of the two |
| `Delimited.Rows` | src/WinBlaze.Index/src/import.rs:25-80 | the scanner loop computes the parse of the text, errors included |
| `Delimited.Escaped` | src/WinBlaze.Index/src/export.rs:12-22 | the loop that copies stretches between quotes doubles exactly the quotes |
| `Delimited.QuotedIsRead` | src/WinBlaze.Index/src/import.rs:25-80 | a quoted field is read back whole, whatever quotes, delimiters and line ends it holds |
| `Delimited.RowsAreRead` | src/WinBlaze.Index/src/import.rs:25-80 | written rows are read back one after the other |
| `Delimited.TableRoundTrip` | src/WinBlaze.Index/src/import.rs:25-80 | reading a written table gives the text of every field of every row, for any delimiter that is neither quote nor line end |
| `Delimited.LineFeedsAreEnough` | src/WinBlaze.Index/src/import.rs:25-80 | a table whose lines end in line feeds alone is read as the same rows |
| `Delimited.ReadableIsBalanced` | src/WinBlaze.Index/src/import.rs:25-80 | whatever is read without an error has its quotes in pairs |
| `Delimited.TabbedAppends` | src/WinBlaze.Index/src/export.rs:55-88 | the filter on a concatenation is the filter on the parts, with the quote state carried over |
| `Delimited.TabWriter.Write` | src/WinBlaze.Index/src/export.rs:61-76 | one write through the filter, with its quote state |
| `Delimited.WriteChunks` | src/WinBlaze.Index/src/export.rs:55-88 | however the writes are split, the output is that of one write |
| `Delimited.TabbedTable` | src/WinBlaze.Index/src/export.rs:55-88 | the filtered comma-separated table is the tab-separated one |
| `CatalogExport.CsvInteger` | src/WinBlaze.Index/src/export.rs:328-340 | the digit loop prints the number |
| `CatalogExport.DecimalRoundTrip` | src/WinBlaze.Index/src/import.rs:883-891 | printing a number and parsing it gives the number |
| `CatalogExport.TimeRoundTrip` | src/WinBlaze.Index/src/export.rs:342-351 | a time survives export and import, to the second, if and only if it lies between 1601 and the year 9999 |
| `CatalogExport.PrefixCompletes` | src/WinBlaze.Index/src/export.rs:299-315 | a path put together from the cached parent prefix is the quoted display path |
| `CatalogExport.FilePathText` | src/WinBlaze.Index/src/export.rs:295-316 | the cached prefix is used only while it belongs to the file's directory |
| `CatalogExport.FileRowText` | src/WinBlaze.Index/src/export.rs:290-324 | the row of a file |
| `CatalogExport.DirectoryRowText` | src/WinBlaze.Index/src/export.rs:274-288 | the row of a directory |
| `CatalogExport.ExportOrderIsComplete` | src/WinBlaze.Index/src/export.rs:263-273 | every directory is exported exactly once, the root first and the others in catalog order |
| `CatalogExport.WriteCsv` | src/WinBlaze.Index/src/export.rs:252-326 | the writer produces the text of the catalog's table |
| `CatalogExport.ExportRoundTrip` | src/WinBlaze.Index/src/export.rs:252-326 | reading an export gives the header and one row for every directory and file, with each file's display path and its numbers |
| `ExportMeaning.ExportMeans` | src/WinBlaze.Index/src/export.rs:252-351 | what a reader finds: the seven headings, and under them for each directory and file its path, its kind, its logical and allocated bytes, its files and directories, and its time in seconds since 1970 |
| `Wildcard.UnicodeWildcard` | src/WinBlaze.Index/src/export.rs:185-207 | the loop with one backtrack point reaches the matcher's verdict, and ends |
| `Wildcard.AsciiWildcard` | src/WinBlaze.Index/src/export.rs:209-231 | on ASCII the case-folding matcher decides as the general one on lowered text |
| `Wildcard.LettersAreFolded` | src/WinBlaze.Index/src/export.rs:209-231 | folding moves A to Z to a to z and changes nothing else |
| `Wildcard.RunIsSound` | src/WinBlaze.Scanner/src/types.rs:61-85 | from every cursor the verdict is the meaning of the rest of the pattern, on names without stars |
| `Wildcard.VerdictIsMeaning` | src/WinBlaze.Scanner/src/types.rs:61-85 | on names without a star the matcher decides every pattern by its recursive meaning |
| `Wildcard.StarNameIsMisjudged` | src/WinBlaze.Scanner/src/types.rs:61-85 | for every name with a star there is a pattern on which the matcher is wrong |
| `Wildcard.RightExactlyWithoutStars` | src/WinBlaze.Scanner/src/types.rs:61-85 | the matcher is right about a name for every pattern if and only if the name has no star |
| `Wildcard.MatchesMeans` | src/WinBlaze.Scanner/src/types.rs:61-85 | a pattern matches exactly the names that can be cut into one part per character: anything for a star, one character for a question mark, the character itself for any other |

## Left out

- StreamResolver.NtfsStreamState.IngestEntry: ids that occur twice in a stream are not modelled, because each record of
  the MFT has its own number; the same holds for `StreamResolver.StreamEntries`.
- FileArena.FileRecords.Insert: a key other than the record's own id is not modelled, because no caller uses one.
- The NTFS record format: what one repaired record means is a function parameter of the byte path; only the split into
  records, the repair and the order of results are modelled.
- Win32 calls, handles, privileges, I/O errors of the volume, logging, progress events, the profiler, the C interface.
- The two kinds of events of a stream are kept in two logs, so that the interleaving of file and directory events is not
  modelled; neither are the progress counters and the message text of issues.
- The batch resolver of paths (src/WinBlaze.Scanner/src/ntfs.rs:2376-2420), which treats missing and self parents
  differently.
- The bitmap record and attribute list lookups that find the MFT bitmap, and the choice of the cluster threshold. Whole
  clusters of the valid length are taken to fit in 64 bits (`MftScan.Representable`).
- Threads of the parse fan-out are modelled as slices parsed one after the other; the slices are disjoint.
- A file system of the directory walk is a finite table of listings that does not change while it is walked; listings
  that cannot be read are absent from it, scan rules (`ScanRules::allows`) are taken to be applied to it already, and
  physical identities are claimed as in Allocation rather than inside the protocol.
- Fairness of the scheduler: runs are bounded, and the end can be reached from everywhere, but nothing makes a scheduler
  let a worker run; relaxed loads return the current value, which a failed exchange returns as well.
- Cancelled walks: what is left out is booked as skipped; no claim is made about which entries that is.
- Atomic counters and their local parts are unbounded numbers: no wraparound of byte totals.
- Vector capacities are chosen freely by the model; the library's unstable sort is stood for by an insertion sort, and
  the lists of children handed to the pages are taken as sorted already.
- Hash maps that are collected from lists are finite maps in which later records replace earlier ones; where an order of
  iteration matters (the volumes of a rescan) it is an argument that any caller may choose.
- The tables of directories in a rescan are the records in arena order, found by a search; the hash table beside them is
  not modelled.
- Texts are sequences of characters in the export and the rescan, and valid UTF-8 byte sequences in the snapshot.
- Snapshots of version 1 are decoded, but round trips are stated for version 2, the only version that is written.
- `compact_cache` and `invalidate_cache`, which delete files before or without writing, and the directory of the
  snapshot being created.
- The lengths of tables and texts in memory fit in 64 bits (`Sized`, `Slots`).
- Filtered, per-extension and JSON exports, WinDirStat and WizTree imports, time zones, searches, storage cost, update
  checks and the user interface.
- Unicode case folding: the general matcher works on text that has been lowered already.
- `largest files` pages and the lazy ordering of children behind a mutex.
