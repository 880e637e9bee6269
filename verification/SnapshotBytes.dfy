/** The bytes of a snapshot file, field by field. */
module SnapshotBytes {
  import opened Basics
  import opened Records
  import opened Bytes
  import opened Fields
  import opened SortedMaps
  import opened Snapshot

  // ---------- Fields ----------

  function Joined(parts: seq<Data>): Data {
    if parts == [] then [] else parts[0] + Joined(parts[1..])
  }

  /** A text after the number of its bytes. */
  function TextBytes(t: Utf8): Data {
    PutLe(|t|, 8) + t
  }

  function MaybeText(t: Option<Utf8>): Data {
    match t case None => [0] case Some(t) => [1] + TextBytes(t)
  }

  function MaybeId(id: Option<U64>): Data {
    match id case None => [0] case Some(n) => [1] + PutLe(n, 8)
  }

  /** Times before 1601 are negative: two's complement in eight bytes. */
  function MaybeTime(time: Option<I64>): Data {
    match time case None => [0] case Some(n) => [1] + PutLe(if n < 0 then 0x1_0000_0000_0000_0000 + n else n, 8)
  }

  function FlagByte(flag: bool): Data {
    if flag then [1] else [0]
  }

  const SYSTEMS: seq<FileSystemKind> := [UnknownSystem, Ntfs, Refs, Fat32, ExFat]
  const STATES: seq<ScanState> := [Idle, Initializing, Scanning, Indexing, Completed, Failed, Cancelled]
  const KINDS: seq<ChangeKind> := [Added, Removed, Modified, Renamed, Moved]

  /** The codes are the positions in these lists. */
  lemma CodesArePositions(system: FileSystemKind, state: ScanState, kind: ChangeKind)
    ensures SystemCode(system) < |SYSTEMS| && SYSTEMS[SystemCode(system)] == system
    ensures StateCode(state) < |STATES| && STATES[StateCode(state)] == state
    ensures ChangeCode(kind) < |KINDS| && KINDS[ChangeCode(kind)] == kind
  {
  }

  // ---------- Records ----------

  function VolumeParts(v: Volume): seq<Data> {
    [PutLe(v.id, 8), TextBytes(v.mountPoint), MaybeText(v.volumeLabel), [SystemCode(v.fileSystem)],
     PutLe(v.totalBytes, 8), PutLe(v.freeBytes, 8), PutLe(v.root, 8)]
  }

  function SessionParts(s: Session): seq<Data> {
    [PutLe(s.id, 8), PutLe(s.volume, 8), TextBytes(s.rootPath), [StateCode(s.state)], PutLe(s.completedItems, 8),
     PutLe(s.totalItems, 8), PutLe(s.completedBytes, 8), PutLe(s.totalBytes, 8)]
  }

  function DirectoryParts(d: Directory): seq<Data> {
    [PutLe(d.id, 8), MaybeId(d.parent), TextBytes(d.name), TextBytes(d.fullPath), PutLe(d.directBytes, 8),
     PutLe(d.totalBytes, 8), PutLe(d.directEntries, 8), PutLe(d.totalEntries, 8)]
  }

  /** A path that is not stored takes one byte. */
  function FileParts(f: File): seq<Data> {
    [PutLe(f.id, 8), PutLe(f.parent, 8), TextBytes(f.name),
     if f.fullPath == [] then [0] else [1] + TextBytes(f.fullPath), PutLe(f.size, 8), PutLe(f.allocation, 8),
     PutLe(f.attributes, 4), MaybeTime(f.created), MaybeTime(f.modified), MaybeTime(f.accessed)]
  }

  function LineageParts(l: Lineage): seq<Data> {
    [PutLe(l.file, 8), PutLe(l.previousParent, 8), PutLe(l.currentParent, 8), TextBytes(l.previousPath),
     TextBytes(l.currentPath), FlagByte(l.renamed), FlagByte(l.moved)]
  }

  function ChangeParts(c: Change): seq<Data> {
    [PutLe(c.file, 8), [ChangeCode(c.kind)], MaybeText(c.previousPath), MaybeText(c.currentPath)]
  }

  // ---------- Each record is written as its parts ----------

  ghost predicate Writes(k: Kind, v: Value, part: Data) {
    Has(k, v) ==> Put(k, v) == part
  }

  lemma NumbersAreWritten()
    ensures forall n: nat :: Writes(KindU64, Number(n), PutLe(n, 8)) && Writes(KindU32, Number(n), PutLe(n, 4))
    ensures forall id: Option<U64> :: Writes(KindOptU64, OptNumber(id), MaybeId(id))
    ensures forall t: Option<I64> :: Writes(KindOptI64, OptNumber(t), MaybeTime(t))
  {
  }

  lemma TextsAreWritten()
    ensures forall t: Utf8 :: Writes(KindString, Text(t), TextBytes(t))
    ensures forall t: Utf8 :: Writes(KindPath, Text(t), if t == [] then [0] else [1] + TextBytes(t))
    ensures forall t: Option<Utf8> :: Writes(KindOptString, OptText(t), MaybeText(t))
  {
  }

  lemma CodesAreWritten()
    ensures forall flag: bool :: Writes(KindBool, Flag(flag), FlagByte(flag))
    ensures forall k: FileSystemKind :: Writes(KindEnum(5), Number(SystemCode(k)), [SystemCode(k)])
    ensures forall s: ScanState :: Writes(KindEnum(7), Number(StateCode(s)), [StateCode(s)])
    ensures forall k: ChangeKind :: Writes(KindEnum(5), Number(ChangeCode(k)), [ChangeCode(k)])
  {
  }

  ghost predicate RowWrites(layout: Layout, row: seq<Value>, parts: seq<Data>) {
    |layout| == |row| == |parts| && forall i :: 0 <= i < |layout| ==> Writes(layout[i], row[i], parts[i])
  }

  lemma {:induction false} PartsOfRow(layout: Layout, row: seq<Value>, parts: seq<Data>)
    requires HasFields(layout, row) && RowWrites(layout, row, parts)
    ensures PutFields(layout, row) == Joined(parts)
    decreases |layout|
  {
    hide Has, Put;
    if layout != [] {
      forall i | 0 <= i < |layout| - 1 ensures Writes(layout[1..][i], row[1..][i], parts[1..][i]) {
        assert Writes(layout[i + 1], row[i + 1], parts[i + 1]);
      }
      PartsOfRow(layout[1..], row[1..], parts[1..]);
      assert Writes(layout[0], row[0], parts[0]);
    }
  }

  lemma VolumeIsWritten(v: Volume)
    ensures RowWrites(VOLUME, VolumeRow(v), VolumeParts(v))
  {
    NumbersAreWritten();
    TextsAreWritten();
    CodesAreWritten();
    hide Writes, PutLe, TextBytes, MaybeText, SystemCode;
  }

  lemma SessionIsWritten(s: Session)
    ensures RowWrites(SESSION, SessionRow(s), SessionParts(s))
  {
    NumbersAreWritten();
    TextsAreWritten();
    CodesAreWritten();
    hide Writes, PutLe, TextBytes, StateCode;
  }

  lemma DirectoryIsWritten(d: Directory)
    ensures RowWrites(DIRECTORY, DirectoryRow(d), DirectoryParts(d))
  {
    NumbersAreWritten();
    TextsAreWritten();
    hide Writes, PutLe, TextBytes, MaybeId;
  }

  lemma FileIsWritten(f: File)
    ensures RowWrites(FileLayout(2), FileRow(f), FileParts(f))
  {
    NumbersAreWritten();
    TextsAreWritten();
    hide Writes, PutLe, TextBytes, MaybeTime;
  }

  lemma LineageIsWritten(l: Lineage)
    ensures RowWrites(LINEAGE, LineageRow(l), LineageParts(l))
  {
    NumbersAreWritten();
    TextsAreWritten();
    CodesAreWritten();
    hide Writes, PutLe, TextBytes, FlagByte;
  }

  lemma ChangeIsWritten(c: Change)
    ensures RowWrites(CHANGE, ChangeRow(c), ChangeParts(c))
  {
    NumbersAreWritten();
    TextsAreWritten();
    CodesAreWritten();
    hide Writes, PutLe, MaybeText, ChangeCode;
  }

  // ---------- Tables ----------

  function AllBytes<A>(items: seq<A>, parts: A -> seq<Data>): Data {
    if items == [] then [] else Joined(parts(items[0])) + AllBytes(items[1..], parts)
  }

  /** A table: the number of its records, then the records. */
  function TableBytes<A>(items: seq<A>, parts: A -> seq<Data>): Data {
    PutLe(|items|, 8) + AllBytes(items, parts)
  }

  lemma {:induction false} RowsAreWritten<A(!new)>(layout: Layout, items: seq<A>, row: A -> seq<Value>,
                                             parts: A -> seq<Data>)
    requires HasRows(layout, RowsOf(items, row)) && forall a: A :: RowWrites(layout, row(a), parts(a))
    ensures PutRows(layout, RowsOf(items, row)) == AllBytes(items, parts)
    decreases |items|
  {
    hide HasFields, PutFields, RowWrites;
    if items != [] {
      assert RowsOf(items, row)[1..] == RowsOf(items[1..], row);
      RowsAreWritten(layout, items[1..], row, parts);
      PartsOfRow(layout, row(items[0]), parts(items[0]));
    }
  }

  lemma TableIsWritten<A(!new)>(layout: Layout, minimum: nat, items: seq<A>, row: A -> seq<Value>,
                                parts: A -> seq<Data>)
    requires forall a: A :: RowWrites(layout, row(a), parts(a))
    ensures Writes(KindList(layout, minimum), Rows(RowsOf(items, row)), TableBytes(items, parts))
  {
    if Has(KindList(layout, minimum), Rows(RowsOf(items, row))) {
      RowsAreWritten(layout, items, row, parts);
    }
  }

  function ChangeSetParts(changes: seq<Change>): seq<Data> {
    [TableBytes(changes, ChangeParts)]
  }

  function StateParts(s: State): seq<Data> {
    [TableBytes(SortedValues(s.volumes), VolumeParts), TableBytes(SortedValues(s.sessions), SessionParts),
     TableBytes(SortedValues(s.directories), DirectoryParts), TableBytes(SortedValues(s.files), FileParts),
     TableBytes(s.lineages, LineageParts), TableBytes(s.fileChanges, ChangeSetParts)]
  }

  lemma ChangeSetIsWritten(changes: seq<Change>)
    ensures RowWrites(CHANGES, ChangeSetRow(changes), ChangeSetParts(changes))
  {
    hide Writes;
    forall c: Change ensures RowWrites(CHANGE, ChangeRow(c), ChangeParts(c)) {
      ChangeIsWritten(c);
    }
    TableIsWritten(CHANGE, 10, changes, ChangeRow, ChangeParts);
  }

  lemma BodyIsWritten(s: State)
    ensures RowWrites(Body(2), BodyOf(s), StateParts(s))
  {
    hide Writes, RowWrites;
    forall v: Volume ensures RowWrites(VOLUME, VolumeRow(v), VolumeParts(v)) { VolumeIsWritten(v); }
    forall x: Session ensures RowWrites(SESSION, SessionRow(x), SessionParts(x)) { SessionIsWritten(x); }
    forall d: Directory ensures RowWrites(DIRECTORY, DirectoryRow(d), DirectoryParts(d)) { DirectoryIsWritten(d); }
    forall f: File ensures RowWrites(FileLayout(2), FileRow(f), FileParts(f)) { FileIsWritten(f); }
    forall l: Lineage ensures RowWrites(LINEAGE, LineageRow(l), LineageParts(l)) { LineageIsWritten(l); }
    forall c: seq<Change> ensures RowWrites(CHANGES, ChangeSetRow(c), ChangeSetParts(c)) { ChangeSetIsWritten(c); }
    TableIsWritten(VOLUME, 34, SortedValues(s.volumes), VolumeRow, VolumeParts);
    TableIsWritten(SESSION, 41, SortedValues(s.sessions), SessionRow, SessionParts);
    TableIsWritten(DIRECTORY, 41, SortedValues(s.directories), DirectoryRow, DirectoryParts);
    TableIsWritten(FileLayout(2), 48, SortedValues(s.files), FileRow, FileParts);
    TableIsWritten(LINEAGE, 34, s.lineages, LineageRow, LineageParts);
    TableIsWritten(CHANGES, 8, s.fileChanges, ChangeSetRow, ChangeSetParts);
    SixParts(s);
  }

  lemma SixParts(s: State)
    requires Writes(KindList(VOLUME, 34), Rows(RowsOf(SortedValues(s.volumes), VolumeRow)), StateParts(s)[0])
    requires Writes(KindList(SESSION, 41), Rows(RowsOf(SortedValues(s.sessions), SessionRow)), StateParts(s)[1])
    requires Writes(KindList(DIRECTORY, 41), Rows(RowsOf(SortedValues(s.directories), DirectoryRow)), StateParts(s)[2])
    requires Writes(KindList(FileLayout(2), 48), Rows(RowsOf(SortedValues(s.files), FileRow)), StateParts(s)[3])
    requires Writes(KindList(LINEAGE, 34), Rows(RowsOf(s.lineages, LineageRow)), StateParts(s)[4])
    requires Writes(KindList(CHANGES, 8), Rows(RowsOf(s.fileChanges, ChangeSetRow)), StateParts(s)[5])
    ensures RowWrites(Body(2), BodyOf(s), StateParts(s))
  {
    hide Writes, TableBytes, RowsOf;
  }

  /** A snapshot: four letters, the version, and six tables, the first four in ascending order of ids. */
  lemma SnapshotIsWritten(s: State)
    requires Sized(BodyOf(s))
    ensures Encode(s) == ['W' as int, 'B' as int, 'I' as int, 'X' as int, 2, 0, 0, 0] + Joined(StateParts(s))
  {
    hide HasFields, PutFields, RowWrites, Body, BodyOf, StateParts;
    BodyIsWritten(s);
    PartsOfRow(Body(2), BodyOf(s), StateParts(s));
    VersionBytes();
  }

  lemma VersionBytes()
    ensures PutLe(VERSION, 4) == [2, 0, 0, 0]
  {
    assert PutLe(0, 1) == [0] && PutLe(0, 2) == [0, 0] && PutLe(0, 3) == [0, 0, 0];
  }
}
