/** The snapshot file: which records it holds, in which order, and how a state is rebuilt from it. */
module Snapshot {
  import opened Basics
  import opened Records
  import opened SortedMaps
  import opened Bytes
  import opened Fields
  import opened FieldLaws

  type Volume = VolumeRecord<Utf8>
  type Session = ScanSession<Utf8>
  type Directory = DirectoryRecord<Utf8>
  type File = FileRecord<Utf8>
  type Lineage = FileLineage<Utf8>
  type Change = FileChange<Utf8>

  datatype State = State(
    volumes: map<U64, Volume>, sessions: map<U64, Session>, directories: map<U64, Directory>, files: map<U64, File>,
    lineages: seq<Lineage>, fileChanges: seq<seq<Change>>, committed: bool)

  // ---------- The layout ----------

  const MAGIC: Data := [0x57, 0x42, 0x49, 0x58]
  const VERSION := 2

  const VOLUME: Layout := [KindU64, KindString, KindOptString, KindEnum(5), KindU64, KindU64, KindU64]
  const SESSION: Layout := [KindU64, KindU64, KindString, KindEnum(7), KindU64, KindU64, KindU64, KindU64]
  const DIRECTORY: Layout := [KindU64, KindOptU64, KindString, KindString, KindU64, KindU64, KindU64, KindU64]
  const LINEAGE: Layout := [KindU64, KindU64, KindU64, KindString, KindString, KindBool, KindBool]
  const CHANGE: Layout := [KindU64, KindEnum(5), KindOptString, KindOptString]

  /** Version 1 always stored the path of a file. */
  function FileLayout(version: nat): Layout {
    [KindU64, KindU64, KindString, if version >= 2 then KindPath else KindString, KindU64, KindU64, KindU32,
     KindOptI64, KindOptI64, KindOptI64]
  }

  function Body(version: nat): Layout {
    [KindList(VOLUME, 34), KindList(SESSION, 41), KindList(DIRECTORY, 41),
     KindList(FileLayout(version), if version >= 2 then 48 else 57), KindList(LINEAGE, 34),
     KindList([KindList(CHANGE, 10)], 8)]
  }

  // ---------- Fields by position ----------

  predicate Fits(layout: Layout, row: seq<Value>) {
    |layout| == |row| && forall i :: 0 <= i < |row| ==> Has(layout[i], row[i])
  }

  lemma {:induction false} FitsIsHasFields(layout: Layout, row: seq<Value>)
    ensures Fits(layout, row) <==> HasFields(layout, row)
    decreases layout
  {
    if layout != [] && row != [] {
      FitsIsHasFields(layout[1..], row[1..]);
      assert forall i :: 0 < i < |layout| ==> layout[i] == layout[1..][i - 1];
      assert forall i :: 0 < i < |row| ==> row[i] == row[1..][i - 1];
    }
  }

  predicate AllFit(layout: Layout, rows: seq<seq<Value>>) {
    forall i :: 0 <= i < |rows| ==> Fits(layout, rows[i])
  }

  lemma {:induction false} AllFitIsHasRows(layout: Layout, rows: seq<seq<Value>>)
    ensures AllFit(layout, rows) <==> HasRows(layout, rows)
    decreases |rows|
  {
    if rows != [] {
      FitsIsHasFields(layout, rows[0]);
      AllFitIsHasRows(layout, rows[1..]);
      assert forall i :: 0 < i < |rows| ==> rows[i] == rows[1..][i - 1];
    }
  }

  // ---------- Records and rows ----------

  function SystemCode(k: FileSystemKind): nat {
    match k case UnknownSystem => 0 case Ntfs => 1 case Refs => 2 case Fat32 => 3 case ExFat => 4
  }

  function SystemOf(n: nat): FileSystemKind {
    match n case 1 => Ntfs case 2 => Refs case 3 => Fat32 case 4 => ExFat case _ => UnknownSystem
  }

  function StateCode(s: ScanState): nat {
    match s case Idle => 0 case Initializing => 1 case Scanning => 2 case Indexing => 3
            case Completed => 4 case Failed => 5 case Cancelled => 6
  }

  function StateOf(n: nat): ScanState {
    match n case 0 => Idle case 1 => Initializing case 2 => Scanning case 3 => Indexing
            case 4 => Completed case 5 => Failed case _ => Cancelled
  }

  function ChangeCode(k: ChangeKind): nat {
    match k case Added => 0 case Removed => 1 case Modified => 2 case Renamed => 3 case Moved => 4
  }

  function ChangeOf(n: nat): ChangeKind {
    match n case 0 => Added case 1 => Removed case 2 => Modified case 3 => Renamed case _ => Moved
  }

  function VolumeRow(v: Volume): seq<Value> {
    [Number(v.id), Text(v.mountPoint), OptText(v.volumeLabel), Number(SystemCode(v.fileSystem)),
     Number(v.totalBytes), Number(v.freeBytes), Number(v.root)]
  }

  function VolumeOf(row: seq<Value>): Volume
    requires Fits(VOLUME, row)
  {
    VolumeRecord(row[0].n, row[1].t, row[2].o, SystemOf(row[3].n), row[4].n, row[5].n, row[6].n)
  }

  function SessionRow(s: Session): seq<Value> {
    [Number(s.id), Number(s.volume), Text(s.rootPath), Number(StateCode(s.state)),
     Number(s.completedItems), Number(s.totalItems), Number(s.completedBytes), Number(s.totalBytes)]
  }

  function SessionOf(row: seq<Value>): Session
    requires Fits(SESSION, row)
  {
    ScanSession(row[0].n, row[1].n, row[2].t, StateOf(row[3].n), row[4].n, row[5].n, row[6].n, row[7].n)
  }

  function DirectoryRow(d: Directory): seq<Value> {
    [Number(d.id), OptNumber(d.parent), Text(d.name), Text(d.fullPath),
     Number(d.directBytes), Number(d.totalBytes), Number(d.directEntries), Number(d.totalEntries)]
  }

  function DirectoryOf(row: seq<Value>): Directory
    requires Fits(DIRECTORY, row)
  {
    var parent: Option<U64> := match row[1].m case Some(p) => Some(p) case None => None;
    DirectoryRecord(row[0].n, parent, row[2].t, row[3].t, row[4].n, row[5].n, row[6].n, row[7].n)
  }

  function FileRow(f: File): seq<Value> {
    [Number(f.id), Number(f.parent), Text(f.name), Text(f.fullPath), Number(f.size), Number(f.allocation),
     Number(f.attributes), OptNumber(f.created), OptNumber(f.modified), OptNumber(f.accessed)]
  }

  function TimeOf(o: Option<int>): Option<I64>
    requires o.Some? ==> IsI64(o.value)
  {
    match o case Some(n) => Some(n) case None => None
  }

  function FileOf(row: seq<Value>): File
    requires Fits(FileLayout(1), row) || Fits(FileLayout(2), row)
  {
    FileRecord(row[0].n, row[1].n, row[2].t, row[3].t, row[4].n, row[5].n, row[6].n,
               TimeOf(row[7].m), TimeOf(row[8].m), TimeOf(row[9].m))
  }

  function LineageRow(l: Lineage): seq<Value> {
    [Number(l.file), Number(l.previousParent), Number(l.currentParent), Text(l.previousPath), Text(l.currentPath),
     Flag(l.renamed), Flag(l.moved)]
  }

  function LineageOf(row: seq<Value>): Lineage
    requires Fits(LINEAGE, row)
  {
    FileLineage(row[0].n, row[1].n, row[2].n, row[3].t, row[4].t, row[5].b, row[6].b)
  }

  function ChangeRow(c: Change): seq<Value> {
    [Number(c.file), Number(ChangeCode(c.kind)), OptText(c.previousPath), OptText(c.currentPath)]
  }

  function ChangeRecordOf(row: seq<Value>): Change
    requires Fits(CHANGE, row)
  {
    FileChange(row[0].n, ChangeOf(row[1].n), row[2].o, row[3].o)
  }

  // ---------- Tables ----------

  function RowsOf<A>(items: seq<A>, row: A -> seq<Value>): (rows: seq<seq<Value>>)
    ensures |rows| == |items| && forall i :: 0 <= i < |items| ==> rows[i] == row(items[i])
  {
    seq(|items|, i requires 0 <= i < |items| => row(items[i]))
  }

  function ItemsOf<A>(layout: Layout, rows: seq<seq<Value>>, item: seq<Value> --> A): (items: seq<A>)
    requires AllFit(layout, rows) && forall row :: Fits(layout, row) ==> item.requires(row)
    ensures |items| == |rows| && forall i :: 0 <= i < |rows| ==> items[i] == item(rows[i])
  {
    seq(|rows|, i requires 0 <= i < |rows| => item(rows[i]))
  }

  predicate KeyedBy<A>(m: map<U64, A>, key: A -> U64) {
    forall k <- m :: key(m[k]) == k
  }

  lemma SortedKeyAt<A>(m: map<U64, A>, key: A -> U64, i: nat)
    requires KeyedBy(m, key) && i < |m|
    ensures key(SortedValues(m)[i]) == SortedKeys(m.Keys)[i] && SortedKeys(m.Keys)[i] in m
    ensures SortedValues(m)[i] == m[SortedKeys(m.Keys)[i]]
  {
    SortedKeysAre(m.Keys);
    assert SortedKeys(m.Keys)[i] in SortedKeys(m.Keys);
  }

  /** Listing a table in order and collecting the list gives the table. */
  lemma CollectedIsTable<A>(m: map<U64, A>, key: A -> U64)
    requires KeyedBy(m, key)
    ensures Collected(SortedValues(m), key) == m
  {
    hide Collected, SortedKeys, SortedValues, KeyedBy;
    var items, keys := SortedValues(m), SortedKeys(m.Keys);
    SortedKeysAre(m.Keys);
    forall i | 0 <= i < |items| ensures key(items[i]) == keys[i] && keys[i] in m && items[i] == m[keys[i]] {
      SortedKeyAt(m, key, i);
    }
    forall k: U64
      ensures k in Collected(items, key) <==> k in m
      ensures k in m ==> Collected(items, key)[k] == m[k]
    {
      CollectedAt(items, key, k);
      if k in m {
        assert k in keys;
      }
    }
  }

  /** A list of all records of a table, in the order of their keys. */
  ghost predicate SortedSlice<A>(items: seq<A>, m: map<U64, A>, key: A -> U64) {
    && KeyedBy(m, key)
    && (forall i, j :: 0 <= i < j < |items| ==> key(items[i]) < key(items[j]))
    && (forall i :: 0 <= i < |items| ==> key(items[i]) in m && m[key(items[i])] == items[i])
    && (forall k <- m :: m[k] in items)
  }

  lemma SortedSliceIsUnique<A>(items: seq<A>, m: map<U64, A>, key: A -> U64)
    requires SortedSlice(items, m, key)
    ensures items == SortedValues(m)
  {
    hide SortedValues, SortedKeys;
    var keys := seq(|items|, i requires 0 <= i < |items| => key(items[i]));
    SortedKeysAre(m.Keys);
    forall k: U64 ensures k in keys <==> k in SortedKeys(m.Keys) {
      if k in m {
        var i :| 0 <= i < |items| && items[i] == m[k];
        assert keys[i] == k;
      }
    }
    AscendingIsUnique(keys, SortedKeys(m.Keys));
    forall i | 0 <= i < |items| ensures items[i] == SortedValues(m)[i] {
      SortedKeyAt(m, key, i);
    }
  }

  // ---------- The whole file ----------

  /** What is written of the lists of records, whoever sorted them. */
  function BodyOfLists(volumes: seq<Volume>, sessions: seq<Session>, directories: seq<Directory>, files: seq<File>,
                       lineages: seq<Lineage>, fileChanges: seq<seq<Change>>): seq<Value> {
    [Rows(RowsOf(volumes, VolumeRow)), Rows(RowsOf(sessions, SessionRow)), Rows(RowsOf(directories, DirectoryRow)),
     Rows(RowsOf(files, FileRow)), Rows(RowsOf(lineages, LineageRow)), Rows(RowsOf(fileChanges, ChangeSetRow))]
  }

  function ChangeSetRow(changes: seq<Change>): seq<Value> {
    [Rows(RowsOf(changes, ChangeRow))]
  }

  function BodyOf(s: State): seq<Value> {
    BodyOfLists(SortedValues(s.volumes), SortedValues(s.sessions), SortedValues(s.directories), SortedValues(s.files),
                s.lineages, s.fileChanges)
  }

  function Header(): Data {
    MAGIC + PutLe(VERSION, 4)
  }

  /** Every text and every table has a length that 64 bits can hold, as every length in memory does. */
  predicate Sized(body: seq<Value>) {
    HasFields(Body(VERSION), body)
  }

  function Encode(s: State): Data
    requires Sized(BodyOf(s))
  {
    Header() + PutFields(Body(VERSION), BodyOf(s))
  }

  const CHANGES: Layout := [KindList(CHANGE, 10)]

  function ChangeSetOf(row: seq<Value>): seq<Change>
    requires Fits(CHANGES, row)
  {
    AllFitIsHasRows(CHANGE, row[0].rows);
    ItemsOf(CHANGE, row[0].rows, ChangeRecordOf)
  }

  lemma BodyTablesFit(version: nat, body: seq<Value>)
    requires (version == 1 || version == 2) && Fits(Body(version), body)
    ensures |body| == 6 && forall i :: 0 <= i < 6 ==> body[i].Rows?
    ensures AllFit(VOLUME, body[0].rows) && AllFit(SESSION, body[1].rows) && AllFit(DIRECTORY, body[2].rows)
    ensures AllFit(FileLayout(version), body[3].rows) && AllFit(LINEAGE, body[4].rows) && AllFit(CHANGES, body[5].rows)
  {
    hide AllFit, HasRows;
    assert forall i :: 0 <= i < 6 ==> Has(Body(version)[i], body[i]);
    AllFitIsHasRows(VOLUME, body[0].rows);
    AllFitIsHasRows(SESSION, body[1].rows);
    AllFitIsHasRows(DIRECTORY, body[2].rows);
    AllFitIsHasRows(FileLayout(version), body[3].rows);
    AllFitIsHasRows(LINEAGE, body[4].rows);
    AllFitIsHasRows(CHANGES, body[5].rows);
  }

  function StateFrom(version: nat, body: seq<Value>): State
    requires (version == 1 || version == 2) && Fits(Body(version), body)
  {
    BodyTablesFit(version, body);
    hide Fits, AllFit, HasRows, HasFields;
    State(Collected(ItemsOf(VOLUME, body[0].rows, VolumeOf), (v: Volume) => v.id),
          Collected(ItemsOf(SESSION, body[1].rows, SessionOf), (s: Session) => s.id),
          Collected(ItemsOf(DIRECTORY, body[2].rows, DirectoryOf), (d: Directory) => d.id),
          Collected(ItemsOf(FileLayout(version), body[3].rows, FileOf), (f: File) => f.id),
          ItemsOf(LINEAGE, body[4].rows, LineageOf),
          ItemsOf(CHANGES, body[5].rows, ChangeSetOf),
          false)
  }

  function Decode(d: Data): Parsed<State> {
    match Take(d, 4)
    case Err(e) => Err(e)
    case Ok((magic, afterMagic)) =>
      if magic != MAGIC then Err(BadMagic)
      else
        match GetNumber(afterMagic, 4)
        case Err(e) => Err(e)
        case Ok((version, afterHeader)) =>
          if version != 1 && version != 2 then Err(BadVersion)
          else
            match GetFields(Body(version), afterHeader)
            case Err(e) => Err(e)
            case Ok((body, rest)) =>
              GetFieldsHas(Body(version), afterHeader);
              FitsIsHasFields(Body(version), body);
              Ok((StateFrom(version, body), rest))
  }
}
