/** A snapshot that was written completely is read back as it was, and one that was cut off is never accepted. */
module SnapshotLaws {
  import opened Basics
  import opened Records
  import opened SortedMaps
  import opened Bytes
  import opened Fields
  import opened FieldLaws
  import opened Snapshot

  // ---------- The limits for lists are fair ----------

  lemma LeastSteps(layout: Layout)
    ensures forall i {:trigger layout[i..]} :: 0 <= i < |layout| ==>
              LeastFields(layout[i..]) == LeastBytes(layout[i]) + LeastFields(layout[i + 1..])
    ensures LeastFields(layout) == LeastFields(layout[0..]) && LeastFields(layout[|layout|..]) == 0
  {
    assert layout[0..] == layout;
    forall i | 0 <= i < |layout|
      ensures LeastFields(layout[i..]) == LeastBytes(layout[i]) + LeastFields(layout[i + 1..])
    {
      assert layout[i..][1..] == layout[i + 1..];
    }
  }

  lemma {:induction false} AtomsAreFair(layout: Layout)
    requires forall k <- layout :: !k.KindList?
    ensures FairLayout(layout)
  {
    if layout != [] {
      AtomsAreFair(layout[1..]);
    }
  }

  lemma FairLists(layout: Layout, minimum: nat)
    requires (forall k <- layout :: !k.KindList?) && minimum <= LeastFields(layout)
    ensures Fair(KindList(layout, minimum))
  {
    AtomsAreFair(layout);
  }

  lemma LeastVolume()
    ensures LeastFields(VOLUME) == 42
  {
    LeastSteps(VOLUME);
  }

  lemma LeastSession()
    ensures LeastFields(SESSION) == 57
  {
    LeastSteps(SESSION);
  }

  lemma LeastDirectory()
    ensures LeastFields(DIRECTORY) == 57
  {
    LeastSteps(DIRECTORY);
  }

  lemma LeastFile(version: nat)
    ensures LeastFields(FileLayout(version)) == if version >= 2 then 48 else 55
  {
    hide LeastFields;
    LeastSteps(FileLayout(version));
  }

  lemma LeastLineage()
    ensures LeastFields(LINEAGE) == 42
  {
    LeastSteps(LINEAGE);
  }

  lemma LeastChange()
    ensures LeastFields(CHANGE) == 11
  {
    LeastSteps(CHANGE);
  }

  lemma {:induction false} FairWhenEach(layout: Layout)
    requires forall k <- layout :: Fair(k)
    ensures FairLayout(layout)
    decreases layout
  {
    if layout != [] {
      assert layout[0] in layout;
      FairWhenEach(layout[1..]);
    }
  }

  lemma TablesAreFair()
    ensures Fair(KindList(VOLUME, 34)) && Fair(KindList(SESSION, 41)) && Fair(KindList(DIRECTORY, 41))
    ensures Fair(KindList(FileLayout(VERSION), 48)) && Fair(KindList(LINEAGE, 34)) && Fair(KindList(CHANGE, 10))
  {
    hide Fair, LeastFields;
    LeastVolume();
    FairLists(VOLUME, 34);
    LeastSession();
    FairLists(SESSION, 41);
    LeastDirectory();
    FairLists(DIRECTORY, 41);
    LeastFile(VERSION);
    FairLists(FileLayout(VERSION), 48);
    LeastLineage();
    FairLists(LINEAGE, 34);
    LeastChange();
    FairLists(CHANGE, 10);
  }

  lemma BodyIsFair()
    ensures FairLayout(Body(VERSION))
  {
    hide Fair, FairLayout, LeastFields, FileLayout;
    TablesAreFair();
    ChangesAreFair();
    FairWhenEach(Body(VERSION));
  }

  lemma ChangesAreFair()
    requires Fair(KindList(CHANGE, 10))
    ensures Fair(KindList(CHANGES, 8))
  {
    hide LeastFields;
    LeastSteps(CHANGES);
    assert CHANGES[1..] == [];
  }

  // ---------- The state comes back ----------

  lemma ItemsComeBack<A(!new)>(layout: Layout, items: seq<A>, row: A -> seq<Value>, item: seq<Value> --> A)
    requires AllFit(layout, RowsOf(items, row)) && forall r :: Fits(layout, r) ==> item.requires(r)
    requires forall a: A :: Fits(layout, row(a)) ==> item(row(a)) == a
    ensures ItemsOf(layout, RowsOf(items, row), item) == items
  {
    hide Fits;
  }

  /** The keys of the tables are the ids of their records. */
  ghost predicate Keyed(s: State) {
    && KeyedBy(s.volumes, (v: Volume) => v.id) && KeyedBy(s.sessions, (x: Session) => x.id)
    && KeyedBy(s.directories, (d: Directory) => d.id) && KeyedBy(s.files, (f: File) => f.id)
  }

  lemma ChangeSetComesBack(changes: seq<Change>)
    requires Fits(CHANGES, ChangeSetRow(changes))
    ensures ChangeSetOf(ChangeSetRow(changes)) == changes
  {
    hide AllFit, HasRows;
    assert Has(CHANGES[0], ChangeSetRow(changes)[0]);
    AllFitIsHasRows(CHANGE, RowsOf(changes, ChangeRow));
    ItemsComeBack(CHANGE, changes, ChangeRow, ChangeRecordOf);
  }

  lemma VolumeRowComesBack(v: Volume)
    requires Fits(VOLUME, VolumeRow(v))
    ensures VolumeOf(VolumeRow(v)) == v
  {
  }

  lemma VolumesComeBack(m: map<U64, Volume>)
    requires KeyedBy(m, (v: Volume) => v.id) && AllFit(VOLUME, RowsOf(SortedValues(m), VolumeRow))
    ensures ItemsOf(VOLUME, RowsOf(SortedValues(m), VolumeRow), VolumeOf) == SortedValues(m)
    ensures Collected(SortedValues(m), (v: Volume) => v.id) == m
  {
    forall v: Volume | Fits(VOLUME, VolumeRow(v)) ensures VolumeOf(VolumeRow(v)) == v {
      VolumeRowComesBack(v);
    }
    hide Fits, AllFit, SortedValues, Collected, KeyedBy;
    CollectedIsTable(m, (v: Volume) => v.id);
    ItemsComeBack(VOLUME, SortedValues(m), VolumeRow, VolumeOf);
  }

  lemma SessionRowComesBack(s: Session)
    requires Fits(SESSION, SessionRow(s))
    ensures SessionOf(SessionRow(s)) == s
  {
  }

  lemma SessionsComeBack(m: map<U64, Session>)
    requires KeyedBy(m, (s: Session) => s.id) && AllFit(SESSION, RowsOf(SortedValues(m), SessionRow))
    ensures ItemsOf(SESSION, RowsOf(SortedValues(m), SessionRow), SessionOf) == SortedValues(m)
    ensures Collected(SortedValues(m), (s: Session) => s.id) == m
  {
    forall s: Session | Fits(SESSION, SessionRow(s)) ensures SessionOf(SessionRow(s)) == s {
      SessionRowComesBack(s);
    }
    hide Fits, AllFit, SortedValues, Collected, KeyedBy;
    CollectedIsTable(m, (s: Session) => s.id);
    ItemsComeBack(SESSION, SortedValues(m), SessionRow, SessionOf);
  }

  lemma DirectoryRowComesBack(d: Directory)
    requires Fits(DIRECTORY, DirectoryRow(d))
    ensures DirectoryOf(DirectoryRow(d)) == d
  {
  }

  lemma DirectoriesComeBack(m: map<U64, Directory>)
    requires KeyedBy(m, (d: Directory) => d.id) && AllFit(DIRECTORY, RowsOf(SortedValues(m), DirectoryRow))
    ensures ItemsOf(DIRECTORY, RowsOf(SortedValues(m), DirectoryRow), DirectoryOf) == SortedValues(m)
    ensures Collected(SortedValues(m), (d: Directory) => d.id) == m
  {
    forall d: Directory | Fits(DIRECTORY, DirectoryRow(d)) ensures DirectoryOf(DirectoryRow(d)) == d {
      DirectoryRowComesBack(d);
    }
    hide Fits, AllFit, SortedValues, Collected, KeyedBy;
    CollectedIsTable(m, (d: Directory) => d.id);
    ItemsComeBack(DIRECTORY, SortedValues(m), DirectoryRow, DirectoryOf);
  }

  lemma FileRowComesBack(f: File)
    requires Fits(FileLayout(VERSION), FileRow(f))
    ensures FileOf(FileRow(f)) == f
  {
  }

  lemma FilesComeBack(m: map<U64, File>)
    requires KeyedBy(m, (f: File) => f.id) && AllFit(FileLayout(VERSION), RowsOf(SortedValues(m), FileRow))
    ensures ItemsOf(FileLayout(VERSION), RowsOf(SortedValues(m), FileRow), FileOf) == SortedValues(m)
    ensures Collected(SortedValues(m), (f: File) => f.id) == m
  {
    forall f: File | Fits(FileLayout(VERSION), FileRow(f)) ensures FileOf(FileRow(f)) == f {
      FileRowComesBack(f);
    }
    hide Fits, AllFit, SortedValues, Collected, KeyedBy;
    CollectedIsTable(m, (f: File) => f.id);
    ItemsComeBack(FileLayout(VERSION), SortedValues(m), FileRow, FileOf);
  }

  lemma LineageRowComesBack(l: Lineage)
    requires Fits(LINEAGE, LineageRow(l))
    ensures LineageOf(LineageRow(l)) == l
  {
  }

  lemma HistoryComesBack(lineages: seq<Lineage>, fileChanges: seq<seq<Change>>)
    requires AllFit(LINEAGE, RowsOf(lineages, LineageRow)) && AllFit(CHANGES, RowsOf(fileChanges, ChangeSetRow))
    ensures ItemsOf(LINEAGE, RowsOf(lineages, LineageRow), LineageOf) == lineages
    ensures ItemsOf(CHANGES, RowsOf(fileChanges, ChangeSetRow), ChangeSetOf) == fileChanges
  {
    forall l: Lineage | Fits(LINEAGE, LineageRow(l)) ensures LineageOf(LineageRow(l)) == l {
      LineageRowComesBack(l);
    }
    forall c: seq<Change> | Fits(CHANGES, ChangeSetRow(c)) ensures ChangeSetOf(ChangeSetRow(c)) == c {
      ChangeSetComesBack(c);
    }
    hide Fits, AllFit;
    ItemsComeBack(LINEAGE, lineages, LineageRow, LineageOf);
    ItemsComeBack(CHANGES, fileChanges, ChangeSetRow, ChangeSetOf);
  }

  lemma BodyRowsFit(s: State)
    requires Sized(BodyOf(s))
    ensures Fits(Body(VERSION), BodyOf(s))
    ensures AllFit(VOLUME, RowsOf(SortedValues(s.volumes), VolumeRow))
    ensures AllFit(SESSION, RowsOf(SortedValues(s.sessions), SessionRow))
    ensures AllFit(DIRECTORY, RowsOf(SortedValues(s.directories), DirectoryRow))
    ensures AllFit(FileLayout(VERSION), RowsOf(SortedValues(s.files), FileRow))
    ensures AllFit(LINEAGE, RowsOf(s.lineages, LineageRow)) && AllFit(CHANGES, RowsOf(s.fileChanges, ChangeSetRow))
  {
    hide SortedValues, HasFields, HasRows, AllFit;
    var body := BodyOf(s);
    FitsIsHasFields(Body(VERSION), body);
    AllFitIsHasRows(VOLUME, body[0].rows);
    AllFitIsHasRows(SESSION, body[1].rows);
    AllFitIsHasRows(DIRECTORY, body[2].rows);
    AllFitIsHasRows(FileLayout(VERSION), body[3].rows);
    AllFitIsHasRows(LINEAGE, body[4].rows);
    AllFitIsHasRows(CHANGES, body[5].rows);
  }

  lemma StateComesBack(s: State)
    requires Keyed(s) && Sized(BodyOf(s))
    ensures Fits(Body(VERSION), BodyOf(s)) && StateFrom(VERSION, BodyOf(s)) == s.(committed := false)
  {
    hide SortedValues, Collected, Sized, AllFit, KeyedBy, ItemsOf, Fits;
    BodyRowsFit(s);
    VolumesComeBack(s.volumes);
    SessionsComeBack(s.sessions);
    DirectoriesComeBack(s.directories);
    FilesComeBack(s.files);
    HistoryComesBack(s.lineages, s.fileChanges);
  }

  // ---------- Round trip ----------

  function DecodeBody(version: nat, d: Data): Parsed<State>
    requires version == 1 || version == 2
  {
    match GetFields(Body(version), d)
    case Err(e) => Err(e)
    case Ok((body, rest)) =>
      GetFieldsHas(Body(version), d);
      FitsIsHasFields(Body(version), body);
      Ok((StateFrom(version, body), rest))
  }

  lemma HeaderIsRead(d: Data)
    ensures Decode(Header() + d) == DecodeBody(VERSION, d)
  {
    hide GetFields, StateFrom, GetNumber, PutLe, Body;
    Associates(MAGIC, PutLe(VERSION, 4), d);
    TakeFront(MAGIC, PutLe(VERSION, 4) + d);
    Widths();
    NumberRoundTrip(VERSION, 4, d);
  }

  /** A snapshot comes back as the state that was written, except that it does not count as committed, and exactly
      up to its last byte; one with a text that is too long is refused. */
  lemma SnapshotRoundTrip(s: State, tail: Data)
    requires Keyed(s) && Sized(BodyOf(s))
    ensures if ShortFields(Body(VERSION), BodyOf(s)) then Decode(Encode(s) + tail) == Ok((s.(committed := false), tail))
            else Decode(Encode(s) + tail).Err?
  {
    hide GetFields, PutFields, StateFrom, BodyOf, Body, HasFields, ShortFields, Decode;
    BodyIsFair();
    var d := PutFields(Body(VERSION), BodyOf(s));
    Associates(Header(), d, tail);
    HeaderIsRead(d + tail);
    FieldsRoundTrip(Body(VERSION), BodyOf(s), tail);
    StateComesBack(s);
  }

  // ---------- Cut-off files ----------

  lemma DecodeStable(d: Data, extra: Data)
    ensures Stable(Decode(d), Decode(d + extra), extra)
  {
    hide GetFields, StateFrom, GetNumber, Body;
    TakeStable(d, extra, 4);
    if Take(d, 4).Ok? {
      var afterMagic := Take(d, 4).value.1;
      NumberStable(afterMagic, extra, 4);
      if GetNumber(afterMagic, 4).Ok? {
        var (version, afterHeader) := GetNumber(afterMagic, 4).value;
        FieldsStable(Body(version), afterHeader, extra);
      }
    }
  }

  /** No part of a snapshot short of the whole decodes. */
  lemma CutOffSnapshotFails(s: State, length: nat)
    requires Keyed(s) && Sized(BodyOf(s)) && length < |Encode(s)|
    ensures Decode(Encode(s)[..length]).Err?
  {
    hide Decode, Encode, ShortFields, BodyOf, Sized;
    var whole := Encode(s);
    var extra := whole[length..];
    assert extra != [];
    assert whole[..length] + extra == whole && whole + [] == whole;
    DecodeStable(whole[..length], extra);
    SnapshotRoundTrip(s, []);
  }

  // ---------- Two writers, one file ----------

  /** Lists that are already in order give the same bytes as the tables they list. */
  lemma SortedRecordsAreIdentical(s: State, volumes: seq<Volume>, sessions: seq<Session>, directories: seq<Directory>,
                                  files: seq<File>)
    requires SortedSlice(volumes, s.volumes, (v: Volume) => v.id)
             && SortedSlice(sessions, s.sessions, (x: Session) => x.id)
    requires SortedSlice(directories, s.directories, (d: Directory) => d.id)
             && SortedSlice(files, s.files, (f: File) => f.id)
    ensures BodyOfLists(volumes, sessions, directories, files, s.lineages, s.fileChanges) == BodyOf(s)
  {
    SortedSliceIsUnique(volumes, s.volumes, (v: Volume) => v.id);
    SortedSliceIsUnique(sessions, s.sessions, (x: Session) => x.id);
    SortedSliceIsUnique(directories, s.directories, (d: Directory) => d.id);
    SortedSliceIsUnique(files, s.files, (f: File) => f.id);
  }

  // ---------- Version 1 ----------

  lemma {:induction false} LeastSize(layout: Layout, vs: seq<Value>)
    requires HasFields(layout, vs)
             && forall i ::
                  0 <= i < |layout| ==> Has(layout[i], vs[i]) && |Put(layout[i], vs[i])| == LeastBytes(layout[i])
    ensures |PutFields(layout, vs)| == LeastFields(layout)
    decreases layout
  {
    if layout != [] {
      assert forall i :: 0 <= i < |layout| - 1 ==> layout[1..][i] == layout[i + 1] && vs[1..][i] == vs[i + 1];
      LeastSize(layout[1..], vs[1..]);
    }
  }

  const NO_TEXT: Utf8 := []

  const EMPTY_FILE: File := FileRecord(0, 0, NO_TEXT, NO_TEXT, 0, 0, 0, None, None, None)

  ghost predicate LeastValue(k: Kind, v: Value) {
    Has(k, v) && Short(k, v) && |Put(k, v)| == LeastBytes(k)
  }

  lemma EmptyFieldsAreLeast()
    ensures LeastValue(KindU64, Number(0)) && LeastValue(KindU32, Number(0)) && LeastValue(KindString, Text(NO_TEXT))
    ensures LeastValue(KindOptI64, OptNumber(None))
  {
  }

  lemma EmptyFileFits()
    ensures HasFields(FileLayout(1), FileRow(EMPTY_FILE)) && ShortFields(FileLayout(1), FileRow(EMPTY_FILE))
    ensures |PutFields(FileLayout(1), FileRow(EMPTY_FILE))| == 55
  {
    var layout, row := FileLayout(1), FileRow(EMPTY_FILE);
    EmptyFieldsAreLeast();
    hide PutFields, HasFields, LeastFields, ShortFields, LeastValue, Has, Put, Short, LeastBytes;
    forall i | 0 <= i < |row| ensures LeastValue(layout[i], row[i]) {
    }
    LeastValuesFit(layout, row);
    LeastFile(1);
  }

  lemma LeastValuesFit(layout: Layout, row: seq<Value>)
    requires |layout| == |row| && forall i :: 0 <= i < |row| ==> LeastValue(layout[i], row[i])
    ensures HasFields(layout, row) && ShortFields(layout, row) && |PutFields(layout, row)| == LeastFields(layout)
  {
    hide PutFields, HasFields, LeastFields, ShortFields, Has, Put, Short, LeastBytes;
    FitsIsHasFields(layout, row);
    LeastSize(layout, row);
    ShortWhenEach(layout, row);
  }

  lemma {:induction false} ShortWhenEach(layout: Layout, vs: seq<Value>)
    requires HasFields(layout, vs) && forall i :: 0 <= i < |layout| ==> Has(layout[i], vs[i]) && Short(layout[i], vs[i])
    ensures ShortFields(layout, vs)
    decreases layout
  {
    if layout != [] {
      assert forall i :: 0 <= i < |layout| - 1 ==> layout[1..][i] == layout[i + 1] && vs[1..][i] == vs[i + 1];
      ShortWhenEach(layout[1..], vs[1..]);
    }
  }

  lemma {:induction false} SameRowsFit(layout: Layout, row: seq<Value>, count: nat)
    requires HasFields(layout, row) && ShortFields(layout, row)
    ensures HasRows(layout, seq(count, _ => row)) && ShortRows(layout, seq(count, _ => row))
    ensures |PutRows(layout, seq(count, _ => row))| == count * |PutFields(layout, row)|
    decreases count
  {
    hide HasFields, ShortFields, PutFields;
    var rows := seq(count, _ => row);
    if count > 0 {
      SameRowsFit(layout, row, count - 1);
      assert rows[1..] == seq(count - 1, _ => row) && rows[0] == row;
      OneMore(count - 1, |PutFields(layout, row)|);
    }
  }

  /** Version 1 asks for 57 bytes a file, but an empty record takes 55: such files are read back exactly when two
      bytes for each of them follow in the rest of the snapshot. */
  lemma VersionOneReadsExactlyWhen(count: U64, tail: Data)
    ensures var rows := seq(count, _ => FileRow(EMPTY_FILE));
            && HasRows(FileLayout(1), rows)
            && Get(Body(1)[3], PutLe(count, 8) + (PutRows(FileLayout(1), rows) + tail)) ==
               if 2 * count <= |tail| then Ok((Rows(rows), tail)) else Err(TooManyItems)
  {
    hide HasRows, ShortRows, PutRows, FileRow, FileLayout, HasFields, ShortFields, PutFields, Get;
    var rows := seq(count, _ => FileRow(EMPTY_FILE));
    EmptyFileFits();
    SameRowsFit(FileLayout(1), FileRow(EMPTY_FILE), count);
    VersionOneIsFair();
    ListReadsExactlyWhen(FileLayout(1), 57, rows, tail);
  }

  lemma VersionOneIsFair()
    ensures FairLayout(FileLayout(1))
  {
    AtomsAreFair(FileLayout(1));
  }
}
