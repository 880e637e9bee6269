/** The catalog as delimited text: one header row, then one row for each directory and each file. */
module CatalogExport {
  import opened Basics
  import opened Paths
  import opened Delimited

  // ---------- Numbers ----------

  function Digit(d: nat): char
    requires d < 10
  {
    ('0' as int + d) as char
  }

  function Decimal(v: nat): Text {
    if v < 10 then [Digit(v)] else Decimal(v / 10) + [Digit(v % 10)]
  }

  predicate IsDigit(c: char) {
    '0' <= c <= '9'
  }

  /** What `str::parse` makes of a run of digits. */
  function Value(t: Text): nat
    requires forall c <- t :: IsDigit(c)
  {
    if t == [] then 0
    else
      assert IsDigit(t[|t| - 1]) by { assert t[|t| - 1] in t; }
      10 * Value(t[..|t| - 1]) + (t[|t| - 1] as int - '0' as int)
  }

  lemma {:induction false} DecimalIsDigits(v: nat)
    ensures Decimal(v) != [] && forall c <- Decimal(v) :: IsDigit(c)
  {
    if v >= 10 {
      DecimalIsDigits(v / 10);
    }
  }

  /** Printing a number and parsing it gives the number. */
  lemma {:induction false} DecimalRoundTrip(v: nat)
    ensures (forall c <- Decimal(v) :: IsDigit(c)) && Value(Decimal(v)) == v
  {
    DecimalIsDigits(v);
    if v < 10 {
      assert Value([]) == 0 && Decimal(v)[..0] == [];
    } else {
      DecimalRoundTrip(v / 10);
      var t := Decimal(v);
      assert t[..|t| - 1] == Decimal(v / 10);
    }
  }

  lemma {:induction false} DecimalFits(v: nat, n: nat)
    requires n > 0 && v < Pow10(n)
    ensures |Decimal(v)| <= n
  {
    if v >= 10 {
      DecimalFits(v / 10, n - 1);
    }
  }

  lemma DecimalStep(v: nat)
    ensures v < 10 ==> Decimal(v) == [Digit(v % 10)] && v / 10 == 0
    ensures v >= 10 ==> Decimal(v) == Decimal(v / 10) + [Digit(v % 10)] && |Decimal(v / 10)| >= 1 && v / 10 > 0
  {
    DecimalIsDigits(v / 10);
  }

  function Pow10(n: nat): nat {
    if n == 0 then 1 else 10 * Pow10(n - 1)
  }

  /** Fills a buffer of twenty digits from its end; no `u64` needs more. */
  method CsvInteger(row: Text, number: U64) returns (out: Text)
    ensures out == row + Decimal(number)
  {
    var digits := new char[20](_ => '0');
    var value: U64, start := number, 20;
    assert Pow10(4) == 10_000 && Pow10(8) == 10_000 * Pow10(4) && Pow10(12) == 10_000 * Pow10(8);
    assert Pow10(16) == 10_000 * Pow10(12) && Pow10(20) == 10_000 * Pow10(16);
    DecimalFits(number, 20);
    while true
      invariant 0 < start <= 20 && |Decimal(value)| <= start
      invariant Decimal(value) + digits[start..] == Decimal(number)
      decreases value
    {
      DecimalStep(value);
      hide Decimal, Digit;
      ghost var tail := digits[start..];
      start := start - 1;
      digits[start] := Digit(value % 10);
      assert digits[start..] == [Digit(value % 10)] + tail;
      if value / 10 == 0 {
        break;
      }
      value := value / 10;
    }
    out := row + digits[start..];
  }

  // ---------- Times ----------

  const TICKS_PER_SECOND := 10_000_000
  const EPOCH_SECONDS := 11_644_473_600
  const LEGACY_FIRST := 253_402_300_800
  const LEGACY_LAST := 2_650_467_743_999_999_999
  const I64_MAX := 0x7FFF_FFFF_FFFF_FFFF

  /** Windows file times count 100 ns ticks from 1601; the export writes whole Unix seconds. */
  function UnixSeconds(ticks: int): int {
    ticks / TICKS_PER_SECOND - EPOCH_SECONDS
  }

  function UnixToTicks(seconds: int): Option<int> {
    var ticks := (seconds + EPOCH_SECONDS) * TICKS_PER_SECOND;
    if seconds + EPOCH_SECONDS <= I64_MAX && 0 <= ticks <= I64_MAX then Some(ticks) else None
  }

  /** Numbers beyond the year 9999 are taken for ticks that earlier exports labelled as seconds. */
  function ImportTimestamp(value: int): Option<int> {
    if LEGACY_FIRST <= value <= LEGACY_LAST then Some(value) else UnixToTicks(value)
  }

  /** A time survives export and import, to the second, exactly when it lies between 1601 and the year 9999. */
  lemma TimeRoundTrip(ticks: int)
    requires -0x8000_0000_0000_0000 <= ticks < 0x8000_0000_0000_0000
    ensures ImportTimestamp(UnixSeconds(ticks)) == Some(ticks - ticks % 10_000_000) <==>
            0 <= ticks < 265_046_774_400 * 10_000_000
  {
    var q := ticks / TICKS_PER_SECOND;
    assert ticks == q * TICKS_PER_SECOND + ticks % TICKS_PER_SECOND;
    assert UnixSeconds(ticks) + EPOCH_SECONDS == q;
  }

  function SignedDecimal(v: int): Text {
    if v < 0 then ['-'] + Decimal(-v) else Decimal(v)
  }

  function TimeText(ticks: Option<int>): Text {
    if ticks.Some? then SignedDecimal(UnixSeconds(ticks.value)) else []
  }

  // ---------- The catalog ----------

  datatype Rollup = Rollup(logicalBytes: U64, physicalBytes: U64, fileCount: U64, itemCount: U64,
                           modifiedMax: Option<int>)

  datatype DirectoryRow = DirectoryRow(id: U64, fullPath: Text, rollup: Rollup)

  datatype FileRow = FileRow(parent: U64, name: Text, fullPath: Text, size: U64, allocation: U64, modified: Option<int>)

  datatype Catalog = Catalog(root: Option<U64>, directories: seq<DirectoryRow>, files: seq<FileRow>)

  predicate IsTime(t: Option<int>) {
    t.Some? ==> -I64_MAX - 1 <= t.value <= I64_MAX
  }

  ghost predicate TimesOk(c: Catalog) {
    && (forall d <- c.directories :: IsTime(d.rollup.modifiedMax))
    && (forall f <- c.files :: IsTime(f.modified))
  }

  function DirectoryWithId(directories: seq<DirectoryRow>, id: U64): Option<DirectoryRow> {
    if directories == [] then None
    else if directories[0].id == id then Some(directories[0])
    else DirectoryWithId(directories[1..], id)
  }

  /** The stored path of a file, else its parent's path joined with its name, else the bare name. */
  function DisplayPath(c: Catalog, f: FileRow): Text {
    if f.fullPath != [] then f.fullPath
    else
      match DirectoryWithId(c.directories, f.parent)
      case Some(parent) => JoinPath(parent.fullPath, f.name)
      case None => f.name
  }

  const HEADER: seq<Field> := [Plain("Path"), Plain("Kind"), Plain("LogicalBytes"), Plain("AllocatedBytes"),
                               Plain("Files"), Plain("Directories"), Plain("ModifiedUnixSeconds")]

  function DirectoryFields(d: DirectoryRow): seq<Field> {
    var r := d.rollup;
    [Quoted(d.fullPath), Plain("Directory"), Plain(Decimal(r.logicalBytes)), Plain(Decimal(r.physicalBytes)),
     Plain(Decimal(r.fileCount)), Plain(Decimal(Max(r.itemCount - r.fileCount, 0))), Plain(TimeText(r.modifiedMax))]
  }

  function FileFields(c: Catalog, f: FileRow): seq<Field> {
    [Quoted(DisplayPath(c, f)), Plain("File"), Plain(Decimal(f.size)), Plain(Decimal(f.allocation)),
     Plain("0"), Plain("0"), Plain(TimeText(f.modified))]
  }

  function DirectoryRows(ds: seq<DirectoryRow>): (rows: seq<seq<Field>>)
    ensures |rows| == |ds| && forall i :: 0 <= i < |ds| ==> rows[i] == DirectoryFields(ds[i])
  {
    seq(|ds|, i requires 0 <= i < |ds| => DirectoryFields(ds[i]))
  }

  function FileRows(c: Catalog, fs: seq<FileRow>): (rows: seq<seq<Field>>)
    ensures |rows| == |fs| && forall i :: 0 <= i < |fs| ==> rows[i] == FileFields(c, fs[i])
  {
    seq(|fs|, i requires 0 <= i < |fs| => FileFields(c, fs[i]))
  }

  function Others(ds: seq<DirectoryRow>, root: Option<U64>): seq<DirectoryRow> {
    if ds == [] then []
    else Others(ds[..|ds| - 1], root) + if root == Some(ds[|ds| - 1].id) then [] else [ds[|ds| - 1]]
  }

  /** The root comes first, the other directories follow in catalog order. */
  function ExportOrder(c: Catalog): seq<DirectoryRow> {
    var root := if c.root.Some? then DirectoryWithId(c.directories, c.root.value) else None;
    (if root.Some? then [root.value] else []) + Others(c.directories, c.root)
  }

  /** The rows an export holds. */
  function Table(c: Catalog): seq<seq<Field>> {
    [HEADER] + DirectoryRows(ExportOrder(c)) + FileRows(c, c.files)
  }

  ghost predicate UniqueDirectories(ds: seq<DirectoryRow>) {
    forall i, j :: 0 <= i < j < |ds| ==> ds[i].id != ds[j].id
  }

  /** Every directory of the catalog is exported exactly once: the root first, the others in catalog order. */
  lemma ExportOrderIsComplete(c: Catalog)
    requires UniqueDirectories(c.directories)
    requires c.root.Some? ==> DirectoryWithId(c.directories, c.root.value).Some?
    ensures multiset(ExportOrder(c)) == multiset(c.directories)
    ensures c.root.Some? ==> ExportOrder(c) != [] && ExportOrder(c)[0].id == c.root.value
    ensures InCatalogOrder(c.directories, Others(c.directories, c.root))
    ensures ExportOrder(c) == (if c.root.Some? then ExportOrder(c)[..1] else []) + Others(c.directories, c.root)
  {
    OthersInOrder(c.directories, c.root);
    if c.root.Some? {
      FoundIsListed(c.directories, c.root.value);
      OthersLeaveOut(c.directories, c.root, DirectoryWithId(c.directories, c.root.value).value);
    } else {
      OthersKeepAll(c.directories);
      assert [] + Others(c.directories, None) == Others(c.directories, None);
    }
  }

  /** Later rows stand later in the catalog. */
  ghost predicate InCatalogOrder(ds: seq<DirectoryRow>, rows: seq<DirectoryRow>) {
    exists at: seq<nat> :: StandsAt(ds, rows, at)
  }

  ghost predicate StandsAt(ds: seq<DirectoryRow>, rows: seq<DirectoryRow>, at: seq<nat>) {
    && |at| == |rows|
    && (forall i :: 0 <= i < |rows| ==> at[i] < |ds| && ds[at[i]] == rows[i])
    && (forall i, j :: 0 <= i < j < |rows| ==> at[i] < at[j])
  }

  lemma OthersInOrder(ds: seq<DirectoryRow>, root: Option<U64>)
    ensures InCatalogOrder(ds, Others(ds, root))
  {
    hide StandsAt;
    var at := OthersStandAt(ds, root);
  }

  lemma {:induction false} OthersStandAt(ds: seq<DirectoryRow>, root: Option<U64>) returns (at: seq<nat>)
    ensures StandsAt(ds, Others(ds, root), at)
  {
    if ds == [] {
      at := [];
    } else {
      var n := |ds| - 1;
      at := OthersStandAt(ds[..n], root);
      StandsOneMore(ds, Others(ds[..n], root), at, root != Some(ds[n].id));
      hide StandsAt;
      if root != Some(ds[n].id) {
        at := at + [n];
      } else {
        assert Others(ds[..n], root) + [] == Others(ds[..n], root);
      }
    }
  }

  lemma StandsOneMore(ds: seq<DirectoryRow>, rows: seq<DirectoryRow>, at: seq<nat>, taken: bool)
    requires ds != [] && StandsAt(ds[..|ds| - 1], rows, at)
    ensures StandsAt(ds, rows, at) && (taken ==> StandsAt(ds, rows + [ds[|ds| - 1]], at + [|ds| - 1]))
  {
  }

  lemma {:induction false} OthersKeepAll(ds: seq<DirectoryRow>)
    ensures Others(ds, None) == ds
  {
    if ds != [] {
      OthersKeepAll(ds[..|ds| - 1]);
    }
  }

  lemma {:induction false} FoundIsListed(ds: seq<DirectoryRow>, id: U64)
    ensures DirectoryWithId(ds, id).Some? ==>
              DirectoryWithId(ds, id).value in ds && DirectoryWithId(ds, id).value.id == id
  {
    if ds != [] && ds[0].id != id {
      FoundIsListed(ds[1..], id);
    }
  }

  lemma {:induction false} OthersUntouched(ds: seq<DirectoryRow>, id: U64)
    requires forall i :: 0 <= i < |ds| ==> ds[i].id != id
    ensures Others(ds, Some(id)) == ds
  {
    if ds != [] {
      OthersUntouched(ds[..|ds| - 1], id);
    }
  }

  lemma {:induction false} OthersLeaveOut(ds: seq<DirectoryRow>, root: Option<U64>, r: DirectoryRow)
    requires UniqueDirectories(ds) && root == Some(r.id) && r in ds
    ensures multiset(Others(ds, root)) + multiset{r} == multiset(ds)
  {
    var n := |ds| - 1;
    assert ds == ds[..n] + [ds[n]];
    if ds[n] == r {
      OthersUntouched(ds[..n], r.id);
    } else {
      OthersLeaveOut(ds[..n], root, r);
    }
  }

  predicate IsExportDelimiter(d: char) {
    d == ',' || d == '\t'
  }

  lemma DigitsAreBare(v: nat, d: char)
    requires IsExportDelimiter(d)
    ensures Bare(Decimal(v), d)
  {
    DecimalIsDigits(v);
  }

  lemma TimeIsBare(t: Option<int>, d: char)
    requires IsExportDelimiter(d)
    ensures Bare(TimeText(t), d)
  {
    if t.Some? {
      var v := UnixSeconds(t.value);
      DigitsAreBare(if v < 0 then -v else v, d);
    }
  }

  lemma RowsAreWritable(c: Catalog, d: char)
    requires IsExportDelimiter(d)
    ensures IsTable(Table(c)) && forall row <- Table(c) :: Writable(row, d)
  {
    hide Writable, DirectoryFields, FileFields, ExportOrder;
    var n := |ExportOrder(c)|;
    forall i | 0 <= i < |Table(c)| ensures Writable(Table(c)[i], d) && Table(c)[i] != [] {
      if i == 0 {
        HeaderIsWritable(d);
      } else if i <= n {
        assert Table(c)[i] == DirectoryFields(ExportOrder(c)[i - 1]);
        DirectoryIsWritable(ExportOrder(c)[i - 1], d);
      } else {
        assert Table(c)[i] == FileFields(c, c.files[i - 1 - n]);
        FileIsWritable(c, c.files[i - 1 - n], d);
      }
    }
  }

  lemma LabelsAreBare(d: char)
    requires IsExportDelimiter(d)
    ensures Bare("Path", d) && Bare("Kind", d) && Bare("LogicalBytes", d) && Bare("AllocatedBytes", d)
    ensures Bare("Files", d) && Bare("Directories", d) && Bare("ModifiedUnixSeconds", d)
  {
  }

  lemma WordsAreBare(d: char)
    requires IsExportDelimiter(d)
    ensures Bare("Directory", d) && Bare("File", d) && Bare("0", d)
  {
  }

  lemma HeaderIsWritable(d: char)
    requires IsExportDelimiter(d)
    ensures Writable(HEADER, d) && HEADER != []
  {
    hide Bare;
    LabelsAreBare(d);
    assert HEADER[0].text != [];
  }

  lemma DirectoryIsWritable(row: DirectoryRow, d: char)
    requires IsExportDelimiter(d)
    ensures Writable(DirectoryFields(row), d) && DirectoryFields(row) != []
  {
    var r := row.rollup;
    WordsAreBare(d);
    DigitsAreBare(r.logicalBytes, d);
    DigitsAreBare(r.physicalBytes, d);
    DigitsAreBare(r.fileCount, d);
    DigitsAreBare(Max(r.itemCount - r.fileCount, 0), d);
    TimeIsBare(r.modifiedMax, d);
    hide Bare, Decimal, TimeText;
    assert DirectoryFields(row)[1].text != [];
  }

  lemma FileIsWritable(c: Catalog, f: FileRow, d: char)
    requires IsExportDelimiter(d)
    ensures Writable(FileFields(c, f), d) && FileFields(c, f) != []
  {
    WordsAreBare(d);
    DigitsAreBare(f.size, d);
    DigitsAreBare(f.allocation, d);
    TimeIsBare(f.modified, d);
    hide Bare, Decimal, TimeText;
    assert FileFields(c, f)[1].text != [];
  }

  /** Reading an export gives back the header and, for every directory and file, its path and its numbers. */
  lemma ExportRoundTrip(c: Catalog)
    ensures IsTable(Table(c))
    ensures Parse(START, TableText(Table(c), ','), ',') == Ok(AllTexts(Table(c)))
    ensures Tabbed(false, TableText(Table(c), ',')) == TableText(Table(c), '\t')
    ensures Parse(START, Tabbed(false, TableText(Table(c), ',')), '\t') == Ok(AllTexts(Table(c)))
  {
    RowsAreWritable(c, ',');
    RowsAreWritable(c, '\t');
    TableRoundTrip(Table(c), ',');
    TableRoundTrip(Table(c), '\t');
    TabbedTable(Table(c));
  }

  // ---------- The writer with its cached parent prefix ----------

  function Separator(path: Text): Text {
    if path != [] && path[|path| - 1] != '\\' then ['\\'] else []
  }

  /** The opening quote and the escaped parent path, up to where the file name goes. */
  function ParentPrefix(c: Catalog, parent: U64): Text {
    [QUOTE] +
    match DirectoryWithId(c.directories, parent)
    case Some(d) => if d.fullPath == [] then [] else Escape(d.fullPath) + Separator(d.fullPath)
    case None => []
  }

  /** A quoted path put together from the cached prefix is the quoted display path. */
  lemma PrefixCompletes(c: Catalog, f: FileRow)
    requires f.fullPath == []
    ensures ParentPrefix(c, f.parent) + Escape(f.name) + [QUOTE] == FieldText(Quoted(DisplayPath(c, f)))
  {
    match DirectoryWithId(c.directories, f.parent)
    case None =>
    case Some(d) =>
      EscapeJoined(d.fullPath, f.name);
      Associates([QUOTE], Escape(d.fullPath) + Separator(d.fullPath), Escape(f.name));
      assert d.fullPath == [] ==> Escape(d.fullPath) + Separator(d.fullPath) == [];
  }

  lemma EscapeJoined(path: Text, name: Text)
    ensures Escape(JoinPath(path, name)) == Escape(path) + Separator(path) + Escape(name)
  {
    hide Escape;
    assert JoinPath(path, name) == path + Separator(path) + name;
    EscapeAppends(path, Separator(path));
    EscapeAppends(path + Separator(path), name);
    assert Escape(Separator(path)) == Separator(path) by { SeparatorIsPlain(path); }
  }

  lemma SeparatorIsPlain(path: Text)
    ensures Escape(Separator(path)) == Separator(path)
  {
    assert ['\\'][1..] == [];
  }

  // A row is written from left to right: what is written so far, followed by the row text of the fields
  // to come, is always the text of the whole row.

  lemma RowGoesOn(written: Text, fields: seq<Field>)
    requires |fields| >= 2
    ensures written + RowText(fields, ',') == written + FieldText(fields[0]) + [','] + RowText(fields[1..], ',')
  {
    Associates(written, FieldText(fields[0]) + [','], RowText(fields[1..], ','));
    Associates(written, FieldText(fields[0]), [',']);
  }

  lemma RowEnds(written: Text, f: Field)
    ensures written + RowText([f], ',') == written + FieldText(f) + ['\r', '\n']
  {
    Associates(written, FieldText(f), ['\r', '\n']);
  }

  method QuotedText(t: Text) returns (out: Text)
    ensures out == FieldText(Quoted(t))
  {
    var escaped := Escaped(t);
    out := [QUOTE] + escaped + [QUOTE];
  }

  method LabelField(row: Text, word: Text, ghost fields: seq<Field>, ghost k: nat) returns (next: Text)
    requires k + 1 < |fields| && fields[k] == Plain(word)
    ensures next + RowText(fields[k + 1..], ',') == row + RowText(fields[k..], ',')
  {
    hide RowText;
    RowGoesOn(row, fields[k..]);
    assert fields[k..][1..] == fields[k + 1..];
    next := row + word + [','];
  }

  method NumberField(row: Text, n: U64, ghost fields: seq<Field>, ghost k: nat) returns (next: Text)
    requires k + 1 < |fields| && fields[k] == Plain(Decimal(n))
    ensures next + RowText(fields[k + 1..], ',') == row + RowText(fields[k..], ',')
  {
    hide RowText, Decimal;
    RowGoesOn(row, fields[k..]);
    assert fields[k..][1..] == fields[k + 1..];
    next := CsvInteger(row, n);
    next := next + [','];
  }

  /** The last field of a row, and its end. */
  method TimeField(row: Text, t: Option<int>, ghost fields: seq<Field>, ghost k: nat) returns (next: Text)
    requires IsTime(t) && k + 1 == |fields| && fields[k] == Plain(TimeText(t))
    ensures next == row + RowText(fields[k..], ',')
  {
    hide RowText, TimeText;
    assert fields[k..] == [Plain(TimeText(t))];
    RowEnds(row, Plain(TimeText(t)));
    next := CsvTimestamp(row, t);
  }

  lemma PathField(path: Text, fields: seq<Field>)
    requires |fields| >= 2 && path == FieldText(fields[0])
    ensures path + [','] + RowText(fields[1..], ',') == RowText(fields, ',')
  {
    hide FieldText;
    RowGoesOn([], fields);
    assert [] + RowText(fields, ',') == RowText(fields, ',') && [] + path == path;
  }

  lemma FileFieldsAre(c: Catalog, f: FileRow)
    ensures var fields := FileFields(c, f);
            && |fields| == 7 && fields[0] == Quoted(DisplayPath(c, f)) && fields[1] == Plain("File")
            && fields[2] == Plain(Decimal(f.size)) && fields[3] == Plain(Decimal(f.allocation))
            && fields[4] == fields[5] == Plain("0") && fields[6] == Plain(TimeText(f.modified))
  {
  }

  lemma DirectoryFieldsAre(d: DirectoryRow)
    ensures var fields, r := DirectoryFields(d), d.rollup;
            && |fields| == 7 && fields[0] == Quoted(d.fullPath) && fields[1] == Plain("Directory")
            && fields[2] == Plain(Decimal(r.logicalBytes)) && fields[3] == Plain(Decimal(r.physicalBytes))
            && fields[4] == Plain(Decimal(r.fileCount))
            && fields[5] == Plain(Decimal(Max(r.itemCount - r.fileCount, 0)))
            && fields[6] == Plain(TimeText(r.modifiedMax))
  {
  }

  method FileRowText(c: Catalog, f: FileRow, parentId: Option<U64>, prefix: Text)
    returns (row: Text, parentId': Option<U64>, prefix': Text)
    requires parentId.Some? ==> prefix == ParentPrefix(c, parentId.value)
    requires IsTime(f.modified)
    ensures row == RowText(FileFields(c, f), ',')
    ensures parentId'.Some? ==> prefix' == ParentPrefix(c, parentId'.value)
  {
    row, parentId', prefix' := FilePathText(c, f, parentId, prefix);
    FileFieldsAre(c, f);
    hide RowText, FieldText, Decimal, TimeText, ParentPrefix, DisplayPath, FileFields;
    ghost var fields := FileFields(c, f);
    PathField(row, fields);
    row := LabelField(row + [','], "File", fields, 1);
    row := NumberField(row, f.size, fields, 2);
    row := NumberField(row, f.allocation, fields, 3);
    row := LabelField(row, "0", fields, 4);
    row := LabelField(row, "0", fields, 5);
    row := TimeField(row, f.modified, fields, 6);
  }

  /** The quoted display path of a file; the part that its directory contributes is kept for the next file. */
  method FilePathText(c: Catalog, f: FileRow, parentId: Option<U64>, prefix: Text)
    returns (path: Text, parentId': Option<U64>, prefix': Text)
    requires parentId.Some? ==> prefix == ParentPrefix(c, parentId.value)
    ensures path == FieldText(Quoted(DisplayPath(c, f)))
    ensures parentId'.Some? ==> prefix' == ParentPrefix(c, parentId'.value)
  {
    parentId', prefix' := parentId, prefix;
    if f.fullPath != [] {
      path := QuotedText(f.fullPath);
    } else {
      if parentId' != Some(f.parent) {
        prefix' := [QUOTE];
        var parent := DirectoryWithId(c.directories, f.parent);
        if parent.Some? && parent.value.fullPath != [] {
          var escaped := Escaped(parent.value.fullPath);
          prefix' := prefix' + escaped;
          if parent.value.fullPath[|parent.value.fullPath| - 1] != '\\' {
            prefix' := prefix' + ['\\'];
          }
        }
        assert prefix' == ParentPrefix(c, f.parent);
        parentId' := Some(f.parent);
      }
      var escaped := Escaped(f.name);
      path := prefix' + escaped + [QUOTE];
      PrefixCompletes(c, f);
    }
  }

  method CsvTimestamp(row: Text, ticks: Option<int>) returns (out: Text)
    requires IsTime(ticks)
    ensures out == row + TimeText(ticks) + ['\r', '\n']
  {
    out := row;
    if ticks.Some? {
      var value := UnixSeconds(ticks.value);
      if value < 0 {
        out := out + ['-'];
      }
      out := CsvInteger(out, if value < 0 then -value else value);
    }
    out := out + ['\r', '\n'];
  }

  method DirectoryRowText(d: DirectoryRow) returns (row: Text)
    requires IsTime(d.rollup.modifiedMax)
    ensures row == RowText(DirectoryFields(d), ',')
  {
    var r := d.rollup;
    var directories: U64 := Max(r.itemCount - r.fileCount, 0);
    DirectoryFieldsAre(d);
    hide RowText, FieldText, Decimal, TimeText, DirectoryFields, Escape;
    row := QuotedText(d.fullPath);
    ghost var fields := DirectoryFields(d);
    PathField(row, fields);
    row := LabelField(row + [','], "Directory", fields, 1);
    row := NumberField(row, r.logicalBytes, fields, 2);
    row := NumberField(row, r.physicalBytes, fields, 3);
    row := NumberField(row, r.fileCount, fields, 4);
    row := NumberField(row, directories, fields, 5);
    row := TimeField(row, r.modifiedMax, fields, 6);
  }

  // ---------- The whole export ----------

  lemma TableNext(rows: seq<seq<Field>>, row: seq<Field>, d: char)
    requires IsTable(rows) && row != []
    ensures IsTable(rows + [row]) && TableText(rows + [row], d) == TableText(rows, d) + RowText(row, d)
  {
    assert (rows + [row])[..|rows|] == rows;
  }

  lemma OnlyRow(row: seq<Field>, d: char)
    requires row != []
    ensures IsTable([row]) && TableText([row], d) == RowText(row, d)
  {
    assert [row][..0] == [];
    assert TableText([], d) + RowText(row, d) == RowText(row, d);
  }

  /** Writes the whole catalog; the result is the text of its table. */
  method WriteCsv(c: Catalog) returns (output: Text)
    requires TimesOk(c)
    ensures IsTable(Table(c)) && output == TableText(Table(c), ',')
  {
    var root := if c.root.Some? then DirectoryWithId(c.directories, c.root.value) else None;
    if root.Some? {
      FoundIsListed(c.directories, c.root.value);
    }
    OthersAreListed(c.directories, c.root);
    var ordered := ExportOrder(c);
    output := RowText(HEADER, ',');
    OnlyRow(HEADER, ',');
    output := WriteDirectories(ordered, output, [HEADER]);
    output := WriteFiles(c, output, [HEADER] + DirectoryRows(ordered));
  }

  lemma {:induction false} OthersAreListed(ds: seq<DirectoryRow>, root: Option<U64>)
    ensures forall d <- Others(ds, root) :: d in ds
  {
    if ds != [] {
      OthersAreListed(ds[..|ds| - 1], root);
    }
  }

  method WriteDirectories(ds: seq<DirectoryRow>, before: Text, ghost rows: seq<seq<Field>>) returns (output: Text)
    requires (forall d <- ds :: IsTime(d.rollup.modifiedMax)) && IsTable(rows) && before == TableText(rows, ',')
    ensures IsTable(rows + DirectoryRows(ds)) && output == TableText(rows + DirectoryRows(ds), ',')
  {
    hide TableText, DirectoryFields, RowText;
    output := before;
    assert rows + DirectoryRows(ds[..0]) == rows;
    for i := 0 to |ds|
      invariant IsTable(rows + DirectoryRows(ds[..i])) && output == TableText(rows + DirectoryRows(ds[..i]), ',')
    {
      assert ds[i] in ds;
      var row := DirectoryRowText(ds[i]);
      DirectoryIsWritable(ds[i], ',');
      TableNext(rows + DirectoryRows(ds[..i]), DirectoryFields(ds[i]), ',');
      assert rows + DirectoryRows(ds[..i + 1]) == rows + DirectoryRows(ds[..i]) + [DirectoryFields(ds[i])];
      output := output + row;
    }
    assert ds[..|ds|] == ds;
  }

  method WriteFiles(c: Catalog, before: Text, ghost rows: seq<seq<Field>>) returns (output: Text)
    requires TimesOk(c) && IsTable(rows) && before == TableText(rows, ',')
    ensures IsTable(rows + FileRows(c, c.files)) && output == TableText(rows + FileRows(c, c.files), ',')
  {
    hide TableText, FileFields, RowText;
    output := before;
    var parentId: Option<U64>, prefix: Text := None, [];
    assert rows + FileRows(c, c.files[..0]) == rows;
    for i := 0 to |c.files|
      invariant parentId.Some? ==> prefix == ParentPrefix(c, parentId.value)
      invariant IsTable(rows + FileRows(c, c.files[..i])) && output == TableText(rows + FileRows(c, c.files[..i]), ',')
    {
      var f := c.files[i];
      assert f in c.files;
      var row;
      row, parentId, prefix := FileRowText(c, f, parentId, prefix);
      FileIsWritable(c, f, ',');
      TableNext(rows + FileRows(c, c.files[..i]), FileFields(c, f), ',');
      assert rows + FileRows(c, c.files[..i + 1]) == rows + FileRows(c, c.files[..i]) + [FileFields(c, f)];
      output := output + row;
    }
    assert c.files[..|c.files|] == c.files;
  }
}
