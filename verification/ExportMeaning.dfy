/** What a reader of an exported catalog finds under each heading. */
module ExportMeaning {
  import opened Basics
  import opened Paths
  import opened Delimited
  import opened CatalogExport

  /** A run of digits for a number. */
  ghost predicate Says(t: Text, n: nat) {
    t != [] && (forall c <- t :: IsDigit(c)) && Value(t) == n
  }

  ghost predicate SaysSigned(t: Text, n: int) {
    if n >= 0 then Says(t, n) else t != [] && t[0] == '-' && Says(t[1..], -n)
  }

  /** A time in units of 100 nanoseconds since 1601 is told in whole seconds since 1970. */
  ghost predicate SaysTime(t: Text, time: Option<int>) {
    match time case None => t == [] case Some(ticks) => SaysSigned(t, ticks / 10_000_000 - 11_644_473_600)
  }

  const HEADINGS: seq<Text> :=
    ["Path", "Kind", "LogicalBytes", "AllocatedBytes", "Files", "Directories", "ModifiedUnixSeconds"]

  /** The directory itself is not among the directories it holds. */
  ghost predicate TellsDirectory(row: seq<Text>, d: DirectoryRow) {
    && |row| == |HEADINGS| && row[0] == d.fullPath && row[1] == "Directory"
    && Says(row[2], d.rollup.logicalBytes) && Says(row[3], d.rollup.physicalBytes) && Says(row[4], d.rollup.fileCount)
    && Says(row[5], if d.rollup.itemCount >= d.rollup.fileCount then d.rollup.itemCount - d.rollup.fileCount else 0)
    && SaysTime(row[6], d.rollup.modifiedMax)
  }

  ghost predicate TellsFile(row: seq<Text>, c: Catalog, f: FileRow) {
    && |row| == |HEADINGS| && IsPathOf(row[0], c, f) && row[1] == "File"
    && Says(row[2], f.size) && Says(row[3], f.allocation) && row[4] == "0" && row[5] == "0"
    && SaysTime(row[6], f.modified)
  }

  /** The stored path, or the path of the parent directory, a backslash and the name, or the name alone. */
  ghost predicate IsPathOf(path: Text, c: Catalog, f: FileRow) {
    && (f.fullPath != [] ==> path == f.fullPath)
    && (f.fullPath == [] && (forall d <- c.directories :: d.id != f.parent) ==> path == f.name)
    && (f.fullPath == [] ==>
          forall d <- c.directories :: d.id == f.parent && (forall e <- c.directories :: e.id == d.id ==> e == d) ==>
            path == if d.fullPath == [] then f.name else Unterminated(d.fullPath) + "\\" + f.name)
  }

  lemma DecimalSays(n: nat)
    ensures Says(Decimal(n), n)
  {
    DecimalIsDigits(n);
    DecimalRoundTrip(n);
  }

  lemma TimeSays(time: Option<int>)
    ensures SaysTime(TimeText(time), time)
  {
    hide Says, Decimal;
    if time.Some? {
      var n := UnixSeconds(time.value);
      if n >= 0 {
        DecimalSays(n);
      } else {
        DecimalSays(-n);
        assert (['-'] + Decimal(-n))[1..] == Decimal(-n);
      }
    }
  }

  lemma PathIsTold(c: Catalog, f: FileRow)
    ensures IsPathOf(DisplayPath(c, f), c, f)
  {
    FoundByItsId(c.directories, f.parent);
    hide DirectoryWithId;
    if DirectoryWithId(c.directories, f.parent).Some? {
      JoinedText(DirectoryWithId(c.directories, f.parent).value.fullPath, f.name);
    }
  }

  lemma {:induction false} FoundByItsId(ds: seq<DirectoryRow>, id: U64)
    ensures var found := DirectoryWithId(ds, id);
            match found case Some(d) => d in ds && d.id == id case None => forall d <- ds :: d.id != id
  {
    if ds != [] && ds[0].id != id {
      FoundByItsId(ds[1..], id);
      assert forall d <- ds :: d == ds[0] || d in ds[1..];
    }
  }

  lemma DirectoryIsTold(d: DirectoryRow)
    ensures TellsDirectory(Texts(DirectoryFields(d)), d)
  {
    DecimalSays(d.rollup.logicalBytes);
    DecimalSays(d.rollup.physicalBytes);
    DecimalSays(d.rollup.fileCount);
    DecimalSays(Max(d.rollup.itemCount - d.rollup.fileCount, 0));
    TimeSays(d.rollup.modifiedMax);
    hide Decimal, Says, TimeText, SaysTime;
  }

  lemma FileIsTold(c: Catalog, f: FileRow)
    ensures TellsFile(Texts(FileFields(c, f)), c, f)
  {
    DecimalSays(f.size);
    DecimalSays(f.allocation);
    TimeSays(f.modified);
    PathIsTold(c, f);
    hide Decimal, Says, TimeText, SaysTime, IsPathOf, DisplayPath;
  }

  lemma HeaderIsTold()
    ensures Texts(HEADER) == HEADINGS
  {
  }

  /** Reading an export: the headings, then a row for each directory, then one for each file. */
  lemma ExportMeans(c: Catalog)
    ensures IsTable(Table(c)) && Parse(START, TableText(Table(c), ','), ',').Ok?
    ensures var rows, n := Parse(START, TableText(Table(c), ','), ',').value, |ExportOrder(c)|;
            && |rows| == 1 + n + |c.files| && rows[0] == HEADINGS
            && (forall i :: 0 <= i < n ==> TellsDirectory(rows[1 + i], ExportOrder(c)[i]))
            && (forall i :: 0 <= i < |c.files| ==> TellsFile(rows[1 + n + i], c, c.files[i]))
  {
    ExportRoundTrip(c);
    HeaderIsTold();
    hide Parse, TableText, ExportOrder, TellsDirectory, TellsFile, Texts, DirectoryFields, FileFields, IsTable;
    var order, table := ExportOrder(c), Table(c);
    forall i | 0 <= i < |order| ensures TellsDirectory(AllTexts(table)[1 + i], order[i]) {
      DirectoryIsTold(order[i]);
      assert table[1 + i] == DirectoryFields(order[i]);
    }
    forall i | 0 <= i < |c.files| ensures TellsFile(AllTexts(table)[1 + |order| + i], c, c.files[i]) {
      FileIsTold(c, c.files[i]);
      assert table[1 + |order| + i] == FileFields(c, c.files[i]);
    }
  }
}
