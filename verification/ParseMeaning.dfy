/** What parsing a stream of records gives, record by record. */
module ParseMeaning {
  import opened Basics
  import opened Bytes
  import opened MftRecords
  import opened RecordFixups
  import opened RepairMeaning
  import opened BatchParser

  type ParsedRecord = Result<Outcome, string>

  /** A record that does not start with FILE, or no longer does, holds nothing. */
  function OutcomeOf(parse: Parser, sector: nat, record: Data): ParsedRecord
    requires |record| == 1024
  {
    if Starts(Repaired(record, sector), "FILE") then parse(Repaired(record, sector)) else Ok(Nothing)
  }

  /** One outcome for each whole record; an incomplete one at the end is left out. */
  function Outcomes(parse: Parser, sector: nat, d: Data): (outcomes: seq<ParsedRecord>)
    ensures |outcomes| == |d| / 1024
  {
    seq(|d| / 1024, r requires 0 <= r < |d| / 1024 => OutcomeOf(parse, sector, d[r * 1024..r * 1024 + 1024]))
  }

  function EntryIn(outcome: ParsedRecord): seq<Entry> {
    match outcome case Ok(BaseRecord(entry)) => [entry] case _ => []
  }

  function ExtensionIn(outcome: ParsedRecord): seq<Extension> {
    match outcome case Ok(ExtensionRecord(extension)) => [extension] case _ => []
  }

  function EntriesIn(outcomes: seq<ParsedRecord>): seq<Entry> {
    if outcomes == [] then [] else EntriesIn(outcomes[..|outcomes| - 1]) + EntryIn(outcomes[|outcomes| - 1])
  }

  function ExtensionsIn(outcomes: seq<ParsedRecord>): seq<Extension> {
    if outcomes == [] then [] else ExtensionsIn(outcomes[..|outcomes| - 1]) + ExtensionIn(outcomes[|outcomes| - 1])
  }

  ghost predicate IsFirstError(outcomes: seq<ParsedRecord>, error: string) {
    exists r :: 0 <= r < |outcomes| && outcomes[r] == Err(error) && forall q :: 0 <= q < r ==> outcomes[q].Ok?
  }

  ghost predicate AllParsed(outcomes: seq<ParsedRecord>) {
    forall r :: 0 <= r < |outcomes| ==> outcomes[r].Ok?
  }

  ghost predicate IsParseOf(outcomes: seq<ParsedRecord>, r: Parsed) {
    match r
    case Err(error) => IsFirstError(outcomes, error)
    case Ok(batch) => AllParsed(outcomes) && batch.entries == EntriesIn(outcomes)
                      && batch.extensions == ExtensionsIn(outcomes)
  }

  lemma {:induction false} EntriesConcat(a: seq<ParsedRecord>, b: seq<ParsedRecord>)
    ensures EntriesIn(a + b) == EntriesIn(a) + EntriesIn(b)
    ensures ExtensionsIn(a + b) == ExtensionsIn(a) + ExtensionsIn(b)
  {
    hide EntryIn, ExtensionIn;
    if b == [] {
      assert a + b == a;
    } else {
      var n := |b| - 1;
      EntriesConcat(a, b[..n]);
      assert (a + b)[..|a + b| - 1] == a + b[..n];
      Associates(EntriesIn(a), EntriesIn(b[..n]), EntryIn(b[n]));
      Associates(ExtensionsIn(a), ExtensionsIn(b[..n]), ExtensionIn(b[n]));
    }
  }

  lemma OutcomesNext(parse: Parser, sector: nat, d: Data)
    requires |d| >= 1024
    ensures Outcomes(parse, sector, d) ==
            [OutcomeOf(parse, sector, d[..1024])] + Outcomes(parse, sector, d[1024..])
  {
    hide OutcomeOf;
    var rest := Outcomes(parse, sector, d[1024..]);
    assert |d[1024..]| / 1024 == |d| / 1024 - 1;
    forall r | 0 < r < |d| / 1024 ensures Outcomes(parse, sector, d)[r] == rest[r - 1] {
      assert r * 1024 + 1024 <= |d|;
      assert d[1024..][(r - 1) * 1024..(r - 1) * 1024 + 1024] == d[r * 1024..r * 1024 + 1024];
    }
  }

  lemma OneOutcome(outcome: ParsedRecord)
    ensures IsParseOf([outcome], OfOutcome(outcome))
  {
    assert [outcome][..0] == [];
    assert EntriesIn([outcome]) == EntriesIn([]) + EntryIn(outcome);
    assert ExtensionsIn([outcome]) == ExtensionsIn([]) + ExtensionIn(outcome);
    if outcome.Err? {
      assert [outcome][0] == Err(outcome.error);
    }
  }

  lemma FirstIsParsed(parse: Parser, sector: nat, record: Data)
    requires |record| == 1024
    ensures IsParseOf([OutcomeOf(parse, sector, record)], ParseOne(parse, Repaired(record, sector)))
  {
    Letters(Repaired(record, sector));
    OneOutcome(OutcomeOf(parse, sector, record));
    hide Repaired, IsParseOf;
    assert OfOutcome(Ok(Nothing)) == Ok(EMPTY);
  }

  lemma PartsAreParsed(a: seq<ParsedRecord>, b: seq<ParsedRecord>, x: Parsed, y: Parsed)
    requires IsParseOf(a, x) && IsParseOf(b, y)
    ensures IsParseOf(a + b, Then(x, y))
  {
    EntriesConcat(a, b);
    hide EntriesIn, ExtensionsIn;
    if x.Err? {
      var r :| 0 <= r < |a| && a[r] == Err(x.error) && forall q :: 0 <= q < r ==> a[q].Ok?;
      assert (a + b)[r] == Err(x.error) && forall q :: 0 <= q < r ==> (a + b)[q] == a[q];
    } else if y.Err? {
      var r :| 0 <= r < |b| && b[r] == Err(y.error) && forall q :: 0 <= q < r ==> b[q].Ok?;
      assert (a + b)[|a| + r] == Err(y.error);
    }
  }

  /** All base entries and all extensions, each in the order of the records, or the error of the first record that
      cannot be parsed. */
  lemma {:induction false} ParseMeans(parse: Parser, sector: nat, d: Data)
    ensures IsParseOf(Outcomes(parse, sector, d), ParseAll(parse, sector, d))
    decreases |d|
  {
    hide Outcomes, OutcomeOf, Repaired, ParseOne, IsParseOf;
    if |d| < 1024 {
      NothingParsed(parse, sector, d);
    } else {
      FirstIsParsed(parse, sector, d[..1024]);
      ParseMeans(parse, sector, d[1024..]);
      OutcomesNext(parse, sector, d);
      PartsAreParsed([OutcomeOf(parse, sector, d[..1024])], Outcomes(parse, sector, d[1024..]),
                     ParseOne(parse, Repaired(d[..1024], sector)), ParseAll(parse, sector, d[1024..]));
    }
  }

  lemma NothingParsed(parse: Parser, sector: nat, d: Data)
    requires |d| < 1024
    ensures IsParseOf(Outcomes(parse, sector, d), Ok(EMPTY))
  {
  }
}
