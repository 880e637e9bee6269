/**
 Parsing the MFT in batches. However the stream is cut into blocks, and however many threads share a batch, the
 entries are those of the records of the whole stream in their order, and the error is the first one.
 */
module BatchParser {
  import opened Basics
  import opened Bytes
  import opened MftRecords
  import opened RecordFixups

  datatype Outcome = BaseRecord(entry: Entry) | ExtensionRecord(extension: Extension) | Nothing

  /** What one repaired record means; the record format itself is not part of this model. */
  type Parser = Data -> Result<Outcome, string>

  datatype Batch = Batch(entries: seq<Entry>, extensions: seq<Extension>)

  const EMPTY := Batch([], [])

  type Parsed = Result<Batch, string>

  function Append(a: Batch, b: Batch): Batch {
    Batch(a.entries + b.entries, a.extensions + b.extensions)
  }

  /** One result after the other; the first error is the error of both. */
  function Then(a: Parsed, b: Parsed): Parsed {
    if a.Err? then a else if b.Err? then b else Ok(Append(a.value, b.value))
  }

  lemma ThenLaws(a: Parsed, b: Parsed, c: Parsed)
    ensures Then(Then(a, b), c) == Then(a, Then(b, c))
    ensures Then(a, Ok(EMPTY)) == a == Then(Ok(EMPTY), a)
  {
    if a.Ok? {
      assert Append(a.value, EMPTY) == a.value == Append(EMPTY, a.value);
      if b.Ok? && c.Ok? {
        assert Append(Append(a.value, b.value), c.value) == Append(a.value, Append(b.value, c.value));
      }
    }
  }

  // ---------- The records of a stream ----------

  function OfOutcome(outcome: Result<Outcome, string>): Parsed {
    match outcome
    case Err(e) => Err(e)
    case Ok(BaseRecord(entry)) => Ok(Batch([entry], []))
    case Ok(ExtensionRecord(extension)) => Ok(Batch([], [extension]))
    case Ok(Nothing) => Ok(EMPTY)
  }

  function ParseOne(parse: Parser, record: Data): Parsed
    requires |record| == RECORD_SIZE
  {
    if record[..4] != FILE_SIGNATURE then Ok(EMPTY) else OfOutcome(parse(record))
  }

  /** The records of a buffer that has been repaired. */
  function ParseRange(parse: Parser, d: Data): Parsed {
    if |d| < RECORD_SIZE then Ok(EMPTY)
    else Then(ParseOne(parse, d[..RECORD_SIZE]), ParseRange(parse, d[RECORD_SIZE..]))
  }

  /** The meaning of a stream: each whole record, repaired and parsed by itself. */
  function ParseAll(parse: Parser, sector: nat, d: Data): Parsed {
    if |d| < RECORD_SIZE then Ok(EMPTY)
    else Then(ParseOne(parse, Repaired(d[..RECORD_SIZE], sector)), ParseAll(parse, sector, d[RECORD_SIZE..]))
  }

  lemma {:induction false} RepairThenParse(parse: Parser, sector: nat, d: Data)
    ensures ParseRange(parse, RepairedAll(d, sector)) == ParseAll(parse, sector, d)
    decreases |d|
  {
    hide Repaired, ParseOne, Then;
    if |d| >= RECORD_SIZE {
      var first, rest := Repaired(d[..RECORD_SIZE], sector), RepairedAll(d[RECORD_SIZE..], sector);
      assert (first + rest)[..RECORD_SIZE] == first && (first + rest)[RECORD_SIZE..] == rest;
      RepairThenParse(parse, sector, d[RECORD_SIZE..]);
    }
  }

  ghost predicate WholeRecords(d: Data) {
    |d| % RECORD_SIZE == 0
  }

  /** Cutting a stream between two records changes nothing. */
  lemma {:induction false} ParseConcat(parse: Parser, sector: nat, a: Data, b: Data)
    requires WholeRecords(a)
    ensures ParseAll(parse, sector, a + b) == Then(ParseAll(parse, sector, a), ParseAll(parse, sector, b))
    decreases |a|
  {
    hide ParseOne, Then, Repaired;
    if a == [] {
      assert a + b == b;
      ThenLaws(ParseAll(parse, sector, b), Ok(EMPTY), Ok(EMPTY));
    } else {
      var first, rest := a[..RECORD_SIZE], a[RECORD_SIZE..];
      assert (a + b)[..RECORD_SIZE] == first && (a + b)[RECORD_SIZE..] == rest + b;
      ParseConcat(parse, sector, rest, b);
      ThenLaws(ParseOne(parse, Repaired(first, sector)), ParseAll(parse, sector, rest), ParseAll(parse, sector, b));
    }
  }

  // ---------- One batch ----------

  method ParseRecordRange(parse: Parser, buffer: array<Byte>, records: nat) returns (r: Parsed)
    requires buffer.Length == records * RECORD_SIZE
    ensures r == ParseRange(parse, buffer[..])
  {
    hide ParseOne;
    var batch := EMPTY;
    assert buffer[0..] == buffer[..];
    ThenLaws(ParseRange(parse, buffer[..]), Ok(EMPTY), Ok(EMPTY));
    for index := 0 to records
      invariant Then(Ok(batch), ParseRange(parse, buffer[index * RECORD_SIZE..])) == ParseRange(parse, buffer[..])
    {
      ghost var rest := buffer[index * RECORD_SIZE..];
      var start := index * RECORD_SIZE;
      var record := buffer[start..start + RECORD_SIZE];
      assert rest[..RECORD_SIZE] == record && rest[RECORD_SIZE..] == buffer[(index + 1) * RECORD_SIZE..];
      var one := ParseOne(parse, record);
      ThenLaws(Ok(batch), one, ParseRange(parse, rest[RECORD_SIZE..]));
      if one.Err? {
        return one;
      }
      batch := Append(batch, one.value);
    }
    ThenLaws(Ok(batch), Ok(EMPTY), Ok(EMPTY));
    r := Ok(batch);
  }

  /** One thread's share: a slice of the batch, repaired in place and parsed. */
  method FixupAndParse(parse: Parser, sector: nat, chunk: Data, records: nat) returns (r: Parsed)
    requires |chunk| == records * RECORD_SIZE
    ensures r == ParseAll(parse, sector, chunk)
  {
    var buffer := new Byte[|chunk|](i requires 0 <= i < |chunk| => chunk[i]);
    assert buffer[..] == chunk;
    ApplyMftFixups(buffer, sector);
    r := ParseRecordRange(parse, buffer, records);
    RepairThenParse(parse, sector, chunk);
  }

  /** The results of the threads, in the order of their slices. */
  function Joined(results: seq<Parsed>): Parsed {
    if results == [] then Ok(EMPTY) else Then(Joined(results[..|results| - 1]), results[|results| - 1])
  }

  method JoinAll(results: seq<Parsed>) returns (r: Parsed)
    ensures r == Joined(results)
  {
    var batch := EMPTY;
    for i := 0 to |results|
      invariant Joined(results[..i]) == Ok(batch)
    {
      assert results[..i + 1][..i] == results[..i];
      if results[i].Err? {
        FirstErrorWins(results, i + 1);
        return results[i];
      }
      batch := Append(batch, results[i].value);
    }
    assert results[..|results|] == results;
    r := Ok(batch);
  }

  lemma {:induction false} FirstErrorWins(results: seq<Parsed>, n: nat)
    requires n <= |results| && Joined(results[..n]).Err?
    ensures Joined(results) == Joined(results[..n])
    decreases |results| - n
  {
    if n < |results| {
      assert results[..n + 1][..n] == results[..n];
      FirstErrorWins(results, n + 1);
    } else {
      assert results[..n] == results;
    }
  }

  function DivCeil(a: nat, b: nat): nat
    requires b > 0
  {
    (a + b - 1) / b
  }

  /** Small batches stay on one thread; larger ones are cut into slices of whole records. */
  method FixupAndParseBatch(parse: Parser, sector: nat, batch: Data, records: nat, workers: nat) returns (r: Parsed)
    requires |batch| == records * RECORD_SIZE
    ensures r == ParseAll(parse, sector, batch)
  {
    hide ParseAll;
    if workers <= 1 || records < 2048 {
      r := FixupAndParse(parse, sector, batch, records);
      return;
    }
    var size := DivCeil(records, workers);
    EnoughSlices(records, workers);
    var results: seq<Parsed> := [];
    var done: nat := 0;
    assert batch[..0] == [] && ParseAll(parse, sector, []) == Ok(EMPTY) by {
      NothingToParse(parse, sector, []);
    }
    for worker := 0 to workers
      invariant done == Min(worker * size, records) && done <= records
      invariant Joined(results) == ParseAll(parse, sector, batch[..done * RECORD_SIZE])
    {
      var start := worker * size;
      if start >= records {
        break;
      }
      var end := Min((worker + 1) * size, records);
      assert (worker + 1) * size == worker * size + size;
      var chunk := batch[start * RECORD_SIZE..end * RECORD_SIZE];
      var result := FixupAndParse(parse, sector, chunk, end - start);
      assert batch[..end * RECORD_SIZE] == batch[..start * RECORD_SIZE] + chunk;
      ParseConcat(parse, sector, batch[..start * RECORD_SIZE], chunk);
      assert (results + [result])[..|results|] == results;
      results := results + [result];
      done := end;
    }
    assert batch[..records * RECORD_SIZE] == batch;
    r := JoinAll(results);
  }

  lemma EnoughSlices(records: nat, workers: nat)
    requires workers > 0
    ensures workers * DivCeil(records, workers) >= records
  {
    var total := records + workers - 1;
    assert total == workers * (total / workers) + total % workers;
  }

  lemma NothingToParse(parse: Parser, sector: nat, d: Data)
    requires |d| < RECORD_SIZE
    ensures ParseAll(parse, sector, d) == Ok(EMPTY)
  {
  }

  // ---------- All blocks ----------

  ghost function Concat(blocks: seq<Data>): Data {
    if blocks == [] then [] else Concat(blocks[..|blocks| - 1]) + blocks[|blocks| - 1]
  }

  /** The part of the stream parsed so far, and the piece of a record carried over to the next block. */
  ghost predicate Carried(parse: Parser, sector: nat, stream: Data, done: nat, batch: Batch, carry: Data) {
    && done <= |stream| && done % RECORD_SIZE == 0 && stream[done..] == carry && |carry| < RECORD_SIZE
    && ParseAll(parse, sector, stream[..done]) == Ok(batch)
  }

  /** What has arrived is the piece carried over and the new block; its whole records are parsed. */
  lemma CarryStep(parse: Parser, sector: nat, stream: Data, done: nat, batch: Batch, carry: Data, block: Data)
    requires Carried(parse, sector, stream, done, batch, carry)
    ensures var waiting := carry + block;
            var full := |waiting| / RECORD_SIZE * RECORD_SIZE;
            var result := ParseAll(parse, sector, waiting[..full]);
            && full <= |waiting| && done + full <= |stream + block|
            && (result.Err? ==> forall rest :: ParseAll(parse, sector, stream + block + rest) == result)
            && (result.Ok? ==>
                  Carried(parse, sector, stream + block, done + full, Append(batch, result.value), waiting[full..]))
  {
    hide ParseAll;
    var waiting, more := carry + block, stream + block;
    var full := |waiting| / RECORD_SIZE * RECORD_SIZE;
    assert more[done..] == waiting && more[..done] == stream[..done];
    assert more[..done + full] == stream[..done] + waiting[..full] && more[done + full..] == waiting[full..];
    ParseConcat(parse, sector, stream[..done], waiting[..full]);
    if ParseAll(parse, sector, waiting[..full]).Err? {
      forall rest: Data ensures ParseAll(parse, sector, more + rest) == ParseAll(parse, sector, waiting[..full]) {
        assert more + rest == more[..done + full] + (waiting[full..] + rest);
        ParseConcat(parse, sector, more[..done + full], waiting[full..] + rest);
      }
    }
  }

  lemma CarriedAtEnd(parse: Parser, sector: nat, stream: Data, done: nat, batch: Batch, carry: Data)
    requires Carried(parse, sector, stream, done, batch, carry)
    ensures ParseAll(parse, sector, stream) == Ok(batch)
  {
    hide ParseAll;
    assert stream == stream[..done] + carry;
    ParseConcat(parse, sector, stream[..done], carry);
    NothingToParse(parse, sector, carry);
    ThenLaws(Ok(batch), Ok(EMPTY), Ok(EMPTY));
  }

  /** The blocks up to the first empty one. */
  ghost function UntilEmpty(blocks: seq<Data>): seq<Data> {
    if blocks == [] || blocks[0] == [] then [] else [blocks[0]] + UntilEmpty(blocks[1..])
  }

  lemma {:induction false} UntilEmptyIs(blocks: seq<Data>, i: nat)
    requires i <= |blocks| && (forall k :: 0 <= k < i ==> blocks[k] != []) && (i < |blocks| ==> blocks[i] == [])
    ensures UntilEmpty(blocks) == blocks[..i]
  {
    if i > 0 {
      UntilEmptyIs(blocks[1..], i - 1);
      assert blocks[..i] == [blocks[0]] + blocks[1..][..i - 1];
    }
  }

  lemma ConcatNext(blocks: seq<Data>, i: nat)
    requires i < |blocks|
    ensures Concat(blocks[..i + 1]) == Concat(blocks[..i]) + blocks[i]
  {
    assert blocks[..i + 1][..i] == blocks[..i];
  }

  lemma {:induction false} ConcatPrefix(blocks: seq<Data>, i: nat) returns (rest: Data)
    requires i <= |blocks|
    ensures Concat(blocks) == Concat(blocks[..i]) + rest
    decreases |blocks|
  {
    if i == |blocks| {
      rest := [];
      assert blocks[..i] == blocks;
    } else {
      var n := |blocks| - 1;
      var inner := ConcatPrefix(blocks[..n], i);
      assert blocks[..n][..i] == blocks[..i];
      rest := inner + blocks[n];
    }
  }

  /** Parses block after block; a record that is cut by the end of a block is carried over. */
  method ParseBlocks(parse: Parser, sector: nat, workers: nat, blocks: seq<Data>) returns (r: Parsed)
    ensures r == ParseAll(parse, sector, Concat(UntilEmpty(blocks)))
  {
    hide ParseAll, Concat;
    var batch, carry := EMPTY, [];
    ghost var done: nat := 0;
    NothingToParse(parse, sector, []);
    assert Concat(blocks[..0]) == [] by { ConcatOfNone(); }
    for i := 0 to |blocks|
      invariant forall k :: 0 <= k < i ==> blocks[k] != []
      invariant Carried(parse, sector, Concat(blocks[..i]), done, batch, carry)
    {
      var block := blocks[i];
      if block == [] {
        UntilEmptyIs(blocks, i);
        CarriedAtEnd(parse, sector, Concat(blocks[..i]), done, batch, carry);
        return Ok(batch);
      }
      ConcatNext(blocks, i);
      CarryStep(parse, sector, Concat(blocks[..i]), done, batch, carry, block);
      var waiting := if carry == [] then block else carry + block;
      assert waiting == carry + block;
      var records := |waiting| / RECORD_SIZE;
      var full := records * RECORD_SIZE;
      var result := FixupAndParseBatch(parse, sector, waiting[..full], records, workers);
      if result.Err? {
        ErrorStays(parse, sector, blocks, i + 1, result);
        return result;
      }
      batch, carry := Append(batch, result.value), waiting[full..];
      done := done + full;
    }
    UntilEmptyIs(blocks, |blocks|);
    assert blocks[..|blocks|] == blocks;
    CarriedAtEnd(parse, sector, Concat(blocks), done, batch, carry);
    r := Ok(batch);
  }

  lemma ConcatOfNone()
    ensures Concat([]) == []
  {
  }

  lemma {:induction false} UntilEmptyStarts(blocks: seq<Data>, i: nat)
    requires i <= |blocks| && forall k :: 0 <= k < i ==> blocks[k] != []
    ensures i <= |UntilEmpty(blocks)| && UntilEmpty(blocks)[..i] == blocks[..i]
  {
    if i > 0 {
      UntilEmptyStarts(blocks[1..], i - 1);
      assert blocks[..i] == [blocks[0]] + blocks[1..][..i - 1];
    }
  }

  /** Nothing that follows changes the first error. */
  lemma ErrorStays(parse: Parser, sector: nat, blocks: seq<Data>, i: nat, result: Parsed)
    requires i <= |blocks| && (forall k :: 0 <= k < i ==> blocks[k] != [])
    requires forall rest :: ParseAll(parse, sector, Concat(blocks[..i]) + rest) == result
    ensures ParseAll(parse, sector, Concat(UntilEmpty(blocks))) == result
  {
    hide ParseAll, Concat, UntilEmpty;
    UntilEmptyStarts(blocks, i);
    var rest := ConcatPrefix(UntilEmpty(blocks), i);
  }
}
