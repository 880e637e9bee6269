/** The reader, which counts down what is left of the file, and the writers. */
module SnapshotIo {
  import opened Basics
  import opened Records
  import opened SortedMaps
  import opened Bytes
  import opened Fields
  import opened FieldLaws
  import opened Snapshot
  import opened SnapshotLaws

  /** A call that read `parsed` and left the reader in front of `rest`. */
  ghost predicate Reads<T>(parsed: Parsed<T>, result: Result<T, Corruption>, rest: Data) {
    match parsed
    case Ok((v, more)) => result == Ok(v) && rest == more
    case Err(e) => result == Err(e)
  }

  class SnapshotReader {
    const data: Data
    var remaining: nat

    ghost predicate Valid()
      reads this
    {
      remaining <= |data|
    }

    ghost function Rest(): Data
      requires Valid()
      reads this
    {
      data[|data| - remaining..]
    }

    constructor (file: Data)
      ensures Valid() && Rest() == file
    {
      data := file;
      remaining := |file|;
    }

    method ReadExact(length: nat) returns (r: Result<Data, Corruption>)
      requires Valid()
      modifies this
      ensures Valid() && Reads(Take(old(Rest()), length), r, Rest())
    {
      if length > remaining {
        return Err(EndOfData);
      }
      var start := |data| - remaining;
      r := Ok(data[start..start + length]);
      remaining := remaining - length;
      assert old(Rest())[..length] == data[start..start + length];
    }

    method ReadNumber(width: nat) returns (r: Result<nat, Corruption>)
      requires Valid()
      modifies this
      ensures Valid() && Reads(GetNumber(old(Rest()), width), r, Rest())
    {
      var bytes := ReadExact(width);
      match bytes {
        case Ok(b) => r := Ok(GetLe(b));
        case Err(e) => r := Err(e);
      }
    }

    method ReadString() returns (r: Result<Utf8, Corruption>)
      requires Valid()
      modifies this
      ensures Valid() && Reads(GetString(old(Rest())), r, Rest())
    {
      hide GetNumber;
      var length := ReadNumber(8);
      match length {
        case Err(e) => return Err(e);
        case Ok(n) =>
          if n > MAX_STRING_BYTES {
            return Err(LongString);
          }
          if n > remaining {
            return Err(StringPastEnd);
          }
          var bytes := ReadExact(n);
          var text := bytes.value;
          if !IsUtf8(text) {
            return Err(NotUtf8);
          }
          r := Ok(text);
      }
    }

    method ReadFlag() returns (r: Result<bool, Corruption>)
      requires Valid()
      modifies this
      ensures Valid() && Reads(GetFlag(old(Rest())), r, Rest())
    {
      var bytes := ReadExact(1);
      match bytes {
        case Err(e) => r := Err(e);
        case Ok(b) => r := if b[0] == 0 then Ok(false) else if b[0] == 1 then Ok(true) else Err(BadFlag);
      }
    }

    method ReadOptString() returns (r: Result<Option<Utf8>, Corruption>)
      requires Valid()
      modifies this
      ensures Valid() && Reads(GetOptString(old(Rest())), r, Rest())
    {
      hide GetFlag, GetString;
      var flag := ReadFlag();
      match flag {
        case Err(e) => r := Err(e);
        case Ok(present) =>
          if !present {
            return Ok(None);
          }
          var text := ReadString();
          match text {
            case Ok(t) => r := Ok(Some(t));
            case Err(e) => r := Err(e);
          }
      }
    }

    method ReadOptU64() returns (r: Result<Option<int>, Corruption>)
      requires Valid()
      modifies this
      ensures Valid() && Reads(GetOptU64(old(Rest())), r, Rest())
    {
      hide GetFlag, GetNumber;
      var flag := ReadFlag();
      match flag {
        case Err(e) => r := Err(e);
        case Ok(present) =>
          if !present {
            return Ok(None);
          }
          var number := ReadNumber(8);
          match number {
            case Ok(n) => r := Ok(Some(n));
            case Err(e) => r := Err(e);
          }
      }
    }

    method ReadField(k: Kind) returns (r: Result<Value, Corruption>)
      requires Valid()
      modifies this
      ensures Valid() && Reads(Get(k, old(Rest())), r, Rest())
      decreases k, 0
    {
      hide GetNumber, GetString, GetFlag, GetOptString, GetRows;
      match k {
        case KindU64 =>
          var n := ReadNumber(8);
          r := match n case Ok(v) => Ok(Number(v)) case Err(e) => Err(e);
        case KindU32 =>
          var n := ReadNumber(4);
          r := match n case Ok(v) => Ok(Number(v)) case Err(e) => Err(e);
        case KindEnum(count) =>
          var b := ReadExact(1);
          r := match b case Ok(v) => (if v[0] < count then Ok(Number(v[0])) else Err(BadEnum)) case Err(e) => Err(e);
        case KindBool =>
          var b := ReadExact(1);
          r := match b case Ok(v) => Ok(Flag(v[0] != 0)) case Err(e) => Err(e);
        case KindString =>
          var t := ReadString();
          r := match t case Ok(v) => Ok(Text(v)) case Err(e) => Err(e);
        case KindOptString =>
          var t := ReadOptString();
          r := match t case Ok(v) => Ok(OptText(v)) case Err(e) => Err(e);
        case KindPath =>
          var t := ReadOptString();
          r := match t case Ok(v) => Ok(Text(if v.Some? then v.value else [])) case Err(e) => Err(e);
        case KindOptU64 =>
          var n := ReadOptU64();
          r := match n case Ok(v) => Ok(OptNumber(v)) case Err(e) => Err(e);
        case KindOptI64 =>
          var n := ReadOptU64();
          r := match n
               case Ok(v) => Ok(OptNumber(match v case Some(bits) => Some(FromBits(bits)) case None => None))
               case Err(e) => Err(e);
        case KindList(layout, minimum) =>
          var length := ReadNumber(8);
          match length {
            case Err(e) => return Err(e);
            case Ok(count) =>
              if minimum != 0 && count > remaining / minimum {
                return Err(TooManyItems);
              }
              var rows := ReadRows(layout, count);
              r := match rows case Ok(v) => Ok(Rows(v)) case Err(e) => Err(e);
          }
      }
    }

    method ReadFields(layout: Layout) returns (r: Result<seq<Value>, Corruption>)
      requires Valid()
      modifies this
      ensures Valid() && Reads(GetFields(layout, old(Rest())), r, Rest())
      decreases layout, 0
    {
      hide Get;
      if layout == [] {
        return Ok([]);
      }
      var first := ReadField(layout[0]);
      match first {
        case Err(e) => return Err(e);
        case Ok(v) =>
          var others := ReadFields(layout[1..]);
          r := match others case Ok(vs) => Ok([v] + vs) case Err(e) => Err(e);
      }
    }

    /** What is still to come after some rows have been read. */
    ghost predicate Continues(whole: Parsed<seq<seq<Value>>>, rows: seq<seq<Value>>, next: Parsed<seq<seq<Value>>>) {
      whole == match next case Ok((more, rest)) => Ok((rows + more, rest)) case Err(e) => Err(e)
    }

    method ReadRows(layout: Layout, count: nat) returns (r: Result<seq<seq<Value>>, Corruption>)
      requires Valid()
      modifies this
      ensures Valid() && Reads(GetRows(layout, count, old(Rest())), r, Rest())
      decreases layout, count + 1
    {
      hide GetFields;
      var rows := [];
      var left: nat := count;
      assert forall more: seq<seq<Value>> :: [] + more == more;
      while left > 0
        invariant Valid() && left <= count
        invariant Continues(GetRows(layout, count, old(Rest())), rows, GetRows(layout, left, Rest()))
      {
        ghost var before := rows;
        var row := ReadFields(layout);
        match row {
          case Err(e) => return Err(e);
          case Ok(v) =>
            rows := rows + [v];
            left := left - 1;
            assert forall more: seq<seq<Value>> :: before + ([v] + more) == rows + more;
        }
      }
      r := Ok(rows);
      assert rows + [] == rows;
    }

    method ReadSnapshot() returns (r: Result<State, Corruption>)
      requires Valid()
      modifies this
      ensures Valid() && Reads(Decode(old(Rest())), r, Rest())
    {
      hide GetFields, GetNumber, StateFrom, Body;
      var magic := ReadExact(4);
      if magic.Err? {
        return Err(magic.error);
      }
      if magic.value != MAGIC {
        return Err(BadMagic);
      }
      var version := ReadNumber(4);
      if version.Err? {
        return Err(version.error);
      }
      if version.value != 1 && version.value != 2 {
        return Err(BadVersion);
      }
      ghost var d := Rest();
      var body := ReadFields(Body(version.value));
      if body.Err? {
        return Err(body.error);
      }
      GetFieldsHas(Body(version.value), d);
      FitsIsHasFields(Body(version.value), body.value);
      r := Ok(StateFrom(version.value, body.value));
    }
  }

  // ---------- Writing ----------

  /** One buffer for each record, appended when it is complete. */
  method WriteRecords(layout: Layout, rows: seq<seq<Value>>) returns (d: Data)
    requires HasRows(layout, rows) && IsU64(|rows|)
    ensures d == PutLe(|rows|, 8) + PutRows(layout, rows)
  {
    hide PutFields, HasFields, PutLe;
    d := PutLe(|rows|, 8);
    assert rows[0..] == rows;
    for i := 0 to |rows|
      invariant HasRows(layout, rows[i..])
      invariant d + PutRows(layout, rows[i..]) == PutLe(|rows|, 8) + PutRows(layout, rows)
    {
      var record := PutFields(layout, rows[i..][0]);
      assert rows[i..][1..] == rows[i + 1..];
      Associates(d, record, PutRows(layout, rows[i + 1..]));
      d := d + record;
    }
    assert rows[|rows|..] == [] && d + [] == d;
  }

  /** The tables are sorted by id first. */
  method WriteState(s: State) returns (d: Data)
    requires Sized(BodyOf(s))
    ensures d == Encode(s)
  {
    d := WriteSortedRecords(SortedValues(s.volumes), SortedValues(s.sessions), SortedValues(s.directories),
                            SortedValues(s.files), s.lineages, s.fileChanges);
  }

  method WriteSortedRecords(volumes: seq<Volume>, sessions: seq<Session>, directories: seq<Directory>, files: seq<File>,
                            lineages: seq<Lineage>, fileChanges: seq<seq<Change>>) returns (d: Data)
    requires Sized(BodyOfLists(volumes, sessions, directories, files, lineages, fileChanges))
    ensures d == Header()
            + PutFields(Body(VERSION), BodyOfLists(volumes, sessions, directories, files, lineages, fileChanges))
  {
    hide HasFields, PutFields, RowsOf, PutLe;
    d := WriteTables(Header(), Body(VERSION),
                     BodyOfLists(volumes, sessions, directories, files, lineages, fileChanges));
  }

  /** One table after the other. */
  method WriteTables(header: Data, layout: Layout, body: seq<Value>) returns (d: Data)
    requires HasFields(layout, body) && forall k <- layout :: k.KindList?
    ensures d == header + PutFields(layout, body)
  {
    hide HasRows, PutRows, PutLe;
    d := header;
    assert body[0..] == body && layout[0..] == layout;
    for i := 0 to |body|
      invariant HasFields(layout[i..], body[i..])
      invariant d + PutFields(layout[i..], body[i..]) == header + PutFields(layout, body)
    {
      assert Has(layout[i..][0], body[i..][0]) && layout[i] in layout;
      var table := WriteRecords(layout[i].layout, body[i].rows);
      assert body[i..][1..] == body[i + 1..] && layout[i..][1..] == layout[i + 1..];
      assert table == Put(layout[i], body[i]);
      Associates(d, table, PutFields(layout[i + 1..], body[i + 1..]));
      d := d + table;
    }
    assert body[|body|..] == [] && d + [] == d;
  }
}
