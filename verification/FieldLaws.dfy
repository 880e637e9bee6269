/** Reading what was written, reading a longer input, and the sizes on which the limits for lists rest. */
module FieldLaws {
  import opened Basics
  import opened Records
  import opened Bytes
  import opened Fields

  lemma TakeFront(a: Data, b: Data)
    ensures Take(a + b, |a|) == Ok((a, b))
  {
    assert (a + b)[..|a|] == a && (a + b)[|a|..] == b;
  }

  // ---------- Texts and numbers ----------

  lemma NumberRoundTrip(n: nat, width: nat, tail: Data)
    requires n < Pow256(width)
    ensures GetNumber(PutLe(n, width) + tail, width) == Ok((n, tail))
  {
    TakeFront(PutLe(n, width), tail);
    LeRoundTrip(n, width);
  }

  lemma U64RoundTrip(n: nat, tail: Data)
    requires IsU64(n)
    ensures GetU64(PutLe(n, 8) + tail) == Ok((n, tail))
  {
    Widths();
    NumberRoundTrip(n, 8, tail);
  }

  /** A text comes back exactly when it is at most one mebibyte long; a longer one can be written but not read. */
  lemma StringRoundTrip(t: Utf8, tail: Data)
    requires IsU64(|t|)
    ensures GetString(PutString(t) + tail) == if |t| <= 1_048_576 then Ok((t, tail)) else Err(LongString)
  {
    hide IsUtf8, GetU64, PutLe;
    Associates(PutLe(|t|, 8), t, tail);
    U64RoundTrip(|t|, t + tail);
    assert (t + tail)[..|t|] == t && (t + tail)[|t|..] == tail;
  }

  lemma FlagRoundTrip(flag: bool, tail: Data)
    ensures GetFlag([if flag then 1 else 0] + tail) == Ok((flag, tail))
  {
    TakeFront([if flag then 1 else 0], tail);
  }

  lemma OptStringRoundTrip(o: Option<Utf8>, tail: Data)
    requires o.Some? ==> IsU64(|o.value|)
    ensures GetOptString((if o.Some? then [1] + PutString(o.value) else [0]) + tail) ==
            if o.Some? && |o.value| > MAX_STRING_BYTES then Err(LongString) else Ok((o, tail))
  {
    hide GetString, PutString, GetFlag;
    match o
    case Some(t) =>
      Associates([1], PutString(t), tail);
      FlagRoundTrip(true, PutString(t) + tail);
      StringRoundTrip(t, tail);
    case None =>
      FlagRoundTrip(false, tail);
  }

  lemma OptU64RoundTrip(o: Option<int>, tail: Data)
    requires o.Some? ==> IsU64(o.value)
    ensures GetOptU64((if o.Some? then [1] + PutLe(o.value, 8) else [0]) + tail) == Ok((o, tail))
  {
    hide GetU64, PutLe, GetFlag;
    match o
    case Some(n) =>
      Associates([1], PutLe(n, 8), tail);
      FlagRoundTrip(true, PutLe(n, 8) + tail);
      U64RoundTrip(n, tail);
    case None =>
      FlagRoundTrip(false, tail);
  }

  // ---------- The least sizes ----------

  function LeastBytes(k: Kind): nat {
    match k
    case KindU64 => 8
    case KindU32 => 4
    case KindString => 8
    case KindList(_, _) => 8
    case _ => 1
  }

  function LeastFields(layout: Layout): nat {
    if layout == [] then 0 else LeastBytes(layout[0]) + LeastFields(layout[1..])
  }

  /** No list demands more bytes for an item than the shortest item has. */
  predicate Fair(k: Kind)
    decreases k, 0
  {
    k.KindList? ==> k.minimum <= LeastFields(k.layout) && FairLayout(k.layout)
  }

  predicate FairLayout(layout: Layout)
    decreases layout, 0
  {
    layout != [] ==> Fair(layout[0]) && FairLayout(layout[1..])
  }

  lemma {:induction false} FieldsAreLong(layout: Layout, vs: seq<Value>)
    requires HasFields(layout, vs)
    ensures |PutFields(layout, vs)| >= LeastFields(layout)
    decreases layout
  {
    if layout != [] {
      FieldsAreLong(layout[1..], vs[1..]);
      assert |Put(layout[0], vs[0])| >= LeastBytes(layout[0]);
    }
  }

  lemma {:induction false} RowsAreLong(layout: Layout, rows: seq<seq<Value>>)
    requires HasRows(layout, rows)
    ensures |PutRows(layout, rows)| >= |rows| * LeastFields(layout)
    decreases |rows|
  {
    if rows != [] {
      hide PutFields, LeastFields;
      FieldsAreLong(layout, rows[0]);
      RowsAreLong(layout, rows[1..]);
      OneMore(|rows| - 1, LeastFields(layout));
    }
  }

  // ---------- Reading what was written ----------

  lemma {:induction false} RoundTrip(k: Kind, v: Value, tail: Data)
    requires Has(k, v) && Fair(k)
    ensures if Short(k, v) then Get(k, Put(k, v) + tail) == Ok((v, tail)) else Get(k, Put(k, v) + tail).Err?
    decreases k, 0
  {
    hide GetU64, PutLe, GetString, PutString, GetOptString, GetOptU64, GetRows, PutRows, GetNumber;
    match k
    case KindU64 => U64RoundTrip(v.n, tail);
    case KindU32 =>
      Widths();
      NumberRoundTrip(v.n, 4, tail);
    case KindEnum(_) => TakeFront([v.n], tail);
    case KindBool => TakeFront([if v.b then 1 else 0], tail);
    case KindString => StringRoundTrip(v.t, tail);
    case KindOptString => OptStringRoundTrip(v.o, tail);
    case KindPath => OptStringRoundTrip(if v.t == [] then None else Some(v.t), tail);
    case KindOptU64 => OptU64RoundTrip(v.m, tail);
    case KindOptI64 => OptU64RoundTrip(if v.m.Some? then Some(ToBits(v.m.value)) else None, tail);
    case KindList(layout, minimum) => ListRoundTrip(layout, minimum, v.rows, tail);
  }

  lemma {:induction false} FieldsRoundTrip(layout: Layout, vs: seq<Value>, tail: Data)
    requires HasFields(layout, vs) && FairLayout(layout)
    ensures if ShortFields(layout, vs) then GetFields(layout, PutFields(layout, vs) + tail) == Ok((vs, tail))
            else GetFields(layout, PutFields(layout, vs) + tail).Err?
    decreases layout, 0
  {
    hide Get, Put;
    if layout != [] {
      var rest := PutFields(layout[1..], vs[1..]) + tail;
      Associates(Put(layout[0], vs[0]), PutFields(layout[1..], vs[1..]), tail);
      RoundTrip(layout[0], vs[0], rest);
      FieldsRoundTrip(layout[1..], vs[1..], tail);
      assert [vs[0]] + vs[1..] == vs;
    } else {
      assert [] + tail == tail;
    }
  }

  lemma {:induction false} RowsRoundTrip(layout: Layout, rows: seq<seq<Value>>, tail: Data)
    requires HasRows(layout, rows) && FairLayout(layout)
    ensures if ShortRows(layout, rows) then GetRows(layout, |rows|, PutRows(layout, rows) + tail) == Ok((rows, tail))
            else GetRows(layout, |rows|, PutRows(layout, rows) + tail).Err?
    decreases layout, |rows| + 1
  {
    hide GetFields, PutFields;
    if rows != [] {
      var rest := PutRows(layout, rows[1..]) + tail;
      Associates(PutFields(layout, rows[0]), PutRows(layout, rows[1..]), tail);
      FieldsRoundTrip(layout, rows[0], rest);
      RowsRoundTrip(layout, rows[1..], tail);
      assert [rows[0]] + rows[1..] == rows;
    } else {
      assert [] + tail == tail;
    }
  }

  lemma {:induction false} ListRoundTrip(layout: Layout, minimum: nat, rows: seq<seq<Value>>, tail: Data)
    requires IsU64(|rows|) && HasRows(layout, rows) && minimum <= LeastFields(layout) && FairLayout(layout)
    ensures var k := KindList(layout, minimum);
            var read := Get(k, PutLe(|rows|, 8) + PutRows(layout, rows) + tail);
            if ShortRows(layout, rows) then read == Ok((Rows(rows), tail)) else read.Err?
    decreases layout, |rows| + 2
  {
    hide GetU64, PutLe, PutRows, GetRows, LeastFields;
    var d := PutRows(layout, rows) + tail;
    Associates(PutLe(|rows|, 8), PutRows(layout, rows), tail);
    U64RoundTrip(|rows|, d);
    RowsAreLong(layout, rows);
    RoomFor(|rows|, minimum, LeastFields(layout), |d|);
    RowsRoundTrip(layout, rows, tail);
  }

  lemma RoomFor(count: nat, minimum: nat, least: nat, room: nat)
    requires minimum <= least && room >= count * least
    ensures minimum != 0 ==> count <= room / minimum
  {
    TimesGrows(minimum, least, count);
    assert count * minimum == minimum * count && count * least == least * count;
    DivisionFits(count, minimum, room);
  }

  /** Without that fairness a list of short rows comes back exactly when the rest of the input makes up for it. */
  lemma ListReadsExactlyWhen(layout: Layout, minimum: nat, rows: seq<seq<Value>>, tail: Data)
    requires IsU64(|rows|) && HasRows(layout, rows) && FairLayout(layout) && ShortRows(layout, rows)
    ensures var d := PutRows(layout, rows) + tail;
            Get(KindList(layout, minimum), PutLe(|rows|, 8) + d) ==
            if |rows| * minimum <= |d| then Ok((Rows(rows), tail)) else Err(TooManyItems)
  {
    hide GetU64, PutLe, PutRows, GetRows;
    var d := PutRows(layout, rows) + tail;
    U64RoundTrip(|rows|, d);
    RowsRoundTrip(layout, rows, tail);
    DivisionFits(|rows|, minimum, |d|);
  }

  lemma DivisionFits(count: nat, minimum: nat, room: nat)
    ensures minimum != 0 ==> (count > room / minimum <==> count * minimum > room)
  {
    if minimum != 0 {
      var q := room / minimum;
      assert q * minimum <= room < (q + 1) * minimum;
      if count > q {
        TimesGrows(q + 1, count, minimum);
      } else {
        TimesGrows(count, q, minimum);
      }
    }
  }

  // ---------- What is read has the type of its field ----------

  lemma {:induction false} GetHas(k: Kind, d: Data)
    ensures Get(k, d).Ok? ==> Has(k, Get(k, d).value.0)
    decreases k, 0
  {
    hide GetRows;
    match k
    case KindU32 => Widths();
    case KindList(layout, minimum) =>
      if Get(k, d).Ok? {
        GetRowsHas(layout, GetU64(d).value.0, GetU64(d).value.1);
      }
    case _ =>
  }

  lemma {:induction false} GetFieldsHas(layout: Layout, d: Data)
    ensures GetFields(layout, d).Ok? ==> HasFields(layout, GetFields(layout, d).value.0)
    decreases layout, 0
  {
    hide Get, Has;
    if layout != [] && GetFields(layout, d).Ok? {
      GetHas(layout[0], d);
      GetFieldsHas(layout[1..], Get(layout[0], d).value.1);
      var vs := GetFields(layout, d).value.0;
      assert vs[1..] == GetFields(layout[1..], Get(layout[0], d).value.1).value.0;
    }
  }

  lemma {:induction false} GetRowsHas(layout: Layout, count: nat, d: Data)
    ensures GetRows(layout, count, d).Ok? ==>
              HasRows(layout, GetRows(layout, count, d).value.0) && |GetRows(layout, count, d).value.0| == count
    decreases layout, count + 1
  {
    hide GetFields, HasFields;
    if count > 0 && GetRows(layout, count, d).Ok? {
      GetFieldsHas(layout, d);
      GetRowsHas(layout, count - 1, GetFields(layout, d).value.1);
      var rows := GetRows(layout, count, d).value.0;
      assert rows[1..] == GetRows(layout, count - 1, GetFields(layout, d).value.1).value.0;
    }
  }

  // ---------- Reading a longer input ----------

  ghost predicate Stable<T>(short: Parsed<T>, long: Parsed<T>, extra: Data) {
    short.Ok? ==> long == Ok((short.value.0, short.value.1 + extra))
  }

  lemma TakeStable(d: Data, extra: Data, n: nat)
    ensures Stable(Take(d, n), Take(d + extra, n), extra)
  {
    if n <= |d| {
      assert (d + extra)[..n] == d[..n] && (d + extra)[n..] == d[n..] + extra;
    }
  }

  lemma NumberStable(d: Data, extra: Data, width: nat)
    ensures Stable(GetNumber(d, width), GetNumber(d + extra, width), extra)
  {
    TakeStable(d, extra, width);
  }

  lemma StringStable(d: Data, extra: Data)
    ensures Stable(GetString(d), GetString(d + extra), extra)
  {
    hide IsUtf8, GetNumber;
    NumberStable(d, extra, 8);
    if GetString(d).Ok? {
      var (len, rest) := GetU64(d).value;
      assert (rest + extra)[..len] == rest[..len] && (rest + extra)[len..] == rest[len..] + extra;
    }
  }

  lemma FlagStable(d: Data, extra: Data)
    ensures Stable(GetFlag(d), GetFlag(d + extra), extra)
  {
    TakeStable(d, extra, 1);
  }

  lemma OptStringStable(d: Data, extra: Data)
    ensures Stable(GetOptString(d), GetOptString(d + extra), extra)
  {
    hide GetString, GetFlag;
    FlagStable(d, extra);
    if GetFlag(d).Ok? {
      StringStable(GetFlag(d).value.1, extra);
    }
  }

  lemma OptU64Stable(d: Data, extra: Data)
    ensures Stable(GetOptU64(d), GetOptU64(d + extra), extra)
  {
    hide GetNumber, GetFlag;
    FlagStable(d, extra);
    if GetFlag(d).Ok? {
      NumberStable(GetFlag(d).value.1, extra, 8);
    }
  }

  /** What was read from an input is read from every longer one, which leaves that much more over. */
  lemma {:induction false} GetStable(k: Kind, d: Data, extra: Data)
    ensures Stable(Get(k, d), Get(k, d + extra), extra)
    decreases k, 0
  {
    hide GetNumber, GetString, GetOptString, GetOptU64, GetRows, Take;
    match k
    case KindU64 => NumberStable(d, extra, 8);
    case KindU32 => NumberStable(d, extra, 4);
    case KindEnum(_) => TakeStable(d, extra, 1);
    case KindBool => TakeStable(d, extra, 1);
    case KindString => StringStable(d, extra);
    case KindOptString => OptStringStable(d, extra);
    case KindPath => OptStringStable(d, extra);
    case KindOptU64 => OptU64Stable(d, extra);
    case KindOptI64 => OptU64Stable(d, extra);
    case KindList(layout, minimum) =>
      NumberStable(d, extra, 8);
      if GetU64(d).Ok? {
        var (count, rest) := GetU64(d).value;
        RowsStable(layout, count, rest, extra);
        DivisionFits(count, minimum, |rest|);
        DivisionFits(count, minimum, |rest + extra|);
      }
  }

  lemma {:induction false} FieldsStable(layout: Layout, d: Data, extra: Data)
    ensures Stable(GetFields(layout, d), GetFields(layout, d + extra), extra)
    decreases layout, 0
  {
    hide Get;
    if layout != [] {
      GetStable(layout[0], d, extra);
      if Get(layout[0], d).Ok? {
        FieldsStable(layout[1..], Get(layout[0], d).value.1, extra);
      }
    }
  }

  lemma {:induction false} RowsStable(layout: Layout, count: nat, d: Data, extra: Data)
    ensures Stable(GetRows(layout, count, d), GetRows(layout, count, d + extra), extra)
    decreases layout, count + 1
  {
    hide GetFields;
    if count > 0 {
      FieldsStable(layout, d, extra);
      if GetFields(layout, d).Ok? {
        RowsStable(layout, count - 1, GetFields(layout, d).value.1, extra);
      }
    }
  }
}
