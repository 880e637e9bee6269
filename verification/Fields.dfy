/**
 The binary form of a snapshot. A layout names the fields of a record in their order; lists of records are fields
 themselves, so that one pair of functions describes everything that is written and read.
 */
module Fields {
  import opened Basics
  import opened Records
  import opened Bytes

  const MAX_STRING_BYTES := 1024 * 1024

  datatype Kind =
    | KindU64
    | KindU32
    | KindEnum(count: nat)
    | KindBool
    | KindString
    | KindOptString
    | KindPath
    | KindOptU64
    | KindOptI64
    | KindList(layout: seq<Kind>, minimum: nat)

  type Layout = seq<Kind>

  datatype Value =
    | Number(n: nat)
    | Flag(b: bool)
    | Text(t: Utf8)
    | OptText(o: Option<Utf8>)
    | OptNumber(m: Option<int>)
    | Rows(rows: seq<seq<Value>>)

  datatype Corruption =
    | EndOfData | TooManyItems | LongString | StringPastEnd | NotUtf8 | BadFlag | BadEnum | BadMagic | BadVersion

  type Parsed<T> = Result<(T, Data), Corruption>

  // ---------- Values that can be written ----------

  predicate IsU64(n: int) {
    0 <= n <= U64_MAX
  }

  /** A value of the field's type; every length fits in 64 bits. */
  predicate Has(k: Kind, v: Value)
    decreases k, 0
  {
    match k
    case KindU64 => v.Number? && IsU64(v.n)
    case KindU32 => v.Number? && v.n < 0x1_0000_0000
    case KindEnum(count) => v.Number? && v.n < count && v.n < 256
    case KindBool => v.Flag?
    case KindString => v.Text? && IsU64(|v.t|)
    case KindOptString => v.OptText? && (v.o.Some? ==> IsU64(|v.o.value|))
    case KindPath => v.Text? && IsU64(|v.t|)
    case KindOptU64 => v.OptNumber? && (v.m.Some? ==> IsU64(v.m.value))
    case KindOptI64 => v.OptNumber? && (v.m.Some? ==> IsI64(v.m.value))
    case KindList(layout, _) => v.Rows? && IsU64(|v.rows|) && HasRows(layout, v.rows)
  }

  predicate HasFields(layout: Layout, vs: seq<Value>)
    decreases layout, 0
  {
    |layout| == |vs| && (layout != [] ==> Has(layout[0], vs[0]) && HasFields(layout[1..], vs[1..]))
  }

  predicate HasRows(layout: Layout, rows: seq<seq<Value>>)
    decreases layout, |rows| + 1
  {
    rows != [] ==> HasFields(layout, rows[0]) && HasRows(layout, rows[1..])
  }

  /** Every text within is at most one mebibyte long. */
  predicate Short(k: Kind, v: Value)
    requires Has(k, v)
    decreases k, 0
  {
    match k
    case KindString => |v.t| <= MAX_STRING_BYTES
    case KindOptString => v.o.Some? ==> |v.o.value| <= MAX_STRING_BYTES
    case KindPath => |v.t| <= MAX_STRING_BYTES
    case KindList(layout, _) => ShortRows(layout, v.rows)
    case _ => true
  }

  predicate ShortFields(layout: Layout, vs: seq<Value>)
    requires HasFields(layout, vs)
    decreases layout, 0
  {
    layout != [] ==> Short(layout[0], vs[0]) && ShortFields(layout[1..], vs[1..])
  }

  predicate ShortRows(layout: Layout, rows: seq<seq<Value>>)
    requires HasRows(layout, rows)
    decreases layout, |rows| + 1
  {
    rows != [] ==> ShortFields(layout, rows[0]) && ShortRows(layout, rows[1..])
  }

  // ---------- Writing ----------

  function PutString(t: Utf8): Data {
    PutLe(|t|, 8) + t
  }

  /** Two's complement. */
  function ToBits(n: int): nat
    requires IsI64(n)
  {
    if n < 0 then n + 0x1_0000_0000_0000_0000 else n
  }

  function FromBits(n: nat): int
    requires IsU64(n)
  {
    if n >= 0x8000_0000_0000_0000 then n - 0x1_0000_0000_0000_0000 else n
  }

  function Put(k: Kind, v: Value): Data
    requires Has(k, v)
    decreases k, 0
  {
    match k
    case KindU64 => PutLe(v.n, 8)
    case KindU32 => PutLe(v.n, 4)
    case KindEnum(_) => [v.n]
    case KindBool => [if v.b then 1 else 0]
    case KindString => PutString(v.t)
    case KindOptString => if v.o.Some? then [1] + PutString(v.o.value) else [0]
    case KindPath => if v.t == [] then [0] else [1] + PutString(v.t)
    case KindOptU64 => if v.m.Some? then [1] + PutLe(v.m.value, 8) else [0]
    case KindOptI64 => if v.m.Some? then [1] + PutLe(ToBits(v.m.value), 8) else [0]
    case KindList(layout, _) => PutLe(|v.rows|, 8) + PutRows(layout, v.rows)
  }

  function PutFields(layout: Layout, vs: seq<Value>): Data
    requires HasFields(layout, vs)
    decreases layout, 0
  {
    if layout == [] then [] else Put(layout[0], vs[0]) + PutFields(layout[1..], vs[1..])
  }

  function PutRows(layout: Layout, rows: seq<seq<Value>>): Data
    requires HasRows(layout, rows)
    decreases layout, |rows| + 1
  {
    if rows == [] then [] else PutFields(layout, rows[0]) + PutRows(layout, rows[1..])
  }

  // ---------- Reading ----------

  function Take(d: Data, n: nat): (r: Parsed<Data>)
    ensures r.Ok? ==> r.value.0 + r.value.1 == d && |r.value.0| == n
  {
    if n > |d| then Err(EndOfData) else Ok((d[..n], d[n..]))
  }

  function GetNumber(d: Data, width: nat): (r: Parsed<nat>)
    ensures r.Ok? ==> r.value.0 < Pow256(width)
  {
    match Take(d, width)
    case Ok((bytes, rest)) => GetLeBelow(bytes); Ok((GetLe(bytes), rest))
    case Err(e) => Err(e)
  }

  function GetU64(d: Data): (r: Parsed<nat>)
    ensures r.Ok? ==> IsU64(r.value.0)
  {
    Widths();
    GetNumber(d, 8)
  }

  function GetString(d: Data): Parsed<Utf8> {
    match GetU64(d)
    case Err(e) => Err(e)
    case Ok((len, rest)) =>
      if len > MAX_STRING_BYTES then Err(LongString)
      else if len > |rest| then Err(StringPastEnd)
      else if !IsUtf8(rest[..len]) then Err(NotUtf8)
      else Ok((rest[..len], rest[len..]))
  }

  /** A presence byte: 0 for nothing, 1 for something. */
  function GetFlag(d: Data): Parsed<bool> {
    match Take(d, 1)
    case Err(e) => Err(e)
    case Ok((bytes, rest)) =>
      if bytes[0] == 0 then Ok((false, rest)) else if bytes[0] == 1 then Ok((true, rest)) else Err(BadFlag)
  }

  function GetOptString(d: Data): Parsed<Option<Utf8>> {
    match GetFlag(d)
    case Err(e) => Err(e)
    case Ok((false, rest)) => Ok((None, rest))
    case Ok((true, rest)) =>
      match GetString(rest)
      case Err(e) => Err(e)
      case Ok((t, more)) => Ok((Some(t), more))
  }

  function GetOptU64(d: Data): (r: Parsed<Option<int>>)
    ensures r.Ok? && r.value.0.Some? ==> IsU64(r.value.0.value)
  {
    match GetFlag(d)
    case Err(e) => Err(e)
    case Ok((false, rest)) => Ok((None, rest))
    case Ok((true, rest)) =>
      match GetU64(rest)
      case Err(e) => Err(e)
      case Ok((n, more)) => Ok((Some(n), more))
  }

  function Get(k: Kind, d: Data): (r: Parsed<Value>)
    decreases k, 0
  {
    match k
    case KindU64 =>
      (match GetU64(d)
       case Ok((n, rest)) => Ok((Number(n), rest))
       case Err(e) => Err(e))
    case KindU32 =>
      (match GetNumber(d, 4)
       case Ok((n, rest)) => Ok((Number(n), rest))
       case Err(e) => Err(e))
    case KindEnum(count) =>
      (match Take(d, 1)
       case Ok((bytes, rest)) => if bytes[0] < count then Ok((Number(bytes[0]), rest)) else Err(BadEnum)
       case Err(e) => Err(e))
    case KindBool =>
      (match Take(d, 1)
       case Ok((bytes, rest)) => Ok((Flag(bytes[0] != 0), rest))
       case Err(e) => Err(e))
    case KindString =>
      (match GetString(d)
       case Ok((t, rest)) => Ok((Text(t), rest))
       case Err(e) => Err(e))
    case KindOptString =>
      (match GetOptString(d)
       case Ok((o, rest)) => Ok((OptText(o), rest))
       case Err(e) => Err(e))
    case KindPath =>
      (match GetOptString(d)
       case Ok((o, rest)) => Ok((Text(if o.Some? then o.value else []), rest))
       case Err(e) => Err(e))
    case KindOptU64 =>
      (match GetOptU64(d)
       case Ok((o, rest)) => Ok((OptNumber(o), rest))
       case Err(e) => Err(e))
    case KindOptI64 =>
      (match GetOptU64(d)
       case Ok((o, rest)) =>
         (match o
          case Some(n) => Ok((OptNumber(Some(FromBits(n))), rest))
          case None => Ok((OptNumber(None), rest)))
       case Err(e) => Err(e))
    case KindList(layout, minimum) =>
      (match GetU64(d)
       case Err(e) => Err(e)
       case Ok((count, rest)) =>
         if minimum != 0 && count > |rest| / minimum then Err(TooManyItems)
         else
           (match GetRows(layout, count, rest)
            case Ok((rows, more)) => Ok((Rows(rows), more))
            case Err(e) => Err(e)))
  }

  function GetFields(layout: Layout, d: Data): Parsed<seq<Value>>
    decreases layout, 0
  {
    if layout == [] then Ok(([], d))
    else
      match Get(layout[0], d)
      case Err(e) => Err(e)
      case Ok((v, rest)) =>
        match GetFields(layout[1..], rest)
        case Err(e) => Err(e)
        case Ok((vs, more)) => Ok(([v] + vs, more))
  }

  function GetRows(layout: Layout, count: nat, d: Data): Parsed<seq<seq<Value>>>
    decreases layout, count + 1
  {
    if count == 0 then Ok(([], d))
    else
      match GetFields(layout, d)
      case Err(e) => Err(e)
      case Ok((row, rest)) =>
        match GetRows(layout, count - 1, rest)
        case Err(e) => Err(e)
        case Ok((rows, more)) => Ok(([row] + rows, more))
  }
}
