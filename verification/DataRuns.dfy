/** The run list of the MFT: each run gives its length and how far its start lies from that of the run before. */
module DataRuns {
  import opened Basics
  import opened Bytes
  import opened VolumeReader

  datatype RunError = BadHeader | Truncated | SparseRun | OffsetOverflow | BeforeStart | SizeOverflow | NoRuns

  type Extents = Result<seq<Extent>, RunError>

  /** A number of `size` bytes in two's complement. */
  function Signed(bits: nat, size: nat): int {
    if 2 * bits >= Pow256(size) then bits - Pow256(size) else bits
  }

  function Unsigned(n: int, size: nat): int {
    if n < 0 then n + Pow256(size) else n
  }

  predicate FitsSigned(n: int, size: nat) {
    -(Pow256(size) as int) <= 2 * n < Pow256(size)
  }

  lemma SignedRoundTrip(n: int, size: nat)
    requires FitsSigned(n, size)
    ensures 0 <= Unsigned(n, size) < Pow256(size) && Signed(Unsigned(n, size), size) == n
  {
  }

  /** One run: its extent, the start it leaves for the next run to count from, and the bytes it took. */
  datatype Step = Step(extent: Extent, lcn: int, size: nat)

  function NextRun(d: Data, lcn: int, cluster: nat): (r: Result<Step, RunError>)
    requires d != []
    ensures r.Ok? ==> 0 < r.value.size <= |d|
  {
    var lengthSize: nat, offsetSize: nat := d[0] % 16, d[0] / 16;
    if lengthSize == 0 || lengthSize > 8 || offsetSize > 8 then Err(BadHeader)
    else if 1 + lengthSize + offsetSize > |d| then Err(Truncated)
    else if offsetSize == 0 then Err(SparseRun)
    else Placed(GetLe(d[1..1 + lengthSize]),
                lcn + Signed(GetLe(d[1 + lengthSize..1 + lengthSize + offsetSize]), offsetSize),
                cluster, 1 + lengthSize + offsetSize)
  }

  /** A run of `length` clusters from cluster `start` on, if it can be expressed in bytes. */
  function Placed(length: nat, start: int, cluster: nat, size: nat): (r: Result<Step, RunError>)
    ensures r.Ok? ==> r.value.size == size && r.value.lcn == start
  {
    if !IsI64(start) then Err(OffsetOverflow)
    else if start < 0 || length == 0 then Err(BeforeStart)
    else if start * cluster > U64_MAX || length * cluster > U64_MAX then Err(SizeOverflow)
    else Ok(Step((start * cluster, length * cluster), start, size))
  }

  function Cons(e: Extent, rest: Extents): Extents {
    if rest.Ok? then Ok([e] + rest.value) else rest
  }

  /** The runs from the next header on; `lcn` is the start of the run before. */
  function DecodeFrom(d: Data, lcn: int, cluster: nat): Extents
    decreases |d|
  {
    if d == [] || d[0] == 0 then Ok([])
    else
      match NextRun(d, lcn, cluster)
      case Err(e) => Err(e)
      case Ok(step) => Cons(step.extent, DecodeFrom(d[step.size..], step.lcn, cluster))
  }

  function Decode(d: Data, cluster: nat): Extents {
    match DecodeFrom(d, 0, cluster)
    case Ok(extents) => if extents == [] then Err(NoRuns) else Ok(extents)
    case Err(e) => Err(e)
  }

  // ---------- The format, from the writer's side ----------

  /** A run as a writer chooses to store it. */
  datatype Run = Run(length: nat, delta: int, lengthSize: nat, offsetSize: nat)

  predicate Storable(r: Run) {
    && 1 <= r.lengthSize <= 8 && 1 <= r.offsetSize <= 8
    && 0 < r.length < Pow256(r.lengthSize) && FitsSigned(r.delta, r.offsetSize)
  }

  function EncodeRun(r: Run): (d: Data)
    requires Storable(r)
    ensures |d| == 1 + r.lengthSize + r.offsetSize
  {
    SignedRoundTrip(r.delta, r.offsetSize);
    [r.lengthSize + 16 * r.offsetSize] + PutLe(r.length, r.lengthSize)
    + PutLe(Unsigned(r.delta, r.offsetSize), r.offsetSize)
  }

  function Encode(runs: seq<Run>): Data
    requires forall r <- runs :: Storable(r)
  {
    if runs == [] then [] else EncodeRun(runs[0]) + Encode(runs[1..])
  }

  /** Every run lies on the volume, and no number leaves its range. */
  predicate OnVolume(runs: seq<Run>, lcn: int, cluster: nat) {
    runs == [] ||
    var start := lcn + runs[0].delta;
    0 <= start && IsI64(start) && start * cluster <= U64_MAX && runs[0].length * cluster <= U64_MAX
    && OnVolume(runs[1..], start, cluster)
  }

  /** Where the runs are. */
  function ExtentsOf(runs: seq<Run>, lcn: int, cluster: nat): seq<Extent>
    requires OnVolume(runs, lcn, cluster) && forall r <- runs :: Storable(r)
  {
    if runs == [] then []
    else
      var start := lcn + runs[0].delta;
      [(start * cluster, runs[0].length * cluster)] + ExtentsOf(runs[1..], start, cluster)
  }

  lemma RunBytes(r: Run, rest: Data)
    requires Storable(r)
    ensures var d := EncodeRun(r) + rest;
            && d != [] && d[0] % 16 == r.lengthSize && d[0] / 16 == r.offsetSize && d[0] != 0
            && d[1 + r.lengthSize + r.offsetSize..] == rest
            && d[1..1 + r.lengthSize] == PutLe(r.length, r.lengthSize)
            && Unsigned(r.delta, r.offsetSize) >= 0
            && d[1 + r.lengthSize..1 + r.lengthSize + r.offsetSize] ==
                 PutLe(Unsigned(r.delta, r.offsetSize), r.offsetSize)
  {
    SignedRoundTrip(r.delta, r.offsetSize);
    hide PutLe, Unsigned, FitsSigned;
  }

  lemma RunIsRead(r: Run, lcn: int, cluster: nat, rest: Data)
    requires Storable(r)
    ensures var d := EncodeRun(r) + rest;
            && d != [] && d[0] != 0 && d[1 + r.lengthSize + r.offsetSize..] == rest
            && NextRun(d, lcn, cluster) == Placed(r.length, lcn + r.delta, cluster, 1 + r.lengthSize + r.offsetSize)
  {
    hide Signed, GetLe, PutLe, Unsigned, EncodeRun, Placed, FitsSigned;
    RunBytes(r, rest);
    SignedRoundTrip(r.delta, r.offsetSize);
    LeRoundTrip(r.length, r.lengthSize);
    LeRoundTrip(Unsigned(r.delta, r.offsetSize), r.offsetSize);
  }

  /** Every stored list of runs that stays on the volume is read as the extents it stands for. */
  lemma {:induction false} RunsRoundTrip(runs: seq<Run>, lcn: int, cluster: nat, rest: Data)
    requires (forall r <- runs :: Storable(r)) && OnVolume(runs, lcn, cluster) && rest != [] && rest[0] == 0
    ensures DecodeFrom(Encode(runs) + rest, lcn, cluster) == Ok(ExtentsOf(runs, lcn, cluster))
    decreases |runs|
  {
    hide EncodeRun, NextRun, Storable;
    if runs == [] {
      assert Encode(runs) + rest == rest;
    } else {
      var tail := Encode(runs[1..]) + rest;
      assert Encode(runs) + rest == EncodeRun(runs[0]) + tail;
      RunIsRead(runs[0], lcn, cluster, tail);
      RunIsPlaced(runs[0], lcn, cluster);
      RunsRoundTrip(runs[1..], lcn + runs[0].delta, cluster, rest);
    }
  }

  lemma RunIsPlaced(r: Run, lcn: int, cluster: nat)
    requires Storable(r) && 0 <= lcn + r.delta && IsI64(lcn + r.delta)
    requires (lcn + r.delta) * cluster <= U64_MAX && r.length * cluster <= U64_MAX
    ensures Placed(r.length, lcn + r.delta, cluster, 1 + r.lengthSize + r.offsetSize) ==
            Ok(Step(((lcn + r.delta) * cluster, r.length * cluster), lcn + r.delta, 1 + r.lengthSize + r.offsetSize))
  {
  }

  // ---------- The decoder ----------

  /** A little-endian number, byte by byte. */
  method ReadLe(d: Data, at: nat, size: nat) returns (n: nat)
    requires at + size <= |d|
    ensures n == GetLe(d[at..at + size])
  {
    n := 0;
    var weight := 1;
    for i := 0 to size
      invariant weight > 0 && n + weight * GetLe(d[at + i..at + size]) == GetLe(d[at..at + size])
    {
      var rest := d[at + i..at + size];
      assert rest[0] == d[at + i] && rest[1..] == d[at + i + 1..at + size];
      Unfold(n, weight, d[at + i], GetLe(rest[1..]));
      n := n + weight * d[at + i];
      weight := weight * 256;
    }
  }

  lemma Unfold(n: nat, weight: nat, low: nat, high: nat)
    ensures n + weight * (low + 256 * high) == (n + weight * low) + (weight * 256) * high && n + weight * low >= 0
  {
  }

  method ReadRun(d: Data, cursor: nat, lcn: int, cluster: nat) returns (r: Result<Step, RunError>)
    requires cursor < |d|
    ensures r == NextRun(d[cursor..], lcn, cluster)
  {
    hide GetLe, Signed;
    ghost var rest := d[cursor..];
    var lengthSize: nat, offsetSize: nat := d[cursor] % 16, d[cursor] / 16;
    if lengthSize == 0 || lengthSize > 8 || offsetSize > 8 {
      return Err(BadHeader);
    }
    if cursor + 1 + lengthSize + offsetSize > |d| {
      return Err(Truncated);
    }
    var length := ReadLe(d, cursor + 1, lengthSize);
    assert rest[1..1 + lengthSize] == d[cursor + 1..cursor + 1 + lengthSize];
    if offsetSize == 0 {
      return Err(SparseRun);
    }
    var bits := ReadLe(d, cursor + 1 + lengthSize, offsetSize);
    assert rest[1 + lengthSize..1 + lengthSize + offsetSize] ==
             d[cursor + 1 + lengthSize..cursor + 1 + lengthSize + offsetSize];
    var start := lcn + Signed(bits, offsetSize);
    if !IsI64(start) {
      return Err(OffsetOverflow);
    }
    if start < 0 || length == 0 {
      return Err(BeforeStart);
    }
    if start * cluster > U64_MAX || length * cluster > U64_MAX {
      return Err(SizeOverflow);
    }
    r := Ok(Step((start * cluster, length * cluster), start, 1 + lengthSize + offsetSize));
  }

  method DecodeDataRuns(d: Data, cluster: nat) returns (r: Extents)
    ensures r == Decode(d, cluster)
  {
    hide NextRun;
    var extents: seq<Extent> := [];
    var cursor: nat, lcn: int := 0, 0;
    assert d[0..] == d;
    PrependNone(DecodeFrom(d, 0, cluster));
    while cursor < |d|
      invariant cursor <= |d|
      invariant DecodeFrom(d, 0, cluster) == Prepend(extents, DecodeFrom(d[cursor..], lcn, cluster))
      decreases |d| - cursor
    {
      assert d[cursor..][0] == d[cursor];
      if d[cursor] == 0 {
        break;
      }
      var run := ReadRun(d, cursor, lcn, cluster);
      if run.Err? {
        return Err(run.error);
      }
      var step := run.value;
      assert d[cursor..][step.size..] == d[cursor + step.size..];
      PrependOne(extents, step.extent, DecodeFrom(d[cursor + step.size..], step.lcn, cluster));
      extents, lcn, cursor := extents + [step.extent], step.lcn, cursor + step.size;
    }
    assert extents + [] == extents;
    r := if extents == [] then Err(NoRuns) else Ok(extents);
  }

  lemma PrependNone(rest: Extents)
    ensures Prepend([], rest) == rest
  {
    if rest.Ok? {
      assert [] + rest.value == rest.value;
    }
  }

  function Prepend(extents: seq<Extent>, rest: Extents): Extents {
    if rest.Ok? then Ok(extents + rest.value) else rest
  }

  lemma PrependOne(extents: seq<Extent>, e: Extent, rest: Extents)
    ensures Prepend(extents, Cons(e, rest)) == Prepend(extents + [e], rest)
  {
    if rest.Ok? {
      assert extents + ([e] + rest.value) == extents + [e] + rest.value;
    }
  }
}
