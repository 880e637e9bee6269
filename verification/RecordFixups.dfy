/**
 The update sequence of file records: on disk the last two bytes of every sector hold a check value, and the bytes
 that belong there stand in an array inside the record.
 */
module RecordFixups {
  import opened Basics
  import opened Bytes

  const RECORD_SIZE := 1024

  const FILE_SIGNATURE: Data := [0x46, 0x49, 0x4C, 0x45]
  const BAD_SIGNATURE: Data := [0x42, 0x41, 0x41, 0x44]

  function U16At(d: Data, at: nat): nat
    requires at + 2 <= |d|
  {
    (d[at] as int) + 256 * (d[at + 1] as int)
  }

  lemma SectorEnds(index: nat, sector: nat)
    requires index >= 1 && sector >= 2
    ensures index * sector >= 2
  {
    assert index * sector == (index - 1) * sector + sector;
    assert (index - 1) * sector >= 0;
  }

  predicate EndsWithCheck(d: Data, end: nat, check: Data) {
    2 <= end <= |d| && |check| == 2 && d[end - 2] == check[0] && d[end - 1] == check[1]
  }

  /** The sectors from `index` on are put right, up to the first whose check bytes differ. */
  function FixSectors(d: Data, sector: nat, usa: nat, count: nat, check: Data, index: nat): (r: (Data, bool))
    requires sector >= 2 && 1 <= index && usa + count * 2 <= |d|
    ensures |r.0| == |d|
    decreases count - index
  {
    if index >= count then (d, true)
    else
      var end := index * sector;
      if !EndsWithCheck(d, end, check) then (d, false)
      else FixSectors(d[end - 2 := d[usa + index * 2]][end - 1 := d[usa + index * 2 + 1]], sector, usa, count, check,
                      index + 1)
  }

  /** One record with its sectors put right; false for a torn or malformed one. */
  function FixRecord(d: Data, sector: nat): (r: (Data, bool))
    ensures |r.0| == |d|
  {
    if |d| < 8 || sector < 2 then (d, false)
    else
      var usa, count := U16At(d, 4), U16At(d, 6);
      if count < 2 || usa + count * 2 > |d| then (d, false)
      else FixSectors(d, sector, usa, count, d[usa..usa + 2], 1)
  }

  /** What the parser gets to see of a record. */
  function Repaired(d: Data, sector: nat): (r: Data)
    requires |d| == RECORD_SIZE
    ensures |r| == |d|
  {
    if d[..4] != FILE_SIGNATURE then d
    else
      var (fixed, ok) := FixRecord(d, sector);
      if ok then fixed else BAD_SIGNATURE + fixed[4..]
  }

  function RepairedAll(d: Data, sector: nat): (r: Data)
    ensures |r| == |d|
  {
    if |d| < RECORD_SIZE then d else Repaired(d[..RECORD_SIZE], sector) + RepairedAll(d[RECORD_SIZE..], sector)
  }

  // ---------- What the repair restores ----------

  lemma EndsApart(i: nat, j: nat, sector: nat)
    requires i < j
    ensures i * sector + sector <= j * sector
  {
    assert j * sector == i * sector + (j - i) * sector;
    assert (j - i) * sector >= sector by {
      assert (j - i) * sector == sector + (j - i - 1) * sector;
    }
  }

  predicate IsEndOf(p: nat, index: nat, sector: nat) {
    p + 2 == index * sector || p + 1 == index * sector
  }

  /** The array entry for the byte `p` at the end of a sector. */
  function EntryFor(p: nat, index: nat, sector: nat, usa: nat): nat {
    usa + index * 2 + if p + 2 == index * sector then 0 else 1
  }

  /** Where the byte comes from that stands at `p` when the sectors before `index` are right: at the end of a sector
      from the array, or, where the array itself lies at the end of an earlier sector, from where that one came. */
  function Origin(p: nat, index: nat, sector: nat, usa: nat): (q: nat)
    decreases index, p
  {
    if index <= 1 then p
    else if IsEndOf(p, index - 1, sector) then Origin(EntryFor(p, index - 1, sector, usa), index - 1, sector, usa)
    else Origin(p, index - 1, sector, usa)
  }

  lemma {:induction false} OriginInside(p: nat, index: nat, sector: nat, usa: nat, count: nat, size: nat)
    requires p < size && usa + count * 2 <= size && index <= count
    ensures Origin(p, index, sector, usa) < size
    decreases index
  {
    if index > 1 {
      OriginInside(p, index - 1, sector, usa, count, size);
      if IsEndOf(p, index - 1, sector) {
        OriginInside(EntryFor(p, index - 1, sector, usa), index - 1, sector, usa, count, size);
      }
    }
  }

  ghost predicate IsOriginal(d: Data, now: Data, p: nat, index: nat, sector: nat, usa: nat) {
    p < |now| && Origin(p, index, sector, usa) < |d| && now[p] == d[Origin(p, index, sector, usa)]
  }

  /** The buffer when the sectors before `index` have been put right. */
  ghost predicate RightBefore(d: Data, now: Data, sector: nat, usa: nat, count: nat, index: nat) {
    && |now| == |d| && usa + count * 2 <= |d| && index <= count
    && forall p: nat :: p < |d| ==> IsOriginal(d, now, p, index, sector, usa)
  }

  lemma NextIsRight(d: Data, now: Data, sector: nat, usa: nat, count: nat, index: nat, next: Data)
    requires RightBefore(d, now, sector, usa, count, index) && 1 <= index < count && 2 <= index * sector <= |d|
    requires next == now[index * sector - 2 := now[usa + index * 2]][index * sector - 1 := now[usa + index * 2 + 1]]
    ensures RightBefore(d, next, sector, usa, count, index + 1)
  {
    var after := index + 1;
    forall p: nat | p < |d| ensures IsOriginal(d, next, p, after, sector, usa) {
      OriginInside(p, after, sector, usa, count, |d|);
      if IsEndOf(p, index, sector) {
        var entry := EntryFor(p, index, sector, usa);
        assert next[p] == now[entry] && IsOriginal(d, now, entry, index, sector, usa);
      } else {
        assert next[p] == now[p] && IsOriginal(d, now, p, index, sector, usa);
      }
    }
  }

  lemma {:induction false} FixedBytes(d: Data, now: Data, sector: nat, usa: nat, count: nat, check: Data, index: nat)
    requires sector >= 2 && 1 <= index && RightBefore(d, now, sector, usa, count, index)
    requires FixSectors(now, sector, usa, count, check, index).1
    ensures RightBefore(d, FixSectors(now, sector, usa, count, check, index).0, sector, usa, count, count)
    decreases count - index
  {
    SameSize(d, now, sector, usa, count, index);
    hide RightBefore, EndsWithCheck;
    if index < count {
      SectorIsInside(now, sector, usa, count, check, index);
      var end := index * sector;
      var next := now[end - 2 := now[usa + index * 2]][end - 1 := now[usa + index * 2 + 1]];
      NextIsRight(d, now, sector, usa, count, index, next);
      FixedBytes(d, next, sector, usa, count, check, index + 1);
    }
  }

  /** In an accepted record every byte is the one that its origin held on disk. */
  lemma AcceptedBytes(d: Data, sector: nat)
    requires FixRecord(d, sector).1
    ensures |d| >= 8 && RightBefore(d, FixRecord(d, sector).0, sector, U16At(d, 4), U16At(d, 6), U16At(d, 6))
  {
    var usa, count := U16At(d, 4), U16At(d, 6);
    FixedBytes(d, d, sector, usa, count, d[usa..usa + 2], 1);
  }

  lemma SameSize(d: Data, now: Data, sector: nat, usa: nat, count: nat, index: nat)
    requires RightBefore(d, now, sector, usa, count, index)
    ensures |now| == |d| && usa + count * 2 <= |d| && index <= count
  {
  }

  lemma SectorIsInside(now: Data, sector: nat, usa: nat, count: nat, check: Data, index: nat)
    requires sector >= 2 && 1 <= index < count && usa + count * 2 <= |now|
    requires FixSectors(now, sector, usa, count, check, index).1
    ensures EndsWithCheck(now, index * sector, check) && 2 <= index * sector <= |now|
  {
    SectorEnds(index, sector);
  }

  /** Where the array ends before the first sector does, the bytes at the ends of the sectors come straight from it,
      and every other byte stays as it is. */
  lemma {:induction false} OriginIsEntry(p: nat, index: nat, sector: nat, usa: nat, count: nat)
    requires index <= count && usa + count * 2 <= sector - 2
    ensures forall i ::
              1 <= i < index && IsEndOf(p, i, sector) ==> Origin(p, index, sector, usa) == EntryFor(p, i, sector, usa)
    ensures (forall i :: 1 <= i < index ==> !IsEndOf(p, i, sector)) ==> Origin(p, index, sector, usa) == p
    decreases index, sector - p
  {
    if index > 1 {
      if IsEndOf(p, index - 1, sector) {
        EndsInOrder(p, index - 1, sector);
        var entry := EntryFor(p, index - 1, sector, usa);
        forall i | 1 <= i < index - 1 ensures !IsEndOf(entry, i, sector) {
          EndsApart(0, i, sector);
        }
        OriginIsEntry(entry, index - 1, sector, usa, count);
      } else {
        OriginIsEntry(p, index - 1, sector, usa, count);
      }
    }
  }

  lemma EndsInOrder(p: nat, index: nat, sector: nat)
    requires IsEndOf(p, index, sector) && sector >= 2
    ensures forall i: nat :: IsEndOf(p, i, sector) ==> i == index
  {
    forall i: nat | IsEndOf(p, i, sector) ensures i == index {
      if i < index {
        EndsApart(i, index, sector);
      } else if index < i {
        EndsApart(index, i, sector);
      }
    }
  }

  predicate Checked(d: Data, sector: nat, check: Data, i: nat) {
    EndsWithCheck(d, i * sector, check)
  }

  /** Repairing a sector leaves the ends of the later ones as they are. */
  lemma LaterEndsStay(d: Data, sector: nat, check: Data, index: nat, low: Byte, high: Byte, i: nat)
    requires sector >= 2 && 2 <= index * sector <= |d| && index < i
    ensures Checked(d[index * sector - 2 := low][index * sector - 1 := high], sector, check, i) <==>
            Checked(d, sector, check, i)
  {
    EndsApart(index, i, sector);
  }

  lemma SectorTurn(d: Data, sector: nat, usa: nat, count: nat, check: Data, index: nat)
    requires sector >= 2 && 1 <= index && usa + count * 2 <= |d|
    ensures index >= count ==> FixSectors(d, sector, usa, count, check, index) == (d, true)
    ensures index < count && !Checked(d, sector, check, index) ==>
              FixSectors(d, sector, usa, count, check, index) == (d, false)
    ensures index < count && Checked(d, sector, check, index) ==>
              && 2 <= index * sector <= |d|
              && FixSectors(d, sector, usa, count, check, index) ==
                 FixSectors(d[index * sector - 2 := d[usa + index * 2]][index * sector - 1 := d[usa + index * 2 + 1]],
                            sector, usa, count, check, index + 1)
  {
  }

  /** A record is accepted exactly when all its sectors carry the check value. */
  lemma {:induction false} AcceptedExactly(d: Data, sector: nat, usa: nat, count: nat, check: Data, index: nat)
    requires sector >= 2 && 1 <= index && usa + count * 2 <= |d|
    ensures FixSectors(d, sector, usa, count, check, index).1 <==>
            forall i: nat :: index <= i < count ==> Checked(d, sector, check, i)
    decreases count - index
  {
    SectorTurn(d, sector, usa, count, check, index);
    hide FixSectors, Checked;
    if index < count && Checked(d, sector, check, index) {
      var low, high := d[usa + index * 2], d[usa + index * 2 + 1];
      var next := d[index * sector - 2 := low][index * sector - 1 := high];
      AcceptedExactly(next, sector, usa, count, check, index + 1);
      forall i: nat | index < i ensures Checked(next, sector, check, i) <==> Checked(d, sector, check, i) {
        LaterEndsStay(d, sector, check, index, low, high, i);
      }
    }
  }

  // ---------- In place ----------

  /** Puts one record right inside the buffer that holds it. */
  method ApplyRecordFixups(buffer: array<Byte>, start: nat, sector: nat) returns (ok: bool)
    requires start + RECORD_SIZE <= buffer.Length
    modifies buffer
    ensures buffer[..start] == old(buffer[..start])
            && buffer[start + RECORD_SIZE..] == old(buffer[start + RECORD_SIZE..])
    ensures (buffer[start..start + RECORD_SIZE], ok) == FixRecord(old(buffer[start..start + RECORD_SIZE]), sector)
  {
    hide FixSectors;
    ghost var before := buffer[start..start + RECORD_SIZE];
    if sector < 2 {
      return false;
    }
    var usa: nat := (buffer[start + 4] as int) + 256 * (buffer[start + 5] as int);
    var count: nat := (buffer[start + 6] as int) + 256 * (buffer[start + 7] as int);
    if count < 2 || usa + count * 2 > RECORD_SIZE {
      return false;
    }
    var check := [buffer[start + usa], buffer[start + usa + 1]];
    assert before[usa] == check[0] && before[usa + 1] == check[1];
    assert before[usa..usa + 2] == check;
    ok := ApplySectors(buffer, start, sector, usa, count, check);
  }

  method ApplySectors(buffer: array<Byte>, start: nat, sector: nat, usa: nat, count: nat, check: Data)
    returns (ok: bool)
    requires start + RECORD_SIZE <= buffer.Length && sector >= 2 && usa + count * 2 <= RECORD_SIZE && |check| == 2
    modifies buffer
    ensures buffer[..start] == old(buffer[..start])
            && buffer[start + RECORD_SIZE..] == old(buffer[start + RECORD_SIZE..])
    ensures (buffer[start..start + RECORD_SIZE], ok) ==
            FixSectors(old(buffer[start..start + RECORD_SIZE]), sector, usa, count, check, 1)
  {
    hide FixSectors;
    var index := 1;
    while index < count
      invariant 1 <= index
      invariant buffer[..start] == old(buffer[..start])
                && buffer[start + RECORD_SIZE..] == old(buffer[start + RECORD_SIZE..])
      invariant FixSectors(buffer[start..start + RECORD_SIZE], sector, usa, count, check, index) ==
                FixSectors(old(buffer[start..start + RECORD_SIZE]), sector, usa, count, check, 1)
    {
      var end: nat := index * sector;
      ghost var d := buffer[start..start + RECORD_SIZE];
      SectorEnds(index, sector);
      SectorTurn(d, sector, usa, count, check, index);
      if end > RECORD_SIZE {
        return false;
      }
      if buffer[start + end - 2] != check[0] || buffer[start + end - 1] != check[1] {
        return false;
      }
      var low, high := buffer[start + usa + index * 2], buffer[start + usa + index * 2 + 1];
      WritePair(buffer, start, end, low, high);
      index := index + 1;
    }
    SectorTurn(buffer[start..start + RECORD_SIZE], sector, usa, count, check, index);
    ok := true;
  }

  /** Puts two bytes at the end of a sector of the record at `start`. */
  method WritePair(buffer: array<Byte>, start: nat, end: nat, low: Byte, high: Byte)
    requires start + RECORD_SIZE <= buffer.Length && 2 <= end <= RECORD_SIZE
    modifies buffer
    ensures buffer[..start] == old(buffer[..start])
    ensures buffer[start + RECORD_SIZE..] == old(buffer[start + RECORD_SIZE..])
    ensures buffer[start..start + RECORD_SIZE] ==
            old(buffer[start..start + RECORD_SIZE])[end - 2 := low][end - 1 := high]
  {
    buffer[start + end - 2] := low;
    buffer[start + end - 1] := high;
  }

  /** The buffer with the record at `offset` repaired. */
  function WithRepair(d: Data, offset: nat, sector: nat): Data
    requires offset + RECORD_SIZE <= |d|
  {
    d[..offset] + Repaired(d[offset..offset + RECORD_SIZE], sector) + d[offset + RECORD_SIZE..]
  }

  method MarkBad(buffer: array<Byte>, offset: nat)
    requires offset + RECORD_SIZE <= buffer.Length
    modifies buffer
    ensures buffer[..offset] == old(buffer[..offset])
    ensures buffer[offset + RECORD_SIZE..] == old(buffer[offset + RECORD_SIZE..])
    ensures buffer[offset..offset + RECORD_SIZE] == BAD_SIGNATURE + old(buffer[offset..offset + RECORD_SIZE])[4..]
  {
    buffer[offset], buffer[offset + 1], buffer[offset + 2], buffer[offset + 3] := 0x42, 0x41, 0x41, 0x44;
  }

  method RepairAt(buffer: array<Byte>, offset: nat, sector: nat)
    requires offset + RECORD_SIZE <= buffer.Length
    modifies buffer
    ensures buffer[..] == WithRepair(old(buffer[..]), offset, sector)
  {
    hide FixRecord;
    ghost var before := buffer[..];
    assert buffer[offset..offset + 4] == before[offset..offset + RECORD_SIZE][..4];
    if buffer[offset..offset + 4] == FILE_SIGNATURE {
      var ok := ApplyRecordFixups(buffer, offset, sector);
      if !ok {
        MarkBad(buffer, offset);
      }
    }
    assert buffer[..] == buffer[..offset] + buffer[offset..offset + RECORD_SIZE] + buffer[offset + RECORD_SIZE..];
  }

  lemma RepairedStep(d: Data, offset: nat, sector: nat)
    requires offset + RECORD_SIZE <= |d|
    ensures var next := WithRepair(d, offset, sector);
            |next| == |d| &&
            next[..offset + RECORD_SIZE] + RepairedAll(next[offset + RECORD_SIZE..], sector) ==
              d[..offset] + RepairedAll(d[offset..], sector)
  {
    hide Repaired;
    var next, record, rest := WithRepair(d, offset, sector), d[offset..offset + RECORD_SIZE], d[offset + RECORD_SIZE..];
    assert d[offset..][..RECORD_SIZE] == record && d[offset..][RECORD_SIZE..] == rest;
    assert next[..offset + RECORD_SIZE] == d[..offset] + Repaired(record, sector)
           && next[offset + RECORD_SIZE..] == rest;
    Associates(d[..offset], Repaired(record, sector), RepairedAll(rest, sector));
  }

  /** Every whole record of the buffer is put right; a torn one loses its signature. */
  method ApplyMftFixups(buffer: array<Byte>, sector: nat)
    modifies buffer
    ensures buffer[..] == RepairedAll(old(buffer[..]), sector)
  {
    var offset: nat := 0;
    ghost var d := buffer[..];
    assert d[..0] == [] && d[0..] == d;
    while offset + RECORD_SIZE <= buffer.Length
      invariant 0 <= offset <= buffer.Length && d == buffer[..]
      invariant d[..offset] + RepairedAll(d[offset..], sector) == RepairedAll(old(buffer[..]), sector)
    {
      hide Repaired, RepairedAll, WithRepair;
      RepairedStep(d, offset, sector);
      RepairAt(buffer, offset, sector);
      d := buffer[..];
      offset := offset + RECORD_SIZE;
    }
    assert d[..offset] + d[offset..] == d;
  }
}
