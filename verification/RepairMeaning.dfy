/** What the repair of a record does, read off its bytes. */
module RepairMeaning {
  import opened Basics
  import opened Bytes
  import opened RecordFixups

  predicate Starts(d: Data, letters: string) {
    |letters| <= |d| && forall i :: 0 <= i < |letters| ==> d[i] == letters[i] as int
  }

  /** The two numbers in the header of a record: where the update array lies, and how many entries it has. */
  function ArrayAt(d: Data): nat
    requires |d| >= 8
  {
    (d[4] as int) + 256 * (d[5] as int)
  }

  function ArrayLength(d: Data): nat
    requires |d| >= 8
  {
    (d[6] as int) + 256 * (d[7] as int)
  }

  /** Each sector that the array speaks of ends with the two bytes at the start of the array. */
  ghost predicate IsIntact(d: Data, sector: nat)
    requires |d| >= 8
  {
    var at, count := ArrayAt(d), ArrayLength(d);
    && sector >= 2 && count >= 2 && at + 2 * count <= |d|
    && forall i: nat :: 1 <= i < count ==> EndsLike(d, sector, i, at)
  }

  predicate EndsLike(d: Data, sector: nat, i: nat, at: nat) {
    2 <= i * sector <= |d| && at + 2 <= |d| && d[i * sector - 2] == d[at] && d[i * sector - 1] == d[at + 1]
  }

  /** The bytes of a sector's end come from its entry in the array. */
  predicate IsPutBack(d: Data, r: Data, end: nat, entry: nat) {
    2 <= end <= |d| == |r| && entry + 2 <= |d| && r[end - 2] == d[entry] && r[end - 1] == d[entry + 1]
  }

  ghost predicate IsRestored(d: Data, r: Data, sector: nat)
    requires |d| >= 8
  {
    && |r| == |d|
    && (forall i: nat :: 1 <= i < ArrayLength(d) ==> IsPutBack(d, r, i * sector, ArrayAt(d) + 2 * i))
    && (forall p: nat :: p < |d| && (forall i: nat :: 1 <= i < ArrayLength(d) ==> !IsEndOf(p, i, sector)) ==>
          r[p] == d[p])
  }

  lemma CheckedIs(d: Data, sector: nat, at: nat, i: nat)
    requires at + 2 <= |d|
    ensures Checked(d, sector, d[at..at + 2], i) <==> EndsLike(d, sector, i, at)
  {
  }

  lemma SectorsAreChecked(d: Data, sector: nat, at: nat, count: nat)
    requires sector >= 2 && at + count * 2 <= |d| && count >= 1
    ensures FixSectors(d, sector, at, count, d[at..at + 2], 1).1 <==>
            forall i: nat :: 1 <= i < count ==> EndsLike(d, sector, i, at)
  {
    hide FixSectors, Checked, EndsLike;
    AcceptedExactly(d, sector, at, count, d[at..at + 2], 1);
    if FixSectors(d, sector, at, count, d[at..at + 2], 1).1 {
      forall i: nat | 1 <= i < count ensures EndsLike(d, sector, i, at) {
        CheckedIs(d, sector, at, i);
      }
    } else {
      var i: nat :| 1 <= i < count && !Checked(d, sector, d[at..at + 2], i);
      CheckedIs(d, sector, at, i);
    }
  }

  lemma IntactIsChecked(d: Data, sector: nat)
    requires |d| >= 8
    ensures FixRecord(d, sector).1 <==> IsIntact(d, sector)
  {
    hide FixSectors, EndsLike;
    var at, count := U16At(d, 4), U16At(d, 6);
    if sector >= 2 && count >= 2 && at + count * 2 <= |d| {
      SectorsAreChecked(d, sector, at, count);
    }
  }

  lemma RestoredSector(d: Data, r: Data, sector: nat, at: nat, count: nat, i: nat)
    requires RightBefore(d, r, sector, at, count, count) && at + 2 * count <= sector - 2 && 1 <= i < count
    requires 2 <= i * sector <= |d|
    ensures IsPutBack(d, r, i * sector, at + 2 * i)
  {
    var low, high: nat := i * sector - 2, i * sector - 1;
    OriginIsEntry(low, count, sector, at, count);
    OriginIsEntry(high, count, sector, at, count);
    assert IsEndOf(low, i, sector) && IsEndOf(high, i, sector);
    assert IsOriginal(d, r, low, count, sector, at) && IsOriginal(d, r, high, count, sector, at);
  }

  lemma RestoredIs(d: Data, sector: nat)
    requires |d| >= 8 && IsIntact(d, sector) && ArrayAt(d) + 2 * ArrayLength(d) <= sector - 2
    ensures IsRestored(d, FixRecord(d, sector).0, sector)
  {
    var at, count, r := ArrayAt(d), ArrayLength(d), FixRecord(d, sector).0;
    IntactIsChecked(d, sector);
    AcceptedBytes(d, sector);
    hide FixRecord, Origin;
    forall i: nat | 1 <= i < count ensures IsPutBack(d, r, i * sector, at + 2 * i) {
      assert EndsLike(d, sector, i, at);
      RestoredSector(d, r, sector, at, count, i);
    }
    forall p: nat | p < |d| && (forall i: nat :: 1 <= i < count ==> !IsEndOf(p, i, sector)) ensures r[p] == d[p] {
      OriginIsEntry(p, count, sector, at, count);
      assert IsOriginal(d, r, p, count, sector, at);
    }
  }

  /** A record that does not start with FILE is left alone. Another one is intact, and then the ends of its sectors are
      restored, or it starts with BAAD from then on. */
  lemma RepairMeans(d: Data, sector: nat)
    requires |d| == RECORD_SIZE == 1024
    ensures var r := Repaired(d, sector);
            && (!Starts(d, "FILE") ==> r == d)
            && (Starts(d, "FILE") && !IsIntact(d, sector) ==> Starts(r, "BAAD"))
            && (Starts(d, "FILE") && IsIntact(d, sector) && ArrayAt(d) + 2 * ArrayLength(d) <= sector - 2 ==>
                  IsRestored(d, r, sector))
  {
    IntactIsChecked(d, sector);
    Letters(d);
    hide FixRecord, IsIntact;
    if IsIntact(d, sector) && ArrayAt(d) + 2 * ArrayLength(d) <= sector - 2 {
      RestoredIs(d, sector);
    }
  }

  lemma Letters(d: Data)
    requires |d| == RECORD_SIZE
    ensures d[..4] == FILE_SIGNATURE <==> Starts(d, "FILE")
    ensures Starts(BAD_SIGNATURE + d[4..], "BAAD")
  {
  }
}
