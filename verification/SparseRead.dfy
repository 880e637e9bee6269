/**
 Leaving out the free parts of the MFT. Long runs of clusters without a record in use are not read at all; everything
 else is, in the order of the stream.
 */
module SparseRead {
  import opened Basics
  import opened Bits
  import opened Bytes
  import opened RecordFixups
  import opened BatchParser
  import opened VolumeReader

  // ---------- Which clusters hold a record in use ----------

  predicate BitSet(bitmap: Data, record: nat) {
    record / 8 < |bitmap| && Bit(bitmap[record / 8], record % 8)
  }

  predicate InUse(bitmap: Data, perCluster: nat, cluster: nat, k: nat) {
    BitSet(bitmap, cluster * perCluster + k)
  }

  predicate Occupied(bitmap: Data, perCluster: nat, cluster: nat) {
    exists k: nat :: k < perCluster && InUse(bitmap, perCluster, cluster, k)
  }

  method ClusterOccupied(bitmap: Data, perCluster: nat, cluster: nat) returns (occupied: bool)
    ensures occupied == Occupied(bitmap, perCluster, cluster)
  {
    hide InUse;
    for k := 0 to perCluster
      invariant forall j: nat :: j < k ==> !InUse(bitmap, perCluster, cluster, j)
    {
      if InUse(bitmap, perCluster, cluster, k) {
        return true;
      }
    }
    return false;
  }

  // ---------- Which clusters are read ----------

  /** `low` and `high` bound the longest run of free clusters around `c`. */
  ghost predicate FreeRun(free: nat -> bool, total: nat, c: nat, low: nat, high: nat) {
    && low <= c < high <= total
    && (forall i :: low <= i < high ==> free(i))
    && (low > 0 ==> !free(low - 1)) && (high < total ==> !free(high))
  }

  /** Clusters in use are read, and so are free ones in runs that are too short to be worth leaving out. */
  ghost predicate KeepsRight(free: nat -> bool, skip: nat, keep: seq<bool>) {
    && (forall c: nat :: c < |keep| && !free(c) ==> keep[c])
    && (forall c: nat, low: nat, high: nat :: FreeRun(free, |keep|, c, low, high) ==> (keep[c] <==> high - low < skip))
  }

  ghost function FreeOf(bitmap: Data, perCluster: nat): nat -> bool {
    (c: nat) => !Occupied(bitmap, perCluster, c)
  }

  lemma RunIsUnique(free: nat -> bool, total: nat, c: nat, low: nat, high: nat, low1: nat, high1: nat)
    requires FreeRun(free, total, c, low, high) && FreeRun(free, total, c, low1, high1)
    ensures low == low1 && high == high1
  {
  }

  /** The flags below `c` are right, and no run of free clusters is cut at `c`. */
  ghost predicate RightSoFar(free: nat -> bool, skip: nat, keep: seq<bool>, c: nat) {
    && c <= |keep| && (c == 0 || c == |keep| || !free(c - 1) || !free(c))
    && (forall i: nat :: i < c && !free(i) ==> keep[i])
    && (forall i: nat, low: nat, high: nat ::
          i < c && FreeRun(free, |keep|, i, low, high) ==> (keep[i] <==> high - low < skip))
  }

  lemma OccupiedStep(free: nat -> bool, skip: nat, keep: seq<bool>, c: nat)
    requires RightSoFar(free, skip, keep, c) && c < |keep| && !free(c)
    ensures RightSoFar(free, skip, keep[c := true], c + 1)
  {
  }

  lemma RunStep(free: nat -> bool, skip: nat, keep: seq<bool>, start: nat, end: nat, after: seq<bool>)
    requires RightSoFar(free, skip, keep, start) && start < end <= |keep| == |after|
    requires (forall i :: start <= i < end ==> free(i)) && (end < |keep| ==> !free(end))
    requires forall i :: 0 <= i < start ==> after[i] == keep[i]
    requires forall i :: start <= i < end ==> (after[i] <==> end - start < skip)
    ensures RightSoFar(free, skip, after, end)
  {
    assert free(start);
    forall i: nat, low: nat, high: nat | i < end && FreeRun(free, |after|, i, low, high)
      ensures after[i] <==> high - low < skip
    {
      if start <= i {
        assert FreeRun(free, |after|, i, start, end);
        RunIsUnique(free, |after|, i, start, end, low, high);
      }
    }
  }

  /** The end of the run of free clusters that starts at `start`. */
  method RunEnd(bitmap: Data, perCluster: nat, start: nat, total: nat) returns (end: nat)
    requires start < total && FreeOf(bitmap, perCluster)(start)
    ensures start < end <= total && (forall i :: start <= i < end ==> FreeOf(bitmap, perCluster)(i))
    ensures end < total ==> !FreeOf(bitmap, perCluster)(end)
  {
    hide Occupied;
    end := start + 1;
    while end < total
      invariant start < end <= total && (forall i :: start <= i < end ==> FreeOf(bitmap, perCluster)(i))
    {
      var occupied := ClusterOccupied(bitmap, perCluster, end);
      if occupied {
        return;
      }
      end := end + 1;
    }
  }

  method KeepFlags(bitmap: Data, perCluster: nat, total: nat, skip: nat) returns (keep: seq<bool>)
    ensures |keep| == total && KeepsRight(FreeOf(bitmap, perCluster), skip, keep)
  {
    hide Occupied;
    ghost var free := FreeOf(bitmap, perCluster);
    keep := seq(total, _ => false);
    var c: nat := 0;
    while c < total
      invariant c <= total == |keep| && RightSoFar(free, skip, keep, c)
      invariant forall i :: c <= i < total ==> !keep[i]
      decreases total - c
    {
      hide RightSoFar;
      var occupied := ClusterOccupied(bitmap, perCluster, c);
      if occupied {
        OccupiedStep(free, skip, keep, c);
        keep := keep[c := true];
        c := c + 1;
      } else {
        var end := RunEnd(bitmap, perCluster, c, total);
        ghost var before := keep;
        if end - c < skip {
          for slot := c to end
            invariant |keep| == total
            invariant forall i :: 0 <= i < total ==> keep[i] == if c <= i < slot then true else before[i]
          {
            keep := keep[slot := true];
          }
        }
        RunStep(free, skip, before, c, end, keep);
        c := end;
      }
    }
  }

  // ---------- Back to extents ----------

  lemma {:induction false} StreamConcat(volume: Volume, a: seq<Extent>, b: seq<Extent>)
    ensures Stream(volume, a + b) == Stream(volume, a) + Stream(volume, b)
  {
    if a == [] {
      assert a + b == b;
    } else {
      assert (a + b)[0] == a[0] && (a + b)[1..] == a[1..] + b;
      StreamConcat(volume, a[1..], b);
      Associates(BytesAt(volume, a[0].0, a[0].1), Stream(volume, a[1..]), Stream(volume, b));
    }
  }

  /** A piece that follows the last extent on the volume extends it. */
  function AddPiece(result: seq<Extent>, at: nat, length: nat): seq<Extent> {
    if result != [] && result[|result| - 1].0 + result[|result| - 1].1 == at then
      result[|result| - 1 := (result[|result| - 1].0, result[|result| - 1].1 + length)]
    else result + [(at, length)]
  }

  lemma StreamOfOne(volume: Volume, e: Extent)
    ensures Stream(volume, [e]) == BytesAt(volume, e.0, e.1)
  {
    assert [e][1..] == [];
  }

  lemma PieceAdded(volume: Volume, result: seq<Extent>, at: nat, length: nat)
    ensures Stream(volume, AddPiece(result, at, length)) == Stream(volume, result) + BytesAt(volume, at, length)
  {
    hide Stream, BytesAt;
    var n := |result| - 1;
    if result != [] && result[n].0 + result[n].1 == at {
      PieceExtends(volume, result[..n], result[n].0, result[n].1, length);
      assert result == result[..n] + [result[n]];
      assert AddPiece(result, at, length) == result[..n] + [(result[n].0, result[n].1 + length)];
    } else {
      StreamConcat(volume, result, [(at, length)]);
      StreamOfOne(volume, (at, length));
    }
  }

  lemma PieceExtends(volume: Volume, front: seq<Extent>, start: nat, before: nat, length: nat)
    ensures Stream(volume, front + [(start, before + length)]) ==
            Stream(volume, front + [(start, before)]) + BytesAt(volume, start + before, length)
  {
    hide Stream, BytesAt;
    StreamConcat(volume, front, [(start, before)]);
    StreamConcat(volume, front, [(start, before + length)]);
    StreamOfOne(volume, (start, before));
    StreamOfOne(volume, (start, before + length));
    BytesSplit(volume, start, before, length);
    Associates(Stream(volume, front), BytesAt(volume, start, before), BytesAt(volume, start + before, length));
  }

  predicate Kept(keep: seq<bool>, c: nat) {
    c < |keep| ==> keep[c]
  }

  /** The kept clusters of one extent from its `local`th on; the extent starts with the `logical`th of the stream. */
  ghost function KeptClusters(volume: Volume, start: nat, count: nat, cluster: nat, keep: seq<bool>, logical: nat,
                              local: nat): Data
    requires local <= count
    decreases count - local
  {
    if local == count then []
    else
      (if Kept(keep, logical + local) then BytesAt(volume, start + local * cluster, cluster) else [])
      + KeptClusters(volume, start, count, cluster, keep, logical, local + 1)
  }

  /** What is read of an extent: its kept clusters, and whatever does not fill a cluster at its end. */
  ghost function KeptOf(volume: Volume, e: Extent, cluster: nat, keep: seq<bool>, logical: nat): Data
    requires cluster > 0
  {
    KeptClusters(volume, e.0, e.1 / cluster, cluster, keep, logical, 0)
    + BytesAt(volume, e.0 + e.1 / cluster * cluster, e.1 % cluster)
  }

  ghost function KeptStream(volume: Volume, extents: seq<Extent>, cluster: nat, keep: seq<bool>, logical: nat): Data
    requires cluster > 0
  {
    if extents == [] then []
    else KeptOf(volume, extents[0], cluster, keep, logical)
         + KeptStream(volume, extents[1..], cluster, keep, logical + extents[0].1 / cluster)
  }

  method MapExtent(result: seq<Extent>, e: Extent, cluster: nat, keep: seq<bool>, logical: nat, ghost volume: Volume)
    returns (more: seq<Extent>)
    requires cluster > 0
    ensures Stream(volume, more) == Stream(volume, result) + KeptOf(volume, e, cluster, keep, logical)
  {
    hide Stream, AddPiece;
    more := result;
    var count := e.1 / cluster;
    for local := 0 to count
      invariant Stream(volume, more) + KeptClusters(volume, e.0, count, cluster, keep, logical, local) ==
                Stream(volume, result) + KeptClusters(volume, e.0, count, cluster, keep, logical, 0)
    {
      ghost var rest := KeptClusters(volume, e.0, count, cluster, keep, logical, local + 1);
      if Kept(keep, logical + local) {
        PieceAdded(volume, more, e.0 + local * cluster, cluster);
        Associates(Stream(volume, more), BytesAt(volume, e.0 + local * cluster, cluster), rest);
        more := AddPiece(more, e.0 + local * cluster, cluster);
      } else {
        assert [] + rest == rest;
      }
    }
    assert Stream(volume, more) + [] == Stream(volume, more);
    ghost var kept := KeptClusters(volume, e.0, count, cluster, keep, logical, 0);
    var tail := e.1 % cluster;
    Associates(Stream(volume, result), kept, BytesAt(volume, e.0 + count * cluster, tail));
    if tail != 0 {
      PieceAdded(volume, more, e.0 + count * cluster, tail);
      more := AddPiece(more, e.0 + count * cluster, tail);
    } else {
      assert BytesAt(volume, e.0 + count * cluster, tail) == [];
      assert kept + [] == kept;
    }
  }

  method MapKept(extents: seq<Extent>, cluster: nat, keep: seq<bool>, ghost volume: Volume)
    returns (result: seq<Extent>)
    requires cluster > 0
    ensures Stream(volume, result) == KeptStream(volume, extents, cluster, keep, 0)
  {
    hide Stream, KeptOf;
    result := [];
    var logical: nat := 0;
    NoExtents(volume);
    assert extents[0..] == extents;
    assert [] + KeptStream(volume, extents, cluster, keep, 0) == KeptStream(volume, extents, cluster, keep, 0);
    for i := 0 to |extents|
      invariant Stream(volume, result) + KeptStream(volume, extents[i..], cluster, keep, logical) ==
                KeptStream(volume, extents, cluster, keep, 0)
    {
      assert extents[i..][0] == extents[i] && extents[i..][1..] == extents[i + 1..];
      var next := logical + extents[i].1 / cluster;
      Associates(Stream(volume, result), KeptOf(volume, extents[i], cluster, keep, logical),
                              KeptStream(volume, extents[i + 1..], cluster, keep, next));
      result := MapExtent(result, extents[i], cluster, keep, logical, volume);
      logical := next;
    }
    assert extents[|extents|..] == [] && Stream(volume, result) + [] == Stream(volume, result);
  }

  lemma NoExtents(volume: Volume)
    ensures Stream(volume, []) == []
  {
  }

  function TotalClusters(extents: seq<Extent>, cluster: nat): nat
    requires cluster > 0
  {
    if extents == [] then 0 else extents[0].1 / cluster + TotalClusters(extents[1..], cluster)
  }

  function SkipClusters(skipBytes: nat, cluster: nat): nat
    requires cluster > 0
  {
    Max(DivCeil(skipBytes, cluster), 1)
  }

  /** Extents that give the clusters worth reading, and nothing else but the ends of extents. */
  method MftKeepExtents(extents: seq<Extent>, bitmap: Data, cluster: nat, skipBytes: nat, ghost volume: Volume)
    returns (result: seq<Extent>)
    requires cluster > 0
    ensures cluster < RECORD_SIZE || TotalClusters(extents, cluster) == 0 ==> result == extents
    ensures cluster >= RECORD_SIZE && TotalClusters(extents, cluster) > 0 ==>
              exists keep :: |keep| == TotalClusters(extents, cluster)
                             && KeepsRight(FreeOf(bitmap, cluster / RECORD_SIZE), SkipClusters(skipBytes, cluster),
                                           keep)
                             && Stream(volume, result) == KeptStream(volume, extents, cluster, keep, 0)
  {
    hide KeepsRight, KeptStream, Stream;
    var perCluster := cluster / RECORD_SIZE;
    if perCluster == 0 {
      return extents;
    }
    var total := TotalClusters(extents, cluster);
    if total == 0 {
      return extents;
    }
    var keep := KeepFlags(bitmap, perCluster, total, SkipClusters(skipBytes, cluster));
    result := MapKept(extents, cluster, keep, volume);
  }

  /** The threshold in clusters is the least number, one at least, that holds the threshold in bytes. */
  lemma ThresholdIsLeast(skipBytes: nat, cluster: nat)
    requires cluster > 0
    ensures var n := SkipClusters(skipBytes, cluster);
            n >= 1 && n * cluster >= skipBytes && (n > 1 ==> (n - 1) * cluster < skipBytes)
  {
    var q, x := DivCeil(skipBytes, cluster), skipBytes + cluster - 1;
    assert x == cluster * (x / cluster) + x % cluster;
    assert (q - 1) * cluster == q * cluster - cluster;
    TimesGrows(q, SkipClusters(skipBytes, cluster), cluster);
  }

  /** A run that is left out is at least as long as the threshold. */
  lemma SkippedRunsAreLong(skipBytes: nat, cluster: nat, run: nat)
    requires cluster > 0 && run >= SkipClusters(skipBytes, cluster)
    ensures run * cluster >= skipBytes
  {
    var q := DivCeil(skipBytes, cluster);
    var x := skipBytes + cluster - 1;
    assert x == cluster * (x / cluster) + x % cluster;
    assert q * cluster >= skipBytes;
    TimesGrows(q, run, cluster);
  }
}
