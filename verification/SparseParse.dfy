/** Leaving out free clusters loses no entry, as long as the records without their bit hold none. */
module SparseParse {
  import opened Basics
  import opened Bytes
  import opened RecordFixups
  import opened BatchParser
  import opened VolumeReader
  import opened SparseRead

  /** The kept clusters of a stream, in their order. */
  ghost function KeptParts(s: Data, cluster: nat, keep: seq<bool>, i: nat): Data
    requires cluster > 0
    decreases |s|
  {
    if |s| < cluster then s
    else (if Kept(keep, i) then s[..cluster] else []) + KeptParts(s[cluster..], cluster, keep, i + 1)
  }

  lemma PartsStep(first: Data, rest: Data, cluster: nat, keep: seq<bool>, i: nat)
    requires cluster > 0 && |first| == cluster
    ensures KeptParts(first + rest, cluster, keep, i) ==
              (if Kept(keep, i) then first else []) + KeptParts(rest, cluster, keep, i + 1)
  {
    assert (first + rest)[..cluster] == first && (first + rest)[cluster..] == rest;
  }

  lemma {:induction false} KeptPartsConcat(a: Data, b: Data, cluster: nat, keep: seq<bool>, i: nat, count: nat)
    requires cluster > 0 && |a| == count * cluster
    ensures KeptParts(a + b, cluster, keep, i) ==
              KeptParts(a, cluster, keep, i) + KeptParts(b, cluster, keep, i + count)
    decreases count
  {
    if count == 0 {
      assert a == [] && a + b == b && KeptParts(a, cluster, keep, i) == [];
    } else {
      assert count * cluster == cluster + (count - 1) * cluster;
      OneMore(count - 1, cluster);
      var first, rest := a[..cluster], a[cluster..];
      assert a == first + rest;
      Associates(first, rest, b);
      PartsStep(first, rest, cluster, keep, i);
      PartsStep(first, rest + b, cluster, keep, i);
      hide KeptParts, Kept;
      KeptPartsConcat(rest, b, cluster, keep, i + 1, count - 1);
      var kept := if Kept(keep, i) then first else [];
      Associates(kept, KeptParts(rest, cluster, keep, i + 1), KeptParts(b, cluster, keep, i + count));
    }
  }

  lemma ClusterPlace(count: nat, local: nat, cluster: nat)
    requires local < count
    ensures (count - local) * cluster == cluster + (count - (local + 1)) * cluster
    ensures (count - (local + 1)) * cluster >= 0
    ensures (local + 1) * cluster == local * cluster + cluster
  {
    OneMore(count - (local + 1), cluster);
    OneMore(local, cluster);
  }

  lemma SliceOfSlice(s: Data, at: nat, end: nat, low: nat, high: nat)
    requires at <= end <= |s| && low <= high <= end - at
    ensures s[at..end][low..high] == s[at + low..at + high]
  {
    var inner, outer := s[at..end][low..high], s[at + low..at + high];
    assert |inner| == |outer| == high - low;
    forall i | 0 <= i < |inner| ensures inner[i] == outer[i] {
      assert inner[i] == s[at..end][low + i] == s[at + low + i] == outer[i];
    }
  }

  lemma ClustersStep(volume: Volume, start: nat, count: nat, cluster: nat, keep: seq<bool>, logical: nat, local: nat,
                     here: nat)
    requires local < count && here == start + local * cluster
    ensures KeptClusters(volume, start, count, cluster, keep, logical, local) ==
            (if Kept(keep, logical + local) then BytesAt(volume, here, cluster) else [])
            + KeptClusters(volume, start, count, cluster, keep, logical, local + 1)
  {
    hide BytesAt;
  }

  /** `left` bytes from `here` on are the clusters of the extent from its `local`th on. */
  lemma {:induction false} ClustersAreParts(volume: Volume, start: nat, count: nat, cluster: nat, keep: seq<bool>,
                                            logical: nat, local: nat,
                                            here: nat, left: nat)
    requires cluster > 0 && local <= count && here == start + local * cluster && left == (count - local) * cluster
    ensures KeptClusters(volume, start, count, cluster, keep, logical, local) ==
            KeptParts(BytesAt(volume, here, left), cluster, keep, logical + local)
    decreases count - local
  {
    hide KeptParts, BytesAt, KeptClusters;
    if local < count {
      ClusterPlace(count, local, cluster);
      var less: nat := left - cluster;
      ClustersStep(volume, start, count, cluster, keep, logical, local, here);
      ClustersAreParts(volume, start, count, cluster, keep, logical, local + 1, here + cluster, less);
      BytesSplit(volume, here, cluster, less);
      PartsStep(BytesAt(volume, here, cluster), BytesAt(volume, here + cluster, less), cluster, keep, logical + local);
    } else {
      NoClustersLeft(volume, start, count, cluster, keep, logical, here);
    }
  }

  lemma NoClustersLeft(volume: Volume, start: nat, count: nat, cluster: nat, keep: seq<bool>, logical: nat, here: nat)
    requires cluster > 0
    ensures KeptClusters(volume, start, count, cluster, keep, logical, count) == []
    ensures KeptParts(BytesAt(volume, here, 0), cluster, keep, logical + count) == []
  {
  }

  predicate WholeClusters(extents: seq<Extent>, cluster: nat)
    requires cluster > 0
  {
    forall e <- extents :: e.1 % cluster == 0
  }

  lemma {:induction false} TotalIsLength(volume: Volume, extents: seq<Extent>, cluster: nat)
    requires cluster > 0 && WholeClusters(extents, cluster)
    ensures |Stream(volume, extents)| == TotalClusters(extents, cluster) * cluster
  {
    if extents != [] {
      TotalIsLength(volume, extents[1..], cluster);
      assert extents[0].1 == extents[0].1 / cluster * cluster;
      assert forall a, b :: (a + b) * cluster == a * cluster + b * cluster;
    }
  }

  /** Of extents that are whole clusters exactly the kept clusters are read, in the order of the stream. */
  lemma {:induction false} KeptStreamIsParts(volume: Volume, extents: seq<Extent>, cluster: nat, keep: seq<bool>,
                                             logical: nat)
    requires cluster > 0 && WholeClusters(extents, cluster)
    ensures KeptStream(volume, extents, cluster, keep, logical) ==
              KeptParts(Stream(volume, extents), cluster, keep, logical)
  {
    if extents != [] {
      var (start, length) := extents[0];
      var count := length / cluster;
      assert extents[0] in extents && length == count * cluster;
      assert BytesAt(volume, start + count * cluster, length % cluster) == [];
      ClustersAreParts(volume, start, count, cluster, keep, logical, 0, start, length);
      assert KeptOf(volume, extents[0], cluster, keep, logical) ==
               KeptParts(BytesAt(volume, start, length), cluster, keep, logical);
      KeptStreamIsParts(volume, extents[1..], cluster, keep, logical + count);
      KeptPartsConcat(BytesAt(volume, start, length), Stream(volume, extents[1..]), cluster, keep, logical, count);
    }
  }

  // ---------- Parsing what is kept ----------

  predicate HasRecord(s: Data, r: nat) {
    r * RECORD_SIZE + RECORD_SIZE <= |s|
  }

  predicate HoldsNothing(parse: Parser, sector: nat, s: Data, r: nat)
    requires HasRecord(s, r)
  {
    ParseOne(parse, Repaired(s[r * RECORD_SIZE..r * RECORD_SIZE + RECORD_SIZE], sector)) == Ok(EMPTY)
  }

  /** A record whose bit is clear is not in use. */
  ghost predicate ClearMeansNothing(parse: Parser, sector: nat, s: Data, bitmap: Data) {
    forall r: nat :: HasRecord(s, r) && !BitSet(bitmap, r) ==> HoldsNothing(parse, sector, s, r)
  }

  lemma {:induction false} NothingInside(parse: Parser, sector: nat, d: Data)
    requires forall r: nat :: HasRecord(d, r) ==> HoldsNothing(parse, sector, d, r)
    ensures ParseAll(parse, sector, d) == Ok(EMPTY)
    decreases |d|
  {
    if |d| >= RECORD_SIZE {
      hide ParseOne, Repaired;
      var rest := d[RECORD_SIZE..];
      assert HasRecord(d, 0);
      assert HoldsNothing(parse, sector, d, 0) && d[0 * RECORD_SIZE..0 * RECORD_SIZE + RECORD_SIZE] == d[..RECORD_SIZE];
      forall r: nat | HasRecord(rest, r) ensures HoldsNothing(parse, sector, rest, r) {
        assert HasRecord(d, r + 1) && HoldsNothing(parse, sector, d, r + 1);
        assert rest[r * RECORD_SIZE..r * RECORD_SIZE + RECORD_SIZE] ==
                 d[(r + 1) * RECORD_SIZE..(r + 1) * RECORD_SIZE + RECORD_SIZE];
      }
      NothingInside(parse, sector, rest);
      ThenLaws(Ok(EMPTY), Ok(EMPTY), Ok(EMPTY));
    }
  }

  /** The records of a free cluster hold nothing. */
  lemma FreeClusterIsEmpty(parse: Parser, sector: nat, s: Data, bitmap: Data, perCluster: nat, c: nat)
    requires ClearMeansNothing(parse, sector, s, bitmap) && !Occupied(bitmap, perCluster, c)
    requires (c + 1) * (perCluster * RECORD_SIZE) <= |s|
    ensures c * (perCluster * RECORD_SIZE) <= (c + 1) * (perCluster * RECORD_SIZE)
    ensures ParseAll(parse, sector, s[c * (perCluster * RECORD_SIZE)..(c + 1) * (perCluster * RECORD_SIZE)]) ==
              Ok(EMPTY)
  {
    hide ParseAll, ParseOne, Repaired, BitSet;
    var cluster := perCluster * RECORD_SIZE;
    var at := c * cluster;
    assert (c + 1) * cluster == at + cluster;
    var d := s[at..(c + 1) * cluster];
    forall k: nat | HasRecord(d, k) ensures HoldsNothing(parse, sector, d, k) {
      assert k < perCluster;
      assert !InUse(bitmap, perCluster, c, k);
      var r := c * perCluster + k;
      RecordPlace(c, perCluster, k);
      assert HasRecord(s, r) && HoldsNothing(parse, sector, s, r);
      SliceOfSlice(s, at, (c + 1) * cluster, k * RECORD_SIZE, k * RECORD_SIZE + RECORD_SIZE);
    }
    NothingInside(parse, sector, d);
  }

  lemma RecordPlace(c: nat, perCluster: nat, k: nat)
    ensures (c * perCluster + k) * RECORD_SIZE == c * (perCluster * RECORD_SIZE) + k * RECORD_SIZE
  {
  }

  lemma {:induction false} ParseKeptParts(parse: Parser, sector: nat, s: Data, bitmap: Data, perCluster: nat,
                                          keep: seq<bool>, i: nat)
    requires perCluster > 0 && ClearMeansNothing(parse, sector, s, bitmap) && i * (perCluster * RECORD_SIZE) <= |s|
    requires forall c: nat :: !Kept(keep, c) ==> !Occupied(bitmap, perCluster, c)
    ensures ParseAll(parse, sector,
                     KeptParts(s[i * (perCluster * RECORD_SIZE)..], perCluster * RECORD_SIZE, keep, i)) ==
            ParseAll(parse, sector, s[i * (perCluster * RECORD_SIZE)..])
    decreases |s| - i * (perCluster * RECORD_SIZE)
  {
    hide ParseAll, Occupied, ClearMeansNothing;
    var cluster := perCluster * RECORD_SIZE;
    var at := i * cluster;
    var tail := s[at..];
    assert (i + 1) * cluster == at + cluster;
    if |tail| >= cluster {
      var first, rest := tail[..cluster], tail[cluster..];
      assert rest == s[(i + 1) * cluster..] && first == s[at..(i + 1) * cluster] && tail == first + rest;
      ParseKeptParts(parse, sector, s, bitmap, perCluster, keep, i + 1);
      WholeClusterIsWhole(perCluster);
      ParseConcat(parse, sector, first, rest);
      if Kept(keep, i) {
        ParseConcat(parse, sector, first, KeptParts(rest, cluster, keep, i + 1));
      } else {
        FreeClusterIsEmpty(parse, sector, s, bitmap, perCluster, i);
        ThenLaws(ParseAll(parse, sector, rest), Ok(EMPTY), Ok(EMPTY));
        assert [] + KeptParts(rest, cluster, keep, i + 1) == KeptParts(rest, cluster, keep, i + 1);
      }
    }
  }

  lemma WholeClusterIsWhole(perCluster: nat)
    ensures (perCluster * RECORD_SIZE) % RECORD_SIZE == 0
  {
  }

  /** Parsing what is kept gives what parsing the whole stream gives. */
  lemma SparseParsesAlike(parse: Parser, sector: nat, volume: Volume, extents: seq<Extent>, bitmap: Data,
                          perCluster: nat,
                          skip: nat, keep: seq<bool>)
    requires perCluster > 0 && WholeClusters(extents, perCluster * RECORD_SIZE)
    requires KeepsRight(FreeOf(bitmap, perCluster), skip, keep)
    requires ClearMeansNothing(parse, sector, Stream(volume, extents), bitmap)
    ensures ParseAll(parse, sector, KeptStream(volume, extents, perCluster * RECORD_SIZE, keep, 0)) ==
            ParseAll(parse, sector, Stream(volume, extents))
  {
    hide ParseAll, ClearMeansNothing, Occupied, Stream, KeptStream;
    KeptStreamIsParts(volume, extents, perCluster * RECORD_SIZE, keep, 0);
    var s := Stream(volume, extents);
    assert s[0 * (perCluster * RECORD_SIZE)..] == s;
    forall c: nat | !Kept(keep, c) ensures !Occupied(bitmap, perCluster, c) {
      assert FreeOf(bitmap, perCluster)(c);
    }
    ParseKeptParts(parse, sector, s, bitmap, perCluster, keep, 0);
  }
}
