/**
 The stages of reading the MFT put together: the run list is decoded, the extents are cut where the initialized part
 ends, free clusters are left out, the rest is read in blocks, and the blocks are repaired and parsed in batches.
 */
module MftScan {
  import opened Basics
  import opened Bits
  import opened Bytes
  import opened RecordFixups
  import opened BatchParser
  import opened VolumeReader
  import opened SparseRead
  import opened SparseParse
  import opened ValidLength
  import opened DataRuns

  // ---------- Decoded extents are whole clusters ----------

  lemma {:induction false} DecodedAreWhole(d: Data, lcn: int, cluster: nat)
    requires cluster > 0 && DecodeFrom(d, lcn, cluster).Ok?
    ensures WholeClusters(DecodeFrom(d, lcn, cluster).value, cluster)
    decreases |d|
  {
    if d != [] && d[0] != 0 {
      var step := NextRun(d, lcn, cluster).value;
      RunIsWhole(d, lcn, cluster);
      hide NextRun;
      DecodedAreWhole(d[step.size..], step.lcn, cluster);
    }
  }

  lemma RunIsWhole(d: Data, lcn: int, cluster: nat)
    requires d != [] && cluster > 0 && NextRun(d, lcn, cluster).Ok?
    ensures NextRun(d, lcn, cluster).value.extent.1 % cluster == 0
  {
    hide GetLe, Signed;
    Multiple(GetLe(d[1..1 + d[0] % 16]), cluster);
  }

  lemma {:induction false} TrimmedAreWhole(extents: seq<Extent>, cap: nat, cluster: nat)
    requires cluster > 0 && WholeClusters(extents, cluster) && cap % cluster == 0
    ensures WholeClusters(Trimmed(extents, cap), cluster)
  {
    if extents != [] && cap > 0 {
      assert extents[0] in extents;
      if extents[0].1 <= cap {
        AlignedDifference(cap, extents[0].1, cluster);
        TrimmedAreWhole(extents[1..], cap - extents[0].1, cluster);
      }
    }
  }

  // ---------- The initialized part of the MFT ----------

  /** The valid length in whole clusters is a number of 64 bits. */
  predicate Representable(valid: U64, cluster: nat) {
    cluster > 0 ==> DivCeil(valid, cluster) * cluster <= U64_MAX
  }

  lemma InitializedAreWhole(extents: seq<Extent>, valid: U64, cluster: nat)
    requires cluster > 0 && WholeClusters(extents, cluster) && Representable(valid, cluster)
    ensures WholeClusters(Initialized(extents, valid, cluster), cluster)
  {
    Multiple(DivCeil(valid, cluster), cluster);
    TrimmedAreWhole(extents, Cap(valid, cluster), cluster);
  }

  // ---------- Leaving out the free part ----------

  /** Free clusters are left out only if a bitmap could be read and clusters hold whole records; when nothing would be
      left, everything is read. */
  method ExtentsToRead(extents: seq<Extent>, bitmap: Option<Data>, cluster: nat, skipBytes: nat, ghost volume: Volume,
                       ghost parse: Parser, ghost sector: nat)
    returns (result: seq<Extent>)
    requires cluster > 0 ==> WholeClusters(extents, cluster)
    requires bitmap.Some? ==> ClearMeansNothing(parse, sector, Stream(volume, extents), bitmap.value)
    ensures ParseAll(parse, sector, Stream(volume, result)) == ParseAll(parse, sector, Stream(volume, extents))
  {
    hide ParseAll, Stream, KeptStream, KeepsRight, ClearMeansNothing, WholeClusters;
    result := extents;
    if bitmap.Some? && cluster >= RECORD_SIZE && cluster % RECORD_SIZE == 0 {
      var kept := MftKeepExtents(extents, bitmap.value, cluster, skipBytes, volume);
      if kept != [] {
        result := kept;
        if TotalClusters(extents, cluster) > 0 {
          ghost var keep :| |keep| == TotalClusters(extents, cluster)
                            && KeepsRight(FreeOf(bitmap.value, cluster / RECORD_SIZE), SkipClusters(skipBytes, cluster),
                                          keep)
                            && Stream(volume, result) == KeptStream(volume, extents, cluster, keep, 0);
          assert cluster == cluster / RECORD_SIZE * RECORD_SIZE;
          SparseParsesAlike(parse, sector, volume, extents, bitmap.value, cluster / RECORD_SIZE,
                            SkipClusters(skipBytes, cluster), keep);
        }
      }
    }
  }

  /** Reading the MFT through all its stages gives what parsing every record of its initialized part by itself gives,
      as long as records without their bit hold nothing: the same entries, or the same first error. */
  method ScanMft(volume: Volume, runs: Data, valid: U64, cluster: nat, sector: nat, bitmap: Option<Data>,
                 skipBytes: nat, parse: Parser, length: nat, workers: nat)
    returns (r: Result<Parsed, RunError>)
    requires length > 0 && Representable(valid, cluster)
    requires bitmap.Some? && Decode(runs, cluster).Ok? ==>
               ClearMeansNothing(parse, sector,
                                 Stream(volume, Initialized(Decode(runs, cluster).value, valid, cluster)), bitmap.value)
    ensures Decode(runs, cluster).Err? ==> r == Err(Decode(runs, cluster).error)
    ensures Decode(runs, cluster).Ok? ==>
              r == Ok(ParseAll(parse, sector, Stream(volume, Initialized(Decode(runs, cluster).value, valid, cluster))))
    ensures Decode(runs, cluster).Ok? ==>
              var all := Stream(volume, Decode(runs, cluster).value);
              exists n: nat ::
                IsInitializedLength(n, |all|, valid, cluster) && r == Ok(ParseAll(parse, sector, all[..n]))
  {
    hide ParseAll, Stream, ClearMeansNothing, DecodeFrom, Trimmed, WholeClusters, Representable, IsInitializedLength;
    hide Initialized;
    var decoded := DecodeDataRuns(runs, cluster);
    if decoded.Err? {
      return Err(decoded.error);
    }
    var extents := TrimExtentsToValidLength(decoded.value, valid, cluster);
    if cluster > 0 {
      DecodedAreWhole(runs, 0, cluster);
      InitializedAreWhole(decoded.value, valid, cluster);
    }
    var kept := ExtentsToRead(extents, bitmap, cluster, skipBytes, volume, parse, sector);
    var reader := new VolumeMftReader(volume, kept, sector);
    var parsed := EnumerateMft(reader, parse, length, workers);
    ghost var n := InitializedIsPrefix(volume, decoded.value, valid, cluster);
    r := Ok(parsed);
  }
}
