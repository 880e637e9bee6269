/** Reading the extents of the MFT from a raw volume, which only allows reads of whole sectors. */
module VolumeReader {
  import opened Basics
  import opened Bytes
  import opened RecordFixups
  import opened BatchParser

  /** The bytes of a volume by their offsets. */
  type Volume = nat -> Byte

  /** Offset and length on the volume. */
  type Extent = (nat, nat)

  const VOLUME_READ_CHUNK := 4 * 1024 * 1024

  function BytesAt(volume: Volume, start: nat, length: nat): (d: Data)
    ensures |d| == length && forall i :: 0 <= i < length ==> d[i] == volume(start + i)
  {
    seq(length, i requires 0 <= i < length => volume(start + i))
  }

  lemma BytesSplit(volume: Volume, at: nat, a: nat, b: nat)
    ensures BytesAt(volume, at, a + b) == BytesAt(volume, at, a) + BytesAt(volume, at + a, b)
  {
  }

  /** The MFT as one stream: its extents in their order. */
  function Stream(volume: Volume, extents: seq<Extent>): Data {
    if extents == [] then [] else BytesAt(volume, extents[0].0, extents[0].1) + Stream(volume, extents[1..])
  }

  /** The stream from `consumed` bytes into an extent on. */
  function StreamFrom(volume: Volume, extents: seq<Extent>, index: nat, consumed: nat): Data
    requires index <= |extents| && (index < |extents| ==> consumed <= extents[index].1)
  {
    if index == |extents| then []
    else BytesAt(volume, extents[index].0 + consumed, extents[index].1 - consumed)
         + Stream(volume, extents[index + 1..])
  }

  lemma StreamFromStart(volume: Volume, extents: seq<Extent>, index: nat)
    requires index <= |extents|
    ensures StreamFrom(volume, extents, index, 0) == Stream(volume, extents[index..])
  {
    if index < |extents| {
      assert extents[index..][0] == extents[index] && extents[index..][1..] == extents[index + 1..];
    }
  }

  /** Passing the end of an extent. */
  lemma StreamFromEnd(volume: Volume, extents: seq<Extent>, index: nat)
    requires index < |extents|
    ensures StreamFrom(volume, extents, index, extents[index].1) == StreamFrom(volume, extents, index + 1, 0)
  {
    StreamFromStart(volume, extents, index + 1);
    assert BytesAt(volume, extents[index].0 + extents[index].1, 0) == [];
  }

  lemma StreamFromRead(volume: Volume, extents: seq<Extent>, index: nat, consumed: nat, length: nat)
    requires index < |extents| && consumed + length <= extents[index].1
    ensures StreamFrom(volume, extents, index, consumed) ==
            BytesAt(volume, extents[index].0 + consumed, length) + StreamFrom(volume, extents, index, consumed + length)
  {
    var at, left := extents[index].0 + consumed, extents[index].1 - consumed;
    BytesSplit(volume, at, length, left - length);
    Associates(BytesAt(volume, at, length), BytesAt(volume, at + length, left - length),
               Stream(volume, extents[index + 1..]));
  }

  predicate IsMultiple(n: int, unit: nat) {
    unit > 0 && n % unit == 0
  }

  predicate Aligned(extents: seq<Extent>, sector: nat) {
    forall e <- extents :: IsMultiple(e.0, sector) && IsMultiple(e.1, sector)
  }

  /** A sector size that divides the chunk and the least unit of a direct read. */
  predicate SectorSize(sector: nat) {
    IsMultiple(VOLUME_READ_CHUNK, sector) && IsMultiple(Max(sector, 512), sector)
  }

  /** Geometry in whole sectors; every read of the volume is then one of whole sectors. */
  predicate Regular(extents: seq<Extent>, sector: nat) {
    SectorSize(sector) && Aligned(extents, sector)
  }

  lemma Multiple(q: nat, unit: nat)
    requires unit > 0
    ensures (q * unit) % unit == 0
  {
    var x := q * unit;
    var k, r := x / unit, x % unit;
    assert x == unit * k + r;
    assert unit * (q - k) == unit * q - unit * k == r;
    if q != k {
      OutOfRange(unit, q - k);
    }
  }

  lemma OutOfRange(unit: nat, m: int)
    requires m != 0
    ensures !(0 <= unit * m < unit)
  {
    if m > 0 {
      AtLeastOne(m, unit);
    } else {
      AtLeastOne(-m, unit);
      assert unit * m == -(unit * -m);
    }
  }

  lemma Negative(m: int, unit: nat)
    requires m < 0 && unit > 0
    ensures m * unit < 0
  {
    AtLeastOne(-m, unit);
    assert m * unit == -(unit * -m);
  }

  lemma {:induction false} AtLeastOne(n: nat, unit: nat)
    requires n >= 1
    ensures unit * n >= unit
  {
    if n > 1 {
      AtLeastOne(n - 1, unit);
      assert unit * n == unit * (n - 1) + unit;
    }
  }

  lemma AlignedSum(a: nat, b: nat, sector: nat)
    requires sector > 0 && a % sector == 0 && b % sector == 0
    ensures (a + b) % sector == 0
  {
    var x, y := a / sector, b / sector;
    assert a == x * sector && b == y * sector;
    Distributes(x, y, sector);
    Multiple(x + y, sector);
  }

  lemma AlignedDifference(a: nat, b: nat, sector: nat)
    requires sector > 0 && a % sector == 0 && b % sector == 0 && b <= a
    ensures (a - b) % sector == 0
  {
    var x, y := a / sector, b / sector;
    assert a == x * sector && b == y * sector;
    Distributes(x, -y, sector);
    assert (x - y) * sector == a - b;
    if x < y {
      Negative(x - y, sector);
    }
    Multiple(x - y, sector);
  }

  lemma Distributes(x: int, y: int, unit: int)
    ensures (x + y) * unit == x * unit + y * unit
  {
  }

  lemma AlignedTimes(n: nat, unit: nat, sector: nat)
    requires sector > 0 && unit % sector == 0
    ensures (n * unit) % sector == 0
  {
    var y := unit / sector;
    assert unit == y * sector;
    Regroups(n, y, sector);
    Multiple(n * y, sector);
  }

  lemma Regroups(n: int, y: int, sector: int)
    ensures n * (y * sector) == (n * y) * sector
  {
  }

  /** As many whole units as fit. */
  function WholeUnits(length: nat, unit: nat): (n: nat)
    requires unit > 0
    ensures n <= length
  {
    (length / unit) * unit
  }

  lemma UnitsAreMultiples(length: nat, unit: nat, sector: nat)
    requires unit > 0 && IsMultiple(unit, sector)
    ensures IsMultiple(WholeUnits(length, unit), sector)
  {
    AlignedTimes(length / unit, unit, sector);
  }

  class VolumeMftReader {
    const volume: Volume
    const extents: seq<Extent>
    const sector: nat
    var extentIndex: nat
    var consumedInExtent: nat
    var chunk: Data
    var chunkPos: nat
    var chunkLen: nat
    /** What has been asked of the volume so far. */
    ghost var requests: seq<Extent>

    ghost predicate Valid()
      reads this
    {
      && extentIndex <= |extents| && chunkPos <= chunkLen <= |chunk|
      && (extentIndex < |extents| ==> consumedInExtent <= extents[extentIndex].1)
      && (Regular(extents, sector) ==>
            Aligned(requests, sector) && (extentIndex < |extents| ==> IsMultiple(consumedInExtent, sector)))
    }

    /** What is still to come. */
    ghost function Rest(): Data
      requires Valid()
      reads this
    {
      chunk[chunkPos..chunkLen] + StreamFrom(volume, extents, extentIndex, consumedInExtent)
    }

    constructor (v: Volume, e: seq<Extent>, bytesPerSector: nat)
      ensures Valid() && Rest() == Stream(v, e) && volume == v && extents == e && sector == bytesPerSector
    {
      volume, extents, sector := v, e, bytesPerSector;
      extentIndex, consumedInExtent, chunk, chunkPos, chunkLen, requests := 0, 0, [], 0, 0, [];
      StreamFromStart(v, e, 0);
      assert e[0..] == e && [][0..0] + Stream(v, e) == Stream(v, e);
    }

    /** One aligned read inside the current extent. */
    method ReadVolume(length: nat) returns (d: Data)
      requires Valid() && extentIndex < |extents| && consumedInExtent + length <= extents[extentIndex].1
      requires Regular(extents, sector) ==> IsMultiple(length, sector)
      modifies this`consumedInExtent, this`requests
      ensures Valid() && consumedInExtent == old(consumedInExtent) + length
      ensures |d| == length
      ensures StreamFrom(volume, extents, extentIndex, old(consumedInExtent)) ==
              d + StreamFrom(volume, extents, extentIndex, consumedInExtent)
    {
      var start := extents[extentIndex].0 + consumedInExtent;
      StreamFromRead(volume, extents, extentIndex, consumedInExtent, length);
      assert extents[extentIndex] in extents;
      if Regular(extents, sector) {
        AlignedSum(extents[extentIndex].0, consumedInExtent, sector);
        AlignedSum(consumedInExtent, length, sector);
      }
      d := BytesAt(volume, start, length);
      requests := requests + [(start, length)];
      consumedInExtent := consumedInExtent + length;
    }

    method FillChunk()
      requires Valid() && chunkPos == chunkLen
      modifies this
      ensures Valid() && chunkPos == 0 && Rest() == old(Rest())
      ensures chunkLen == 0 <==> old(Rest()) == []
    {
      hide StreamFrom, Stream;
      assert chunk[chunkPos..chunkLen] == [];
      ghost var rest := StreamFrom(volume, extents, extentIndex, consumedInExtent);
      assert old(Rest()) == rest;
      while extentIndex < |extents|
        invariant Valid() && chunkPos == chunkLen && StreamFrom(volume, extents, extentIndex, consumedInExtent) == rest
        decreases |extents| - extentIndex
      {
        var remaining := extents[extentIndex].1 - consumedInExtent;
        if remaining == 0 {
          StreamFromEnd(volume, extents, extentIndex);
          extentIndex, consumedInExtent := extentIndex + 1, 0;
          continue;
        }
        var toRead := Min(remaining, VOLUME_READ_CHUNK);
        assert extents[extentIndex] in extents;
        if Regular(extents, sector) {
          AlignedDifference(extents[extentIndex].1, consumedInExtent, sector);
        }
        chunk := ReadVolume(toRead);
        chunkPos, chunkLen := 0, toRead;
        assert chunk[0..toRead] == chunk;
        return;
      }
      chunkPos, chunkLen := 0, 0;
      NothingAfterTheLast(volume, extents, consumedInExtent);
      assert chunk[0..0] == [];
    }

    /** Serves what is buffered, up to the length of the caller's buffer. */
    method Serve(length: nat) returns (d: Data)
      requires Valid()
      modifies this`chunkPos
      ensures Valid() && old(Rest()) == d + Rest() && |d| == Min(length, chunkLen - old(chunkPos))
    {
      hide StreamFrom;
      var count := Min(chunkLen - chunkPos, length);
      d := chunk[chunkPos..chunkPos + count];
      assert chunk[chunkPos..chunkLen] == d + chunk[chunkPos + count..chunkLen];
      Associates(d, chunk[chunkPos + count..chunkLen], StreamFrom(volume, extents, extentIndex, consumedInExtent));
      chunkPos := chunkPos + count;
    }

    /** Gives the next bytes of the stream, and none only at its end. */
    method Read(length: nat) returns (d: Data)
      requires Valid()
      modifies this
      ensures Valid() && old(Rest()) == d + Rest() && |d| <= length
      ensures length > 0 ==> (d == [] <==> old(Rest()) == [])
    {
      hide StreamFrom, Stream, WholeUnits;
      if chunkPos < chunkLen {
        d := Serve(length);
        return;
      }
      ghost var rest := StreamFrom(volume, extents, extentIndex, consumedInExtent);
      assert chunk[chunkPos..chunkLen] == [] && Rest() == rest;
      while extentIndex < |extents|
        invariant Valid() && chunkPos == chunkLen && StreamFrom(volume, extents, extentIndex, consumedInExtent) == rest
        decreases |extents| - extentIndex
      {
        var remaining := extents[extentIndex].1 - consumedInExtent;
        if remaining == 0 {
          StreamFromEnd(volume, extents, extentIndex);
          extentIndex, consumedInExtent := extentIndex + 1, 0;
          continue;
        }
        var unit := Max(sector, 512);
        var direct := WholeUnits(Min(length, remaining), unit);
        if Regular(extents, sector) {
          UnitsAreMultiples(Min(length, remaining), unit, sector);
        }
        if direct >= unit {
          d := ReadVolume(direct);
          assert chunk[chunkPos..chunkLen] == [];
          return;
        }
        assert chunk[chunkPos..chunkLen] == [] && Rest() == rest;
        FillChunk();
        if chunkLen == 0 {
          return [];
        }
        d := Serve(length);
        return;
      }
      NothingAfterTheLast(volume, extents, consumedInExtent);
      d := [];
    }

    /** Fills a block completely unless the stream ends. */
    method ReadBlock(length: nat) returns (block: Data)
      requires Valid()
      modifies this
      ensures Valid() && old(Rest()) == block + Rest() && |block| <= length
      ensures |block| < length ==> Rest() == []
    {
      block := [];
      while |block| < length
        invariant Valid() && old(Rest()) == block + Rest() && |block| <= length
        decreases length - |block|
      {
        ghost var before := Rest();
        var more := Read(length - |block|);
        Associates(block, more, Rest());
        if more == [] {
          return;
        }
        block := block + more;
      }
    }
  }

  lemma NothingAfterTheLast(volume: Volume, extents: seq<Extent>, consumed: nat)
    ensures StreamFrom(volume, extents, |extents|, consumed) == []
  {
  }

  /** The reader's blocks, up to the first that is not full. */
  method ReadBlocks(reader: VolumeMftReader, length: nat) returns (blocks: seq<Data>)
    requires reader.Valid() && length > 0
    modifies reader
    ensures reader.Valid() && Concat(UntilEmpty(blocks)) == old(reader.Rest())
  {
    hide Concat, UntilEmpty, StreamFrom, Stream, VolumeMftReader.Rest, VolumeMftReader.Valid;
    blocks := [];
    ConcatOfNone();
    while true
      invariant reader.Valid() && old(reader.Rest()) == Concat(blocks) + reader.Rest()
      invariant forall k :: 0 <= k < |blocks| ==> blocks[k] != []
      decreases |reader.Rest()|
    {
      ghost var before := blocks;
      var block := reader.ReadBlock(length);
      Associates(Concat(blocks), block, reader.Rest());
      blocks := blocks + [block];
      assert blocks[..|before|] == before && blocks[..|before| + 1] == blocks;
      ConcatNext(blocks, |before|);
      if |block| < length {
        if block == [] {
          UntilEmptyIs(blocks, |before|);
        } else {
          UntilEmptyIs(blocks, |blocks|);
          assert blocks[..|blocks|] == blocks;
        }
        assert Concat(blocks) + [] == Concat(blocks) && Concat(before) + [] == Concat(before);
        return;
      }
    }
  }

  /** Whatever the block length and the number of threads, the result is that of the whole stream. */
  method EnumerateMft(reader: VolumeMftReader, parse: Parser, length: nat, workers: nat) returns (r: Parsed)
    requires reader.Valid() && length > 0
    modifies reader
    ensures r == ParseAll(parse, reader.sector, old(reader.Rest()))
  {
    hide ParseAll, Concat, UntilEmpty;
    var blocks := ReadBlocks(reader, length);
    r := ParseBlocks(parse, reader.sector, workers, blocks);
  }
}
