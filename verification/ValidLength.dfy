/** Cutting the extents of the MFT where its initialized part ends. */
module ValidLength {
  import opened Basics
  import opened Bytes
  import opened BatchParser
  import opened VolumeReader

  /** The valid length, rounded up to whole clusters. */
  function Cap(valid: U64, cluster: nat): nat
    requires cluster > 0
  {
    Saturated(DivCeil(valid, cluster) * cluster)
  }

  /** The extents that cover the first `cap` bytes, the last one cut to fit. */
  function Trimmed(extents: seq<Extent>, cap: nat): seq<Extent> {
    if extents == [] || cap == 0 then []
    else if extents[0].1 <= cap then [extents[0]] + Trimmed(extents[1..], cap - extents[0].1)
    else [(extents[0].0, cap)]
  }

  lemma PrefixOfFirst(first: Data, rest: Data, cap: nat)
    requires |first| <= cap
    ensures (first + rest)[..Min(cap, |first + rest|)] == first + rest[..Min(cap - |first|, |rest|)]
  {
  }

  lemma StreamStep(volume: Volume, e: Extent, rest: seq<Extent>)
    ensures Stream(volume, [e] + rest) == BytesAt(volume, e.0, e.1) + Stream(volume, rest)
  {
    assert ([e] + rest)[1..] == rest;
  }

  lemma CutFirst(volume: Volume, e: Extent, rest: Data, cap: nat)
    requires cap < e.1
    ensures Stream(volume, [(e.0, cap)]) == (BytesAt(volume, e.0, e.1) + rest)[..cap]
    ensures |BytesAt(volume, e.0, e.1) + rest| > cap
  {
    assert [(e.0, cap)][1..] == [];
    BytesSplit(volume, e.0, cap, e.1 - cap);
  }

  /** What remains is the beginning of the stream: exactly `cap` bytes of it, or all if there are no more. */
  lemma {:induction false} TrimmedIsPrefix(volume: Volume, extents: seq<Extent>, cap: nat)
    ensures Stream(volume, Trimmed(extents, cap)) == Stream(volume, extents)[..Min(cap, |Stream(volume, extents)|)]
  {
    if extents != [] && cap > 0 {
      var e, rest := extents[0], Stream(volume, extents[1..]);
      assert extents == [e] + extents[1..];
      StreamStep(volume, e, extents[1..]);
      hide Stream, BytesAt;
      if e.1 <= cap {
        TrimmedIsPrefix(volume, extents[1..], cap - e.1);
        StreamStep(volume, e, Trimmed(extents[1..], cap - e.1));
        PrefixOfFirst(BytesAt(volume, e.0, e.1), rest, cap);
      } else {
        CutFirst(volume, e, rest, cap);
      }
    }
  }

  /** What the valid length leaves of the extents; an unknown one, or one that would leave nothing, changes nothing. */
  function Initialized(extents: seq<Extent>, valid: U64, cluster: nat): seq<Extent> {
    if cluster == 0 || valid == 0 || valid == U64_MAX || Trimmed(extents, Cap(valid, cluster)) == [] then extents
    else Trimmed(extents, Cap(valid, cluster))
  }

  // ---------- What is left, read off the numbers ----------

  /** Of `total` bytes the first `n` are initialized: as many as the valid length rounded up to whole clusters says, and
      all of them if there are fewer, or if the valid length is unknown. */
  ghost predicate IsInitializedLength(n: nat, total: nat, valid: U64, cluster: nat) {
    if cluster == 0 || valid == 0 || valid == U64_MAX then n == total
    else
      exists rounded: nat ::
        rounded % cluster == 0 && valid <= rounded < valid + cluster && n == Min(Min(rounded, U64_MAX), total)
  }

  lemma CapIsRounded(valid: U64, cluster: nat) returns (rounded: nat)
    requires cluster > 0
    ensures rounded % cluster == 0 && valid <= rounded < valid + cluster && Cap(valid, cluster) == Min(rounded, U64_MAX)
  {
    var q := DivCeil(valid, cluster);
    rounded := q * cluster;
    Multiple(q, cluster);
    assert valid + cluster - 1 == q * cluster + (valid + cluster - 1) % cluster;
  }

  /** The initialized part of the MFT is the beginning of the stream of all its extents. */
  lemma InitializedIsPrefix(volume: Volume, extents: seq<Extent>, valid: U64, cluster: nat) returns (n: nat)
    ensures IsInitializedLength(n, |Stream(volume, extents)|, valid, cluster)
    ensures Stream(volume, Initialized(extents, valid, cluster)) == Stream(volume, extents)[..n]
  {
    var all := Stream(volume, extents);
    if cluster == 0 || valid == 0 || valid == U64_MAX {
      n := |all|;
    } else {
      var rounded := CapIsRounded(valid, cluster);
      hide Cap, BytesAt;
      TrimmedIsPrefix(volume, extents, Cap(valid, cluster));
      n := Min(Cap(valid, cluster), |all|);
      if Trimmed(extents, Cap(valid, cluster)) == [] {
        assert extents == [];
      }
    }
  }

  method TrimExtentsToValidLength(extents: seq<Extent>, valid: U64, cluster: nat) returns (result: seq<Extent>)
    ensures result == Initialized(extents, valid, cluster)
  {
    hide Trimmed;
    result := extents;
    if cluster == 0 || valid == 0 || valid == U64_MAX {
      return;
    }
    var cap := Cap(valid, cluster);
    var cumulative: nat, keep: nat := 0, 0;
    assert extents[0..] == extents && extents[..0] + Trimmed(extents, cap) == Trimmed(extents, cap);
    for index := 0 to |extents|
      invariant keep == index && cumulative <= cap
      invariant Trimmed(extents, cap) == extents[..index] + Trimmed(extents[index..], cap - cumulative)
    {
      TrimStep(extents, index, cap - cumulative);
      var remaining := cap - cumulative;
      if remaining == 0 {
        break;
      }
      var length := extents[index].1;
      if length <= remaining {
        cumulative := cumulative + length;
        keep := index + 1;
      } else {
        result := result[index := (extents[index].0, remaining)];
        keep := index + 1;
        assert result[..keep] == extents[..index] + [(extents[index].0, remaining)];
        result := result[..keep];
        return;
      }
    }
    TrimEnds(extents, keep, cap - cumulative);
    assert extents[..keep] + [] == extents[..keep];
    if keep > 0 {
      result := result[..keep];
    }
  }

  lemma TrimStep(extents: seq<Extent>, index: nat, left: nat)
    requires index < |extents|
    ensures var before, rest := extents[..index], Trimmed(extents[index..], left);
            if left == 0 then rest == []
            else if extents[index].1 <= left then
              before + rest == extents[..index + 1] + Trimmed(extents[index + 1..], left - extents[index].1)
            else rest == [(extents[index].0, left)]
  {
    assert extents[index..][0] == extents[index] && extents[index..][1..] == extents[index + 1..];
    assert extents[..index + 1] == extents[..index] + [extents[index]];
  }

  lemma TrimEnds(extents: seq<Extent>, index: nat, left: nat)
    requires index == |extents| || (index < |extents| && left == 0)
    ensures Trimmed(extents[index..], left) == []
  {
  }
}
