/**
 Physical bytes are charged once per volume and file identity. The identities already charged are kept in a
 structure tuned for memory: a bitmap window over a cluster of file numbers, a hash set for scattered ones,
 one directly owned set while a single volume is seen, and 64 shards. All of it behaves as one plain set.
 */
module Allocation {
  import opened Basics
  import opened Bits

  const U64_SIZE: int := U64_MAX + 1
  const U128_MAX: int := U64_SIZE * U64_SIZE - 1
  const PREFIX: int := 0x1_0000_0000
  const MAX_WORDS := 131_072

  type U128 = x: int | 0 <= x <= U128_MAX witness 0

  // ---------- The bitmap window ----------

  datatype Dense = Dense(first: U64, words: seq<U64>, count: nat)

  function End(d: Dense): int {
    d.first + 64 * |d.words|
  }

  predicate InWindow(d: Dense, file: U64) {
    d.first <= file < End(d)
  }

  predicate Marked(d: Dense, file: U64)
    requires InWindow(d, file)
  {
    Bit(d.words[(file - d.first) / 64], (file - d.first) % 64)
  }

  ghost function DenseMembers(d: Dense): set<U64> {
    set file: U64 | d.first <= file < End(d) && InWindow(d, file) && Marked(d, file)
  }

  ghost predicate DenseOk(d: Dense) {
    && d.first % 64 == 0 && End(d) <= U64_SIZE
    && 1 <= |d.words| <= MAX_WORDS && |d.words| <= 2 * d.count
    && d.count == |DenseMembers(d)|
  }

  /** Sets the bit of a file in the window. */
  function Mark(d: Dense, file: U64): (r: Dense)
    requires InWindow(d, file)
    ensures r.first == d.first && |r.words| == |d.words| && r.count == d.count
  {
    var index, bit := (file - d.first) / 64, (file - d.first) % 64;
    WordWidth();
    SetBitFits(d.words[index], bit, 64);
    d.(words := d.words[index := SetBit(d.words[index], bit)])
  }

  lemma MarkMarks(d: Dense, file: U64, other: U64)
    requires InWindow(d, file) && InWindow(d, other)
    ensures InWindow(Mark(d, file), other) && (Marked(Mark(d, file), other) <==> other == file || Marked(d, other))
  {
    var i, b := (file - d.first) / 64, (file - d.first) % 64;
    var j, c := (other - d.first) / 64, (other - d.first) % 64;
    if i == j {
      SetBitBits(d.words[i], b, c);
      assert file - d.first == 64 * i + b && other - d.first == 64 * j + c;
    }
  }

  lemma MarkAddsMember(d: Dense, file: U64)
    requires InWindow(d, file)
    ensures DenseMembers(Mark(d, file)) == DenseMembers(d) + {file}
    ensures |DenseMembers(Mark(d, file))| == |DenseMembers(d)| + if Marked(d, file) then 0 else 1
  {
    forall other: U64 | InWindow(d, other)
      ensures InWindow(Mark(d, file), other) && (Marked(Mark(d, file), other) <==> other == file || Marked(d, other))
    {
      MarkMarks(d, file, other);
    }
    assert DenseMembers(Mark(d, file)) == DenseMembers(d) + {file};
    if Marked(d, file) {
      assert DenseMembers(d) + {file} == DenseMembers(d);
    }
  }

  /** A wider window of zero words with the words of the former window copied in. */
  function Rebase(first: U64, words: nat, former: Option<Dense>): (r: Dense)
    requires Covers(first, words, former)
    ensures r.first == first && |r.words| == words
  {
    match former
    case None => Dense(first, seq(words, _ => 0), 0)
    case Some(d) =>
      var offset := (d.first - first) / 64;
      Dense(first, seq(offset, _ => 0) + d.words + seq(words - offset - |d.words|, _ => 0), d.count)
  }

  ghost predicate Covers(first: U64, words: nat, former: Option<Dense>) {
    former.Some? ==>
      first <= former.value.first && End(former.value) <= first + 64 * words && (former.value.first - first) % 64 == 0
  }

  ghost function MembersOf(d: Option<Dense>): set<U64> {
    match d
    case None => {}
    case Some(d) => DenseMembers(d)
  }

  lemma RebaseKeepsMembers(first: U64, words: nat, former: Option<Dense>)
    requires Covers(first, words, former) && first + 64 * words <= U64_SIZE
    ensures DenseMembers(Rebase(first, words, former)) == MembersOf(former)
  {
    var r := Rebase(first, words, former);
    forall file: U64 | InWindow(r, file)
      ensures Marked(r, file) <==> former.Some? && InWindow(former.value, file) && Marked(former.value, file)
    {
      ZeroHasNoBits((file - first) % 64);
      if former.Some? {
        var d := former.value;
        var offset := (d.first - first) / 64;
        assert d.first - first == 64 * offset;
        if InWindow(d, file) {
          assert (file - first) / 64 == offset + (file - d.first) / 64;
          assert (file - first) % 64 == (file - d.first) % 64;
        } else {
          assert (file - first) / 64 < offset || (file - first) / 64 >= offset + |d.words|;
        }
      }
    }
  }

  // ---------- The majority region ----------

  function Prefix(file: U64): int {
    file / PREFIX
  }

  ghost function WithPrefix(files: set<U64>, prefix: int): set<U64> {
    set file | file in files && Prefix(file) == prefix
  }

  /** One pass with a single counter finds the prefix that more than half of the files share, if there is one. */
  method MajorityPrefix(files: set<U64>) returns (candidate: int)
    ensures forall p :: 2 * |WithPrefix(files, p)| > |files| ==> candidate == p
  {
    var votes := 0;
    candidate := 0;
    var rest := files;
    ghost var seen: set<U64> := {};
    while rest != {}
      invariant seen + rest == files && seen !! rest && 0 <= votes
      invariant forall p :: 2 * |WithPrefix(seen, p)| <= |seen| + if p == candidate then votes else -votes
    {
      var file :| file in rest;
      CountOneMore(seen, file);
      if votes == 0 {
        candidate := Prefix(file);
        votes := 1;
      } else if Prefix(file) == candidate {
        votes := votes + 1;
      } else {
        votes := votes - 1;
      }
      seen, rest := seen + {file}, rest - {file};
    }
    assert seen == files;
  }

  lemma CountOneMore(seen: set<U64>, file: U64)
    requires file !in seen
    ensures |seen + {file}| == |seen| + 1
    ensures forall p, f ::
              f in WithPrefix(seen + {file}, p) <==> f in WithPrefix(seen, p) || (f == file && Prefix(file) == p)
    ensures forall p :: |WithPrefix(seen + {file}, p)| == |WithPrefix(seen, p)| + if Prefix(file) == p then 1 else 0
  {
    forall p ensures |WithPrefix(seen + {file}, p)| == |WithPrefix(seen, p)| + if Prefix(file) == p then 1 else 0 {
      if Prefix(file) == p {
        assert WithPrefix(seen + {file}, p) == WithPrefix(seen, p) + {file};
      } else {
        assert WithPrefix(seen + {file}, p) == WithPrefix(seen, p);
      }
    }
  }

  ghost predicate IsSpan(files: set<U64>, first: U64, last: U64, count: nat) {
    && count == |files| && (forall file <- files :: first <= file <= last)
    && (if count == 0 then first == U64_MAX && last == 0 else first % 64 == 0 && first <= last)
  }

  lemma SpanGrows(files: set<U64>, file: U64, first: U64, last: U64, count: nat)
    requires IsSpan(files, first, last, count) && file !in files
    ensures IsSpan(files + {file}, if file - file % 64 < first then file - file % 64 else first, MaxU64(last, file),
                   count + 1)
  {
  }

  lemma PrefixGrows(seen: set<U64>, file: U64, prefix: int)
    requires file !in seen
    ensures file !in WithPrefix(seen, prefix)
    ensures WithPrefix(seen + {file}, prefix) ==
            if Prefix(file) == prefix then WithPrefix(seen, prefix) + {file} else WithPrefix(seen, prefix)
  {
  }

  /** The range that the files of one prefix span, starting at a word boundary. */
  method SpanOf(files: set<U64>, prefix: int) returns (first: U64, last: U64, count: nat)
    ensures count == |WithPrefix(files, prefix)|
    ensures count > 0 ==> first % 64 == 0 && first <= last
    ensures forall file <- WithPrefix(files, prefix) :: first <= file <= last
  {
    hide WithPrefix, IsSpan, Prefix, MaxU64;
    first, last, count := U64_MAX, 0, 0;
    NothingSpans(prefix);
    var rest := files;
    ghost var seen: set<U64> := {};
    while rest != {}
      invariant seen + rest == files && seen !! rest && IsSpan(WithPrefix(seen, prefix), first, last, count)
    {
      var file :| file in rest;
      PrefixGrows(seen, file, prefix);
      if Prefix(file) == prefix {
        SpanGrows(WithPrefix(seen, prefix), file, first, last, count);
        first := if file - file % 64 < first then file - file % 64 else first;
        last := MaxU64(last, file);
        count := count + 1;
      }
      seen, rest := seen + {file}, rest - {file};
    }
    assert seen == files;
    SpanBounds(WithPrefix(files, prefix), first, last, count);
  }

  lemma NothingSpans(prefix: int)
    ensures IsSpan(WithPrefix({}, prefix), U64_MAX, 0, 0)
  {
  }

  lemma SpanBounds(files: set<U64>, first: U64, last: U64, count: nat)
    requires IsSpan(files, first, last, count)
    ensures count == |files| && (forall file <- files :: first <= file <= last)
    ensures count > 0 ==> first % 64 == 0 && first <= last
  {
  }

  // ---------- File numbers that fit 64 bits ----------

  /** The window is aligned, inside the number range, bounded, at least half used, and disjoint from the set. */
  ghost predicate NarrowOk(sparse: set<U64>, dense: Option<Dense>) {
    dense.Some? ==> DenseOk(dense.value) && forall file <- sparse :: !InWindow(dense.value, file)
  }

  lemma WindowTest(d: Dense, file: U64)
    ensures InWindow(d, file) <==> file >= d.first && (file - d.first) / 64 < |d.words|
  {
  }

  /** What a test-and-set on the bitmap does to the member set. */
  lemma MarkInserts(sparse: set<U64>, d: Dense, file: U64)
    requires NarrowOk(sparse, Some(d)) && InWindow(d, file)
    ensures var d' := Mark(d, file).(count := d.count + if Marked(d, file) then 0 else 1);
            && NarrowOk(sparse, Some(d')) && sparse + MembersOf(Some(d')) == sparse + MembersOf(Some(d)) + {file}
            && (Marked(d, file) <==> file in sparse + MembersOf(Some(d)))
  {
    hide DenseMembers, Mark, Marked;
    MarkAddsMember(d, file);
    var d' := Mark(d, file).(count := d.count + if Marked(d, file) then 0 else 1);
    SameMembers(d', Mark(d, file));
  }

  lemma SparseInserts(sparse: set<U64>, dense: Option<Dense>, file: U64)
    requires NarrowOk(sparse, dense) && (dense.Some? ==> !InWindow(dense.value, file))
    ensures NarrowOk(sparse + {file}, dense)
    ensures file in sparse + MembersOf(dense) <==> file in sparse
    ensures sparse + {file} + MembersOf(dense) == sparse + MembersOf(dense) + {file}
  {
  }

  /** A window that would reach past the last file number is moved down; it still holds the former one. */
  lemma PlanCovers(first: U64, last: U64, words: nat, dense: Option<Dense>)
    requires first % 64 == 0 && first <= last && words >= (last - first) / 64 + 1 && words <= MAX_WORDS
    requires dense.Some? ==> first <= dense.value.first && End(dense.value) <= last + 1 && dense.value.first % 64 == 0
    ensures last < first + 64 * words
    ensures var start := if first + words * 64 > U64_SIZE then U64_SIZE - words * 64 else first;
            0 <= start <= first && start % 64 == 0 && last < start + 64 * words <= U64_SIZE
              && Covers(start, words, dense)
  {
    var start := if first + words * 64 > U64_SIZE then U64_SIZE - words * 64 else first;
    AlignedGap(U64_SIZE, words * 64);
    assert start % 64 == 0;
    if dense.Some? {
      AlignedGap(dense.value.first, start);
    }
  }

  lemma AlignedGap(a: int, b: int)
    requires a % 64 == 0 && b % 64 == 0
    ensures (a - b) % 64 == 0
  {
  }

  class NarrowIdentities {
    var sparse: set<U64>
    var dense: Option<Dense>
    var nextCompaction: nat

    ghost function Members(): set<U64>
      reads this
    {
      sparse + MembersOf(dense)
    }

    ghost predicate Valid()
      reads this
    {
      NarrowOk(sparse, dense)
    }

    constructor ()
      ensures Valid() && Members() == {}
    {
      sparse, dense, nextCompaction := {}, None, 4096;
    }

    /** True exactly for the first insertion of a file number. */
    method Insert(file: U64) returns (first: bool)
      requires Valid()
      modifies this
      ensures Valid() && Members() == old(Members()) + {file}
      ensures first <==> file !in old(Members())
    {
      hide NarrowOk, DenseMembers, DenseOk, Mark, Marked, InWindow, End, MembersOf;
      if dense.Some? {
        var d := dense.value;
        WindowTest(d, file);
        if file >= d.first && (file - d.first) / 64 < |d.words| {
          MarkInserts(sparse, d, file);
          first := !Marked(d, file);
          dense := Some(Mark(d, file).(count := d.count + if first then 1 else 0));
          return;
        }
      }
      SparseInserts(sparse, dense, file);
      first := file !in sparse;
      sparse := sparse + {file};
      if first && |sparse| >= nextCompaction {
        Compact();
      }
    }

    /** Moves a cluster of scattered numbers into the window, if that pays; the member set stays the same. */
    method Compact()
      requires Valid()
      modifies this
      ensures Valid() && Members() == old(Members())
    {
      hide DenseMembers, WithPrefix, NextPowerOfTwo;
      var prefix: int;
      if dense.Some? {
        prefix := Prefix(dense.value.first);
      } else {
        prefix := MajorityPrefix(sparse);
      }
      var first, last, count := SpanOf(sparse, prefix);
      if count == 0 || (dense.None? && count <= |sparse| / 2) {
        nextCompaction := 2 * |sparse|;
        return;
      }
      if dense.Some? {
        var d := dense.value;
        first := if d.first < first then d.first else first;
        last := MaxU64(last, d.first + (|d.words| * 64 - 1));
        count := count + d.count;
      }
      var words := NextPowerOfTwo((last - first) / 64 + 1);
      if words > 2 * count || words > MAX_WORDS {
        nextCompaction := 2 * |sparse|;
        return;
      }
      PlanCovers(first, last, words, dense);
      if first + words * 64 > U64_SIZE {
        first := U64_SIZE - words * 64;
      }
      Rebuild(first, words, prefix);
    }

    /** Copies the former window and every scattered number that fits into a window of the given place and size. */
    method Rebuild(first: U64, words: nat, ghost prefix: int)
      requires Valid() && first % 64 == 0 && first + 64 * words <= U64_SIZE && Covers(first, words, dense)
      requires 1 <= words <= MAX_WORDS && words <= 2 * (|WithPrefix(sparse, prefix)| + |MembersOf(dense)|)
      requires forall file <- WithPrefix(sparse, prefix) :: first <= file < first + 64 * words
      modifies this
      ensures Valid() && Members() == old(Members())
    {
      hide DenseMembers, NarrowOk, WithPrefix, MembersOf, Covers;
      sparse, dense := Rebuilt(sparse, dense, first, words, prefix);
      nextCompaction := 2 * (if |sparse| > 1 then |sparse| else 1);
    }
  }

  method Rebuilt(sparse: set<U64>, dense: Option<Dense>, first: U64, words: nat, ghost prefix: int)
    returns (rest: set<U64>, grown: Option<Dense>)
    requires NarrowOk(sparse, dense) && first % 64 == 0 && first + 64 * words <= U64_SIZE && Covers(first, words, dense)
    requires 1 <= words <= MAX_WORDS && words <= 2 * (|WithPrefix(sparse, prefix)| + |MembersOf(dense)|)
    requires forall file <- WithPrefix(sparse, prefix) :: first <= file < first + 64 * words
    ensures NarrowOk(rest, grown) && rest + MembersOf(grown) == sparse + MembersOf(dense)
    ensures grown.Some? && grown.value.first == first && |grown.value.words| == words
  {
    hide DenseMembers, NarrowOk, WithPrefix, Rebase, Covers;
    FormerCount(sparse, dense);
    RebaseKeepsMembers(first, words, dense);
    var window, moved := MoveInto(sparse, Rebase(first, words, dense), MembersOf(dense));
    RebuiltOk(sparse, dense, prefix, window, moved);
    var retained := (if dense.Some? then dense.value.count else 0) + |moved|;
    rest := sparse - moved;
    grown := Some(window.(count := retained));
  }

  lemma FormerCount(sparse: set<U64>, dense: Option<Dense>)
    requires NarrowOk(sparse, dense)
    ensures |MembersOf(dense)| == if dense.Some? then dense.value.count else 0
  {
  }

  lemma RebuiltOk(sparse: set<U64>, dense: Option<Dense>, prefix: int, window: Dense, moved: set<U64>)
    requires NarrowOk(sparse, dense) && window.first % 64 == 0 && End(window) <= U64_SIZE
    requires 1 <= |window.words| <= MAX_WORDS
    requires |window.words| <= 2 * (|WithPrefix(sparse, prefix)| + |MembersOf(dense)|)
    requires forall file <- WithPrefix(sparse, prefix) :: window.first <= file < End(window)
    requires moved <= sparse && (forall file <- sparse :: file in moved <==> InWindow(window, file))
    requires DenseMembers(window) == MembersOf(dense) + moved
    ensures var d := window.(count := |MembersOf(dense)| + |moved|);
            NarrowOk(sparse - moved, Some(d)) && sparse - moved + MembersOf(Some(d)) == sparse + MembersOf(dense)
  {
    hide DenseMembers, Marked;
    var d := window.(count := |MembersOf(dense)| + |moved|);
    SameMembers(window, d);
    assert MembersOf(dense) !! moved by {
      FormerIsApart(sparse, dense);
    }
    DisjointUnionSize(MembersOf(dense), moved);
    SubsetSize(WithPrefix(sparse, prefix), moved);
  }

  lemma SameMembers(d: Dense, e: Dense)
    requires d.first == e.first && d.words == e.words
    ensures DenseMembers(d) == DenseMembers(e)
  {
    forall file: U64 ensures file in DenseMembers(d) <==> file in DenseMembers(e) {
      assert InWindow(d, file) <==> InWindow(e, file);
    }
  }

  lemma FormerIsApart(sparse: set<U64>, dense: Option<Dense>)
    requires NarrowOk(sparse, dense)
    ensures sparse !! MembersOf(dense)
  {
  }

  lemma SubsetSize<T>(a: set<T>, b: set<T>)
    requires a <= b
    ensures |a| <= |b|
  {
    assert b == a + (b - a);
  }

  /** Marks every number that the window holds; the hash set keeps the others. */
  method MoveInto(sparse: set<U64>, window: Dense, ghost former: set<U64>) returns (r: Dense, moved: set<U64>)
    requires DenseMembers(window) == former
    ensures r.first == window.first && |r.words| == |window.words|
    ensures moved <= sparse && (forall file <- sparse :: file in moved <==> InWindow(window, file))
    ensures DenseMembers(r) == former + moved
  {
    hide DenseMembers, Mark, Marked;
    r, moved := window, {};
    var rest := sparse;
    while rest != {}
      invariant r.first == window.first && |r.words| == |window.words|
      invariant rest <= sparse && moved <= sparse - rest
      invariant forall file <- sparse - rest :: file in moved <==> InWindow(window, file)
      invariant DenseMembers(r) == former + moved
    {
      var file :| file in rest;
      if InWindow(r, file) {
        MarkAddsMember(r, file);
        r := Mark(r, file);
        moved := moved + {file};
        assert former + moved == former + (moved - {file}) + {file};
      }
      rest := rest - {file};
    }
  }

  lemma DisjointUnionSize<T>(a: set<T>, b: set<T>)
    requires a !! b
    ensures |a + b| == |a| + |b|
  {
  }

  // ---------- What the whole structure means ----------

  type Identity = (U64, U128)

  datatype Claim = Claim(identity: Identity, bytes: U64)

  /** The first non-zero claim of an identity is paid in full, every other one nothing. */
  function Payout(seen: set<Identity>, c: Claim): U64 {
    if c.bytes == 0 || c.identity in seen then 0 else c.bytes
  }

  function SeenAfter(seen: set<Identity>, c: Claim): set<Identity> {
    if c.bytes == 0 then seen else seen + {c.identity}
  }

  function Payouts(seen: set<Identity>, claims: seq<Claim>): (paid: seq<U64>)
    ensures |paid| == |claims|
    decreases |claims|
  {
    if claims == [] then [] else [Payout(seen, claims[0])] + Payouts(SeenAfter(seen, claims[0]), claims[1..])
  }

  predicate ClaimedBefore(claims: seq<Claim>, i: nat)
    requires i < |claims|
  {
    exists j :: 0 <= j < i && claims[j].identity == claims[i].identity && claims[j].bytes != 0
  }

  /** Over any sequence of claims an identity is paid exactly once, by its first non-zero claim. */
  lemma {:induction false} PaidOnce(seen: set<Identity>, claims: seq<Claim>, i: nat)
    requires i < |claims|
    ensures Payouts(seen, claims)[i] ==
            if claims[i].identity in seen || ClaimedBefore(claims, i) then 0 else claims[i].bytes
    decreases i
  {
    if i > 0 {
      PaidOnce(SeenAfter(seen, claims[0]), claims[1..], i - 1);
      assert claims[i].identity in SeenAfter(seen, claims[0]) || ClaimedBefore(claims[1..], i - 1) <==>
             claims[i].identity in seen || ClaimedBefore(claims, i) by {
        if ClaimedBefore(claims, i) {
          var j :| 0 <= j < i && claims[j].identity == claims[i].identity && claims[j].bytes != 0;
          assert j > 0 ==> claims[1..][j - 1] == claims[j];
        }
        if ClaimedBefore(claims[1..], i - 1) {
          var j :| 0 <= j < i - 1 && claims[1..][j].identity == claims[1..][i - 1].identity
            && claims[1..][j].bytes != 0;
          assert claims[j + 1] == claims[1..][j];
        }
      }
    }
  }

  /** The identities of the claims that are not for nothing. */
  function Claimed(claims: seq<Claim>): set<Identity> {
    set i | 0 <= i < |claims| && claims[i].bytes != 0 :: claims[i].identity
  }

  lemma ClaimedNext(seen: set<Identity>, claims: seq<Claim>, i: nat)
    requires i < |claims|
    ensures SeenAfter(seen + Claimed(claims[..i]), claims[i]) == seen + Claimed(claims[..i + 1])
  {
    var before, after := claims[..i], claims[..i + 1];
    assert forall k :: 0 <= k < i ==> after[k] == before[k];
    forall x | x in Claimed(after) ensures x in Claimed(before) || (claims[i].bytes != 0 && x == claims[i].identity) {
      var k :| 0 <= k < |after| && after[k].bytes != 0 && after[k].identity == x;
      assert k < i ==> before[k] == after[k];
    }
    assert after[i] == claims[i];
  }

  lemma EachPaidOnce(seen: set<Identity>, claims: seq<Claim>)
    ensures forall i :: 0 <= i < |claims| ==>
              Payouts(seen, claims)[i] ==
              if claims[i].identity in seen || ClaimedBefore(claims, i) then 0 else claims[i].bytes
  {
    forall i | 0 <= i < |claims|
      ensures Payouts(seen, claims)[i] ==
              if claims[i].identity in seen || ClaimedBefore(claims, i) then 0 else claims[i].bytes
    {
      PaidOnce(seen, claims, i);
    }
  }

  // ---------- One volume ----------

  class VolumeIdentities {
    const narrow: NarrowIdentities
    var wide: set<U128>

    ghost predicate Valid()
      reads this, narrow
    {
      narrow.Valid() && forall file <- wide :: file > U64_MAX
    }

    ghost function Members(): set<U128>
      reads this, narrow
    {
      wide + set file: U128 | file in narrow.Members()
    }

    constructor ()
      ensures Valid() && fresh(this) && fresh(narrow) && Members() == {}
    {
      var identities := new NarrowIdentities();
      narrow, wide := identities, {};
    }

    method Claim(file: U128, bytes: U64) returns (paid: U64)
      requires Valid()
      modifies this, narrow
      ensures Valid() && Members() == old(Members()) + {file}
      ensures paid == if file in old(Members()) then 0 else bytes
    {
      var first: bool;
      if file <= U64_MAX {
        first := narrow.Insert(file);
      } else {
        first := file !in wide;
        wide := wide + {file};
      }
      paid := if first then bytes else 0;
    }
  }

  // ---------- All volumes ----------

  datatype TrackedVolumes =
    | Empty
    | Single(volume: U64, identities: VolumeIdentities)
    | Multiple(volumes: map<U64, VolumeIdentities>)

  function ByVolume(t: TrackedVolumes): map<U64, VolumeIdentities> {
    match t
    case Empty => map[]
    case Single(volume, identities) => map[volume := identities]
    case Multiple(volumes) => volumes
  }

  function WithVolume(t: TrackedVolumes, volume: U64, identities: VolumeIdentities): (r: TrackedVolumes)
    requires volume !in ByVolume(t)
    ensures ByVolume(r) == ByVolume(t)[volume := identities]
  {
    match t
    case Empty => Single(volume, identities)
    case Single(primary, own) => Multiple(map[primary := own][volume := identities])
    case Multiple(all) => Multiple(all[volume := identities])
  }

  ghost predicate SeenByVolumes(seen: set<Identity>, members: map<U64, set<U128>>) {
    forall v: U64, file: U128 :: (v, file) in seen <==> v in members && file in members[v]
  }

  lemma VolumeSees(seen: set<Identity>, members: map<U64, set<U128>>, volume: U64, file: U128)
    requires SeenByVolumes(seen, members) && volume in members
    ensures SeenByVolumes(seen + {(volume, file)}, members[volume := members[volume] + {file}])
    ensures (volume, file) in seen <==> file in members[volume]
  {
  }

  lemma NewVolumeSees(seen: set<Identity>, members: map<U64, set<U128>>, volume: U64)
    requires SeenByVolumes(seen, members) && volume !in members
    ensures SeenByVolumes(seen, members[volume := {}])
  {
  }

  class AllocationTracker {
    var volumes: TrackedVolumes
    ghost var Repr: set<object>
    /** The identities charged so far. */
    ghost var Seen: set<Identity>

    ghost predicate Apart()
      reads this, Repr
    {
      && this in Repr
      && var m := ByVolume(volumes);
         && (forall v <- m :: m[v] in Repr && m[v].narrow in Repr && m[v].Valid())
         && (forall v, w :: v in m && w in m && v != w ==> m[v] != m[w] && m[v].narrow != m[w].narrow)
    }

    ghost function MembersByVolume(): map<U64, set<U128>>
      requires Apart()
      reads this, Repr
    {
      map v | v in ByVolume(volumes) :: ByVolume(volumes)[v].Members()
    }

    ghost predicate Valid()
      reads this, Repr
      ensures Valid() ==> this in Repr
    {
      Apart() && SeenByVolumes(Seen, MembersByVolume())
    }

    constructor ()
      ensures Valid() && fresh(Repr) && Seen == {}
    {
      volumes := Empty;
      Repr, Seen := {this}, {};
    }

    /** The identities of a volume, created on first use; the single-volume form is promoted when a second appears. */
    method IdentitiesOf(volume: U64) returns (identities: VolumeIdentities)
      requires Valid()
      modifies this
      ensures Valid() && fresh(Repr - old(Repr)) && Seen == old(Seen)
      ensures volume in ByVolume(volumes) && identities == ByVolume(volumes)[volume]
    {
      hide VolumeIdentities.Valid, VolumeIdentities.Members, WithVolume, ByVolume, SeenByVolumes;
      var known := ByVolume(volumes);
      ghost var members := MembersByVolume();
      if volume in known {
        identities := known[volume];
        return;
      }
      NewVolumeSees(Seen, members, volume);
      identities := AddVolume(volume);
    }

    method AddVolume(volume: U64) returns (identities: VolumeIdentities)
      requires Apart() && volume !in ByVolume(volumes)
      modifies this`volumes, this`Repr
      ensures Apart() && fresh(Repr - old(Repr)) && MembersByVolume() == old(MembersByVolume())[volume := {}]
      ensures volume in ByVolume(volumes) && identities == ByVolume(volumes)[volume]
    {
      hide VolumeIdentities.Valid, VolumeIdentities.Members, WithVolume, ByVolume;
      ghost var members := MembersByVolume();
      identities := new VolumeIdentities();
      volumes := WithVolume(volumes, volume, identities);
      Repr := Repr + {identities, identities.narrow};
      assert MembersByVolume() == members[volume := {}];
    }

    method Claim(c: Claim) returns (paid: U64)
      requires Valid()
      modifies Repr
      ensures Valid() && fresh(Repr - old(Repr))
      ensures paid == Payout(old(Seen), c) && Seen == SeenAfter(old(Seen), c)
    {
      if c.bytes == 0 {
        return 0;
      }
      var identities := IdentitiesOf(c.identity.0);
      paid := Charge(identities, c.identity.0, c.identity.1, c.bytes);
    }

    method Charge(identities: VolumeIdentities, volume: U64, file: U128, bytes: U64) returns (paid: U64)
      requires Valid() && volume in ByVolume(volumes) && ByVolume(volumes)[volume] == identities
      modifies identities, identities.narrow, this`Seen
      ensures Valid() && Repr == old(Repr) && Seen == old(Seen) + {(volume, file)}
      ensures paid == if (volume, file) in old(Seen) then 0 else bytes
    {
      hide VolumeIdentities.Valid, VolumeIdentities.Members, ByVolume, SeenByVolumes;
      ghost var members := MembersByVolume();
      VolumeSees(Seen, members, volume, file);
      paid := ChargeVolume(identities, volume, file, bytes);
    }

    /** One volume takes the identity; the others stay as they are. */
    method ChargeVolume(identities: VolumeIdentities, volume: U64, file: U128, bytes: U64) returns (paid: U64)
      requires Apart() && volume in ByVolume(volumes) && ByVolume(volumes)[volume] == identities
      modifies identities, identities.narrow, this`Seen
      ensures Apart() && Repr == old(Repr) && Seen == old(Seen) + {(volume, file)}
      ensures MembersByVolume() == old(MembersByVolume())[volume := old(MembersByVolume())[volume] + {file}]
      ensures paid == if file in old(MembersByVolume())[volume] then 0 else bytes
    {
      hide VolumeIdentities.Valid, VolumeIdentities.Members, ByVolume;
      ghost var m := ByVolume(volumes);
      Seen := Seen + {(volume, file)};
      paid := identities.Claim(file, bytes);
      assert forall v <- m :: v != volume ==> m[v].Valid() && m[v].Members() == old(m[v].Members());
    }
  }

  // ---------- 64 independent shards ----------

  const SHARDS := 64

  /** The shard that every claim of an identity goes to. */
  function ShardOf(identity: Identity): (shard: nat)
    ensures shard < SHARDS
  {
    Xor(Xor(identity.1 % U64_SIZE, identity.1 / U64_SIZE), identity.0) % SHARDS
  }

  /** What the shards have seen together, each identity in its own shard. */
  ghost predicate SeenByShards(seen: set<Identity>, parts: seq<set<Identity>>) {
    |parts| == SHARDS && forall identity: Identity :: identity in seen <==> identity in parts[ShardOf(identity)]
  }

  lemma ShardSees(seen: set<Identity>, parts: seq<set<Identity>>, after: seq<set<Identity>>, c: Claim)
    requires SeenByShards(seen, parts) && |after| == SHARDS && c.bytes != 0
    requires after[ShardOf(c.identity)] == SeenAfter(parts[ShardOf(c.identity)], c)
    requires forall i :: 0 <= i < SHARDS && i != ShardOf(c.identity) ==> after[i] == parts[i]
    ensures SeenByShards(SeenAfter(seen, c), after)
    ensures c.identity in seen <==> c.identity in parts[ShardOf(c.identity)]
  {
    hide ShardOf;
  }

  /** Claims lock one shard each, so that concurrent claims are some sequence of calls of this method. */
  class ConcurrentAllocationTracker {
    const shards: seq<AllocationTracker>
    ghost var Repr: set<object>
    ghost var Seen: set<Identity>

    ghost predicate Apart()
      reads this, Repr
    {
      && this in Repr && |shards| == SHARDS
      && (forall i :: 0 <= i < SHARDS ==> shards[i] in Repr && shards[i].Repr <= Repr && this !in shards[i].Repr)
      && (forall i, j :: 0 <= i < j < SHARDS ==> shards[i].Repr !! shards[j].Repr)
    }

    ghost predicate ShardsValid()
      requires Apart()
      reads this, Repr
    {
      forall i :: 0 <= i < SHARDS ==> shards[i].Valid()
    }

    ghost function SeenParts(): (parts: seq<set<Identity>>)
      requires Apart()
      reads this, Repr
      ensures |parts| == SHARDS && forall i :: 0 <= i < SHARDS ==> parts[i] == shards[i].Seen
    {
      seq(SHARDS, i requires 0 <= i < SHARDS reads this, Repr requires Apart() => shards[i].Seen)
    }

    ghost predicate Valid()
      reads this, Repr
    {
      Apart() && ShardsValid() && SeenByShards(Seen, SeenParts())
    }

    constructor ()
      ensures Valid() && fresh(Repr) && Seen == {} && |shards| == 64
    {
      var all: seq<AllocationTracker> := [];
      ghost var objects: set<object> := {};
      for i := 0 to SHARDS
        invariant |all| == i && fresh(objects)
        invariant forall k :: 0 <= k < i ==> all[k].Valid() && all[k].Repr <= objects && all[k].Seen == {}
        invariant forall j, k :: 0 <= j < k < i ==> all[j].Repr !! all[k].Repr
        invariant forall k :: 0 <= k < i ==> allocated(all[k].Repr)
      {
        var shard := new AllocationTracker();
        all := all + [shard];
        objects := objects + shard.Repr;
      }
      shards := all;
      Seen := {};
      Repr := objects + {this};
    }

    method Claim(c: Claim) returns (paid: U64)
      requires Valid()
      modifies this, shards[ShardOf(c.identity)].Repr
      ensures Valid() && fresh(Repr - old(Repr))
      ensures paid == Payout(old(Seen), c) && Seen == SeenAfter(old(Seen), c)
    {
      if c.bytes == 0 {
        return 0;
      }
      hide AllocationTracker.Valid, ShardOf, SeenByShards, Apart, ShardsValid;
      ghost var seen, parts := Seen, SeenParts();
      paid := ClaimFrom(ShardOf(c.identity), c);
      ShardSees(seen, parts, SeenParts(), c);
    }

    /** One shard takes the claim; the others stay as they are. */
    method ClaimFrom(k: nat, c: Claim) returns (paid: U64)
      requires k < SHARDS && Apart() && ShardsValid()
      modifies this, shards[k].Repr
      ensures Apart() && ShardsValid() && fresh(Repr - old(Repr)) && Seen == SeenAfter(old(Seen), c)
      ensures SeenParts() == old(SeenParts())[k := SeenAfter(old(SeenParts())[k], c)]
      ensures paid == Payout(old(SeenParts())[k], c)
    {
      hide AllocationTracker.Valid, ByVolume, Payout, SeenAfter;
      label before:
      paid := shards[k].Claim(c);
      forall i | 0 <= i < SHARDS && i != k
        ensures shards[i].Valid() && shards[i].Repr == old@before(shards[i].Repr)
                && shards[i].Seen == old@before(shards[i].Seen)
        ensures shards[i].Repr !! shards[k].Repr
      {
        assert shards[i].Repr !! old@before(shards[k].Repr);
      }
      Repr := Repr + shards[k].Repr;
      Seen := SeenAfter(Seen, c);
    }

    /** Over any sequence of claims each identity is paid exactly once, by its first non-zero claim. */
    method ClaimAll(claims: seq<Claim>) returns (paid: seq<U64>)
      requires Valid()
      modifies Repr
      ensures Valid() && fresh(Repr - old(Repr)) && paid == Payouts(old(Seen), claims)
      ensures forall i :: 0 <= i < |claims| ==>
                paid[i] == if claims[i].identity in old(Seen) || ClaimedBefore(claims, i) then 0 else claims[i].bytes
      ensures Seen == old(Seen) + Claimed(claims)
    {
      paid := [];
      assert claims[0..] == claims;
      for i := 0 to |claims|
        invariant Valid() && fresh(Repr - old(Repr))
        invariant Seen == old(Seen) + Claimed(claims[..i])
        invariant paid + Payouts(Seen, claims[i..]) == Payouts(old(Seen), claims)
      {
        hide Valid, Apart, Payout, SeenAfter, Payouts, ClaimedBefore, ShardOf, Claimed;
        ghost var seen := Seen;
        ClaimedNext(old(Seen), claims, i);
        PayoutsGoOn(paid, seen, claims, i);
        assert shards[ShardOf(claims[i].identity)].Repr <= Repr by {
          ShardIsOurs(claims[i]);
        }
        var more := Claim(claims[i]);
        paid := paid + [more];
      }
      assert claims[|claims|..] == [] && claims[..|claims|] == claims;
      EachPaidOnce(old(Seen), claims);
    }

    lemma ShardIsOurs(c: Claim)
      requires Valid()
      ensures this in Repr && |shards| == SHARDS && shards[ShardOf(c.identity)].Repr <= Repr
    {
    }
  }

  lemma PayoutsGoOn(paid: seq<U64>, seen: set<Identity>, claims: seq<Claim>, i: nat)
    requires i < |claims|
    ensures paid + Payouts(seen, claims[i..]) ==
            paid + [Payout(seen, claims[i])] + Payouts(SeenAfter(seen, claims[i]), claims[i + 1..])
  {
    assert claims[i..][0] == claims[i] && claims[i..][1..] == claims[i + 1..];
    Associates(paid, [Payout(seen, claims[i])], Payouts(SeenAfter(seen, claims[i]), claims[i + 1..]));
  }
}
