/**
 Listing the children of a directory a page at a time. Directories and files stand in two lists, each in descending
 order of its bytes on disk; pages are cut from the merge of both.
 */
module ChildPages {
  import opened Basics

  datatype Child = DirectoryChild(index: nat, bytes: U64) | FileChild(index: nat, bytes: U64)

  ghost predicate Descending(s: seq<Child>) {
    forall i, j :: 0 <= i < j < |s| ==> s[i].bytes >= s[j].bytes
  }

  /** Of two equal sizes the directory comes first. */
  predicate DirectoryNext(ds: seq<Child>, fs: seq<Child>)
    requires ds != [] || fs != []
  {
    ds != [] && (fs != [] ==> ds[0].bytes >= fs[0].bytes)
  }

  function Merge(ds: seq<Child>, fs: seq<Child>): (merged: seq<Child>)
    ensures |merged| == |ds| + |fs|
    decreases |ds| + |fs|
  {
    if ds == [] && fs == [] then []
    else if DirectoryNext(ds, fs) then [ds[0]] + Merge(ds[1..], fs)
    else [fs[0]] + Merge(ds, fs[1..])
  }

  lemma FirstOut(s: seq<Child>)
    requires s != []
    ensures multiset(s) == multiset{s[0]} + multiset(s[1..])
  {
    assert s == [s[0]] + s[1..];
  }

  lemma FirstIn(c: Child, rest: seq<Child>, others: multiset<Child>, more: multiset<Child>)
    requires multiset(rest) == others + more
    ensures multiset([c] + rest) == (multiset{c} + others) + more == others + (multiset{c} + more)
  {
  }

  /** The merge holds every child once. */
  lemma {:induction false} MergeIsUnion(ds: seq<Child>, fs: seq<Child>)
    ensures multiset(Merge(ds, fs)) == multiset(ds) + multiset(fs)
    decreases |ds| + |fs|
  {
    if ds == [] && fs == [] {
    } else if DirectoryNext(ds, fs) {
      MergeIsUnion(ds[1..], fs);
      FirstOut(ds);
      FirstIn(ds[0], Merge(ds[1..], fs), multiset(ds[1..]), multiset(fs));
    } else {
      MergeIsUnion(ds, fs[1..]);
      FirstOut(fs);
      FirstIn(fs[0], Merge(ds, fs[1..]), multiset(ds), multiset(fs[1..]));
    }
  }

  ghost predicate NoneLarger(s: seq<Child>, bytes: U64) {
    forall c <- s :: c.bytes <= bytes
  }

  lemma {:induction false} MergeKeepsBound(ds: seq<Child>, fs: seq<Child>, bytes: U64)
    requires NoneLarger(ds, bytes) && NoneLarger(fs, bytes)
    ensures NoneLarger(Merge(ds, fs), bytes)
    decreases |ds| + |fs|
  {
    if ds == [] && fs == [] {
    } else if DirectoryNext(ds, fs) {
      MergeKeepsBound(ds[1..], fs, bytes);
    } else {
      MergeKeepsBound(ds, fs[1..], bytes);
    }
  }

  lemma FirstIsLargest(s: seq<Child>)
    requires Descending(s) && s != []
    ensures NoneLarger(s, s[0].bytes) && Descending(s[1..])
  {
  }

  lemma FirstOfDescending(c: Child, rest: seq<Child>)
    requires Descending(rest) && NoneLarger(rest, c.bytes)
    ensures Descending([c] + rest)
  {
  }

  /** The merge is in descending order of size. */
  lemma {:induction false} MergeDescends(ds: seq<Child>, fs: seq<Child>)
    requires Descending(ds) && Descending(fs)
    ensures Descending(Merge(ds, fs))
    decreases |ds| + |fs|
  {
    if ds != [] {
      FirstIsLargest(ds);
    }
    if fs != [] {
      FirstIsLargest(fs);
    }
    if ds == [] && fs == [] {
    } else if DirectoryNext(ds, fs) {
      MergeDescends(ds[1..], fs);
      MergeKeepsBound(ds[1..], fs, ds[0].bytes);
      FirstOfDescending(ds[0], Merge(ds[1..], fs));
    } else {
      MergeDescends(ds, fs[1..]);
      MergeKeepsBound(ds, fs[1..], fs[0].bytes);
      FirstOfDescending(fs[0], Merge(ds, fs[1..]));
    }
  }

  /** Directories among themselves stay in order, so do files, and a directory comes before a file of the same size. */
  lemma {:induction false} MergeKeepsOrder(ds: seq<Child>, fs: seq<Child>)
    requires (forall c <- ds :: c.DirectoryChild?) && (forall c <- fs :: c.FileChild?)
    ensures Directories(Merge(ds, fs)) == ds && Files(Merge(ds, fs)) == fs
    decreases |ds| + |fs|
  {
    if ds == [] && fs == [] {
    } else if DirectoryNext(ds, fs) {
      assert ds[0] in ds;
      MergeKeepsOrder(ds[1..], fs);
      assert ([ds[0]] + Merge(ds[1..], fs))[1..] == Merge(ds[1..], fs);
    } else {
      assert fs[0] in fs;
      MergeKeepsOrder(ds, fs[1..]);
      assert ([fs[0]] + Merge(ds, fs[1..]))[1..] == Merge(ds, fs[1..]);
    }
  }

  function Directories(s: seq<Child>): seq<Child> {
    if s == [] then [] else (if s[0].DirectoryChild? then [s[0]] else []) + Directories(s[1..])
  }

  function Files(s: seq<Child>): seq<Child> {
    if s == [] then [] else (if s[0].FileChild? then [s[0]] else []) + Files(s[1..])
  }

  /** No directory stands behind a file of the same size. */
  ghost predicate DirectoriesWinTies(all: seq<Child>) {
    forall i, j :: 0 <= j < i < |all| && all[i].DirectoryChild? && all[j].FileChild? ==> all[i].bytes != all[j].bytes
  }

  lemma {:induction false} TiesGoToDirectories(ds: seq<Child>, fs: seq<Child>)
    requires Descending(ds) && Descending(fs)
    requires (forall c <- ds :: c.DirectoryChild?) && (forall c <- fs :: c.FileChild?)
    ensures DirectoriesWinTies(Merge(ds, fs))
    decreases |ds| + |fs|
  {
    if ds == [] && fs == [] {
    } else if DirectoryNext(ds, fs) {
      FirstIsLargest(ds);
      TiesGoToDirectories(ds[1..], fs);
      assert ds[0] in ds;
      OneMoreChild(ds[0], Merge(ds[1..], fs));
    } else {
      FirstIsLargest(fs);
      TiesGoToDirectories(ds, fs[1..]);
      FileIsLarger(ds, fs);
      OneMoreChild(fs[0], Merge(ds, fs[1..]));
    }
  }

  lemma OneMoreChild(c: Child, rest: seq<Child>)
    requires DirectoriesWinTies(rest)
    requires c.FileChild? ==> forall d <- rest :: d.DirectoryChild? ==> d.bytes < c.bytes
    ensures DirectoriesWinTies([c] + rest)
  {
    var all := [c] + rest;
    forall i, j | 0 <= j < i < |all| && all[i].DirectoryChild? && all[j].FileChild?
      ensures all[i].bytes != all[j].bytes
    {
      assert all[i] == rest[i - 1] && (j > 0 ==> all[j] == rest[j - 1]);
    }
  }

  lemma FileIsLarger(ds: seq<Child>, fs: seq<Child>)
    requires Descending(ds) && Descending(fs) && fs != [] && !DirectoryNext(ds, fs)
    requires (forall c <- ds :: c.DirectoryChild?) && (forall c <- fs :: c.FileChild?)
    ensures fs[0].FileChild? && forall c <- Merge(ds, fs[1..]) :: c.DirectoryChild? ==> c.bytes < fs[0].bytes
  {
    assert forall c <- fs[1..] :: c in fs;
    forall c | c in Merge(ds, fs[1..]) && c.DirectoryChild? ensures c.bytes < fs[0].bytes {
      FromEither(ds, fs[1..], c);
      assert c in ds;
      FirstIsLargest(ds);
    }
  }

  lemma FromEither(ds: seq<Child>, fs: seq<Child>, c: Child)
    requires c in Merge(ds, fs)
    ensures c in ds || c in fs
  {
    MergeIsUnion(ds, fs);
    assert c in multiset(Merge(ds, fs));
  }

  /** At most `limit` entries after the first `offset`. */
  function Page(s: seq<Child>, offset: nat, limit: nat): seq<Child> {
    s[Min(offset, |s|)..Min(offset + limit, |s|)]
  }

  lemma PageHas(s: seq<Child>, offset: nat, limit: nat)
    ensures |Page(s, offset, limit)| == Max(Min(limit, |s| - offset), 0)
    ensures forall i :: 0 <= i < |Page(s, offset, limit)| ==> Page(s, offset, limit)[i] == s[offset + i]
  {
  }

  lemma SlicesJoin(s: seq<Child>, a: nat, b: nat, c: nat)
    requires a <= b <= c <= |s|
    ensures s[a..b] + s[b..c] == s[a..c]
  {
  }

  /** Pages that follow each other make up one page, and enough of them make up the whole. */
  lemma PagesJoin(s: seq<Child>, offset: nat, first: nat, second: nat)
    ensures Page(s, offset, first) + Page(s, offset + first, second) == Page(s, offset, first + second)
    ensures first >= |s| ==> Page(s, 0, first) == s
    ensures |Page(s, offset, first)| == Max(Min(first, |s| - offset), 0)
    ensures forall i :: 0 <= i < |Page(s, offset, first)| ==> Page(s, offset, first)[i] == s[offset + i]
  {
    PageHas(s, offset, first);
    SlicesJoin(s, Min(offset, |s|), Min(offset + first, |s|), Min(offset + first + second, |s|));
  }

  /** The cursors stand where the merge goes on at position `d + f`. */
  ghost predicate MergesFrom(ds: seq<Child>, fs: seq<Child>, d: nat, f: nat, all: seq<Child>) {
    d <= |ds| && f <= |fs| && |all| == |ds| + |fs| && Merge(ds[d..], fs[f..]) == all[d + f..]
  }

  lemma MergeGoesOn(ds: seq<Child>, fs: seq<Child>, d: nat, f: nat, all: seq<Child>)
    requires MergesFrom(ds, fs, d, f, all) && (d < |ds| || f < |fs|)
    ensures if d < |ds| && (f < |fs| ==> ds[d].bytes >= fs[f].bytes)
            then all[d + f] == ds[d] && MergesFrom(ds, fs, d + 1, f, all)
            else f < |fs| && all[d + f] == fs[f] && MergesFrom(ds, fs, d, f + 1, all)
  {
    var merged := Merge(ds[d..], fs[f..]);
    assert merged[0] == all[d + f] && merged[1..] == all[d + f + 1..];
    if d < |ds| {
      assert ds[d..][1..] == ds[d + 1..];
    }
    if f < |fs| {
      assert fs[f..][1..] == fs[f + 1..];
    }
  }

  /** The first `at` entries have been passed: `skipped` of them before the page, the others visited. */
  ghost predicate Visiting(all: seq<Child>, offset: nat, limit: nat, at: nat, skipped: nat, visited: seq<Child>) {
    && at <= |all| && (skipped == offset <= at || skipped == at < offset)
    && visited == all[skipped..at] && |visited| <= limit
  }

  lemma VisitStarts(ds: seq<Child>, fs: seq<Child>, offset: nat, limit: nat)
    ensures MergesFrom(ds, fs, 0, 0, Merge(ds, fs)) && Visiting(Merge(ds, fs), offset, limit, 0, 0, [])
  {
    hide Merge;
    assert ds[0..] == ds && fs[0..] == fs && Merge(ds, fs)[0..] == Merge(ds, fs);
  }

  lemma VisitStep(all: seq<Child>, offset: nat, limit: nat, at: nat, skipped: nat, visited: seq<Child>)
    requires Visiting(all, offset, limit, at, skipped, visited) && at < |all| && |visited| < limit
    ensures if skipped < offset then Visiting(all, offset, limit, at + 1, skipped + 1, visited)
            else Visiting(all, offset, limit, at + 1, skipped, visited + [all[at]])
  {
    assert all[skipped..at] + [all[at]] == all[skipped..at + 1];
  }

  lemma VisitEnds(all: seq<Child>, offset: nat, limit: nat, at: nat, skipped: nat, visited: seq<Child>)
    requires Visiting(all, offset, limit, at, skipped, visited) && limit > 0 && (at == |all| || |visited| == limit)
    ensures visited == Page(all, offset, limit)
  {
  }

  /** Skips and visits in one pass over both lists; nothing before the page or after it is kept. */
  method ForEachChild(ds: seq<Child>, fs: seq<Child>, offset: nat, limit: nat) returns (visited: seq<Child>)
    ensures visited == Page(Merge(ds, fs), offset, limit)
  {
    hide Merge, Page;
    visited := [];
    if limit == 0 {
      PageHas(Merge(ds, fs), offset, 0);
      return;
    }
    ghost var all := Merge(ds, fs);
    var d: nat, f: nat, skipped: nat := 0, 0, 0;
    VisitStarts(ds, fs, offset, limit);
    hide MergesFrom, Visiting;
    while |visited| < limit && (d < |ds| || f < |fs|)
      invariant d <= |ds| && f <= |fs| && |all| == |ds| + |fs| && |visited| <= limit
      invariant MergesFrom(ds, fs, d, f, all) && Visiting(all, offset, limit, d + f, skipped, visited)
      decreases |ds| - d + |fs| - f
    {
      MergeGoesOn(ds, fs, d, f, all);
      VisitStep(all, offset, limit, d + f, skipped, visited);
      ghost var next := all[d + f];
      var child;
      if d < |ds| && (f < |fs| ==> ds[d].bytes >= fs[f].bytes) {
        child := ds[d];
        d := d + 1;
      } else {
        child := fs[f];
        f := f + 1;
      }
      assert child == next && MergesFrom(ds, fs, d, f, all);
      if skipped < offset {
        skipped := skipped + 1;
      } else {
        visited := visited + [child];
      }
    }
    VisitEnds(all, offset, limit, d + f, skipped, visited);
  }
}
