/** What the walk of one thread reports: every entry it can get to, nothing else, nothing twice, parents first. */
module WalkLaws {
  import opened Basics
  import opened DirectoryWalk

  function PathOf(x: Item): Path {
    match x
    case FileAt(parent, name, _) => parent + [name]
    case DirectoryAt(path) => path
  }

  function ParentOf(x: Item): Path {
    match x
    case FileAt(parent, _, _) => parent
    case DirectoryAt(path) => if path == [] then [] else path[..|path| - 1]
  }

  lemma ItemPaths(p: Place, entry: Entry)
    ensures PathOf(ItemOf(p, entry)) == p.path + [entry.name] && ParentOf(ItemOf(p, entry)) == p.path
  {
  }

  lemma BelowIsNamed(policy: Policy, p: Place, entry: Entry)
    requires Below(policy, p, entry).Some?
    ensures Below(policy, p, entry).value.path == p.path + [entry.name]
    ensures ItemOf(p, entry) == DirectoryAt(Below(policy, p, entry).value.path)
  {
  }

  // ---------- Parents first ----------

  ghost predicate ParentBefore(start: Path, items: seq<Item>, j: nat)
    requires j < |items|
  {
    ParentOf(items[j]) == start || exists k :: 0 <= k < j && items[k] == DirectoryAt(ParentOf(items[j]))
  }

  ghost predicate ParentsLead(start: Path, items: seq<Item>) {
    forall j: nat :: j < |items| ==> ParentBefore(start, items, j)
  }

  lemma LeadsOver(start: Path, item: Item, below: seq<Item>, rest: seq<Item>)
    requires ParentOf(item) == start && ParentsLead(start, rest)
    requires below != [] ==> item.DirectoryAt? && ParentsLead(item.path, below)
    ensures ParentsLead(start, [item] + below + rest)
  {
    var items := [item] + below + rest;
    forall j: nat | j < |items| ensures ParentBefore(start, items, j) {
      if 1 <= j < 1 + |below| {
        assert items[j] == below[j - 1] && items[0] == item;
        assert ParentBefore(item.path, below, j - 1);
        if ParentOf(below[j - 1]) != item.path {
          var k :| 0 <= k < j - 1 && below[k] == DirectoryAt(ParentOf(below[j - 1]));
          assert items[k + 1] == below[k];
        }
      } else if j > |below| {
        var m := j - 1 - |below|;
        assert items[j] == rest[m] && ParentBefore(start, rest, m);
        if ParentOf(rest[m]) != start {
          var k :| 0 <= k < m && rest[k] == DirectoryAt(ParentOf(rest[m]));
          assert items[k + 1 + |below|] == rest[k];
        }
      }
    }
  }

  /** An entry below another directory than the one the walk starts from is reported after that directory. */
  lemma {:induction false} DirectoriesFirst(fs: FileSystem, policy: Policy, p: Place, i: nat)
    requires i <= |Listing(fs, p)|
    ensures ParentsLead(p.path, WalkFrom(fs, policy, p, i))
    decreases Outside(fs, p), Height(fs, p), |Listing(fs, p)| - i
  {
    hide Listing, Outside, Height, Below;
    if i < |Listing(fs, p)| {
      var entry := Listing(fs, p)[i];
      DirectoriesFirst(fs, policy, p, i + 1);
      WalkUnfolds(fs, policy, p, i);
      ItemPaths(p, entry);
      if Below(policy, p, entry).Some? {
        DescentIsSmaller(fs, policy, p, entry);
        BelowIsNamed(policy, p, entry);
        DirectoriesFirst(fs, policy, Below(policy, p, entry).value, 0);
      }
      LeadsOver(p.path, ItemOf(p, entry), WalkEntry(fs, policy, p, i), WalkFrom(fs, policy, p, i + 1));
    }
  }

  // ---------- Nothing twice ----------

  /** The names in each listing are different. */
  ghost predicate NamesDiffer(entries: seq<Entry>) {
    forall i, j :: 0 <= i < j < |entries| ==> entries[i].name != entries[j].name
  }

  ghost predicate WellNamed(fs: FileSystem) {
    forall path <- fs :: NamesDiffer(fs[path])
  }

  predicate StartsWith(path: Path, prefix: Path) {
    prefix <= path
  }

  ghost predicate LiesUnder(fs: FileSystem, p: Place, i: nat, x: Item) {
    exists k :: i <= k < |Listing(fs, p)| && StartsWith(PathOf(x), p.path + [Listing(fs, p)[k].name])
  }

  lemma LongerPrefix(path: Path, prefix: Path, name: Name)
    requires StartsWith(path, prefix + [name])
    ensures StartsWith(path, prefix) && |prefix| < |path| && path[|prefix|] == name
  {
    assert path[|prefix|] == (prefix + [name])[|prefix|];
    assert path[..|prefix|] == (prefix + [name])[..|prefix|] == prefix;
  }

  /** What is reported from an entry on lies under that entry or a later one. */
  lemma {:induction false} ReportedUnder(fs: FileSystem, policy: Policy, p: Place, i: nat, x: Item)
    requires i <= |Listing(fs, p)| && x in WalkFrom(fs, policy, p, i)
    ensures LiesUnder(fs, p, i, x)
    decreases Outside(fs, p), Height(fs, p), |Listing(fs, p)| - i
  {
    hide Listing, Outside, Height, Below;
    var entry := Listing(fs, p)[i];
    WalkUnfolds(fs, policy, p, i);
    if x == ItemOf(p, entry) {
      ItemPaths(p, entry);
    } else if x in WalkEntry(fs, policy, p, i) {
      DescentIsSmaller(fs, policy, p, entry);
      BelowIsNamed(policy, p, entry);
      var q := Below(policy, p, entry).value;
      ReportedUnder(fs, policy, q, 0, x);
      var k :| 0 <= k < |Listing(fs, q)| && StartsWith(PathOf(x), q.path + [Listing(fs, q)[k].name]);
      LongerPrefix(PathOf(x), q.path, Listing(fs, q)[k].name);
    } else {
      ReportedUnder(fs, policy, p, i + 1, x);
    }
  }

  ghost predicate PathsDiffer(items: seq<Item>) {
    forall j, k :: 0 <= j < k < |items| ==> PathOf(items[j]) != PathOf(items[k])
  }

  lemma ThreePartsDiffer(path: Path, name: Name, item: Item, below: seq<Item>, rest: seq<Item>)
    requires PathOf(item) == path + [name] && PathsDiffer(below) && PathsDiffer(rest)
    requires forall x <- below :: StartsWith(PathOf(x), path + [name]) && |PathOf(x)| > |path| + 1
    requires forall x <- rest :: |PathOf(x)| > |path| && PathOf(x)[|path|] != name
    ensures PathsDiffer([item] + below + rest)
  {
    var items := [item] + below + rest;
    forall x | x == item || x in below ensures |PathOf(x)| > |path| && PathOf(x)[|path|] == name {
      LongerPrefix(PathOf(x), path, name);
    }
    forall j, k | 0 <= j < k < |items| ensures PathOf(items[j]) != PathOf(items[k]) {
      if k <= |below| {
        assert items[k] == below[k - 1] && items[k] in below;
        assert j > 0 ==> items[j] == below[j - 1];
      } else {
        assert items[k] == rest[k - 1 - |below|] && items[k] in rest;
        if j <= |below| {
          assert j > 0 ==> items[j] == below[j - 1] && items[j] in below;
        } else {
          assert items[j] == rest[j - 1 - |below|];
        }
      }
    }
  }

  lemma BelowLies(fs: FileSystem, policy: Policy, p: Place, i: nat)
    requires i < |Listing(fs, p)|
    ensures forall x <- WalkEntry(fs, policy, p, i) ::
              StartsWith(PathOf(x), p.path + [Listing(fs, p)[i].name]) && |PathOf(x)| > |p.path| + 1
  {
    hide Listing, Outside, Height, Below;
    var entry := Listing(fs, p)[i];
    WalkUnfolds(fs, policy, p, i);
    forall x | x in WalkEntry(fs, policy, p, i)
      ensures StartsWith(PathOf(x), p.path + [entry.name]) && |PathOf(x)| > |p.path| + 1
    {
      BelowIsNamed(policy, p, entry);
      var q := Below(policy, p, entry).value;
      ReportedUnder(fs, policy, q, 0, x);
      var k :| 0 <= k < |Listing(fs, q)| && StartsWith(PathOf(x), q.path + [Listing(fs, q)[k].name]);
      LongerPrefix(PathOf(x), q.path, Listing(fs, q)[k].name);
    }
  }

  lemma LaterLies(fs: FileSystem, policy: Policy, p: Place, i: nat)
    requires i < |Listing(fs, p)| && NamesDiffer(Listing(fs, p))
    ensures forall x <- WalkFrom(fs, policy, p, i + 1) ::
              |PathOf(x)| > |p.path| && PathOf(x)[|p.path|] != Listing(fs, p)[i].name
  {
    hide Listing;
    forall x | x in WalkFrom(fs, policy, p, i + 1)
      ensures |PathOf(x)| > |p.path| && PathOf(x)[|p.path|] != Listing(fs, p)[i].name
    {
      ReportedUnder(fs, policy, p, i + 1, x);
      var k :| i + 1 <= k < |Listing(fs, p)| && StartsWith(PathOf(x), p.path + [Listing(fs, p)[k].name]);
      LongerPrefix(PathOf(x), p.path, Listing(fs, p)[k].name);
    }
  }

  /** When the names in each listing are different, no path is reported twice. */
  lemma {:induction false} ReportedOnce(fs: FileSystem, policy: Policy, p: Place, i: nat)
    requires i <= |Listing(fs, p)| && WellNamed(fs)
    ensures PathsDiffer(WalkFrom(fs, policy, p, i))
    decreases Outside(fs, p), Height(fs, p), |Listing(fs, p)| - i
  {
    assert NamesDiffer(Listing(fs, p));
    hide Listing, Outside, Height, Below, WellNamed, NamesDiffer;
    if i < |Listing(fs, p)| {
      var entry := Listing(fs, p)[i];
      ReportedOnce(fs, policy, p, i + 1);
      WalkUnfolds(fs, policy, p, i);
      ItemPaths(p, entry);
      BelowLies(fs, policy, p, i);
      LaterLies(fs, policy, p, i);
      if Below(policy, p, entry).Some? {
        DescentIsSmaller(fs, policy, p, entry);
        ReportedOnce(fs, policy, Below(policy, p, entry).value, 0);
      }
      ThreePartsDiffer(p.path, entry.name, ItemOf(p, entry), WalkEntry(fs, policy, p, i),
                       WalkFrom(fs, policy, p, i + 1));
    }
  }

  /** So every item is reported once. */
  lemma {:induction false} EachItemOnce(items: seq<Item>, x: Item)
    requires PathsDiffer(items)
    ensures multiset(items)[x] == if x in items then 1 else 0
  {
    if items != [] {
      var n := |items| - 1;
      assert items == items[..n] + [items[n]];
      EachItemOnce(items[..n], x);
    }
  }

  // ---------- Everything, and nothing else ----------

  /** The walk gets from `p` to `q` by descending into the entries at the given positions. */
  ghost predicate Descends(fs: FileSystem, policy: Policy, p: Place, route: seq<nat>, q: Place)
    decreases |route|
  {
    if route == [] then p == q
    else
      && route[0] < |Listing(fs, p)|
      && match Below(policy, p, Listing(fs, p)[route[0]])
         case None => false
         case Some(next) => Descends(fs, policy, next, route[1..], q)
  }

  ghost predicate Listed(fs: FileSystem, q: Place, x: Item) {
    exists i :: 0 <= i < |Listing(fs, q)| && x == ItemOf(q, Listing(fs, q)[i])
  }

  lemma {:induction false} EntryIsReported(fs: FileSystem, policy: Policy, p: Place, from: nat, i: nat)
    requires from <= i < |Listing(fs, p)|
    ensures ItemOf(p, Listing(fs, p)[i]) in WalkFrom(fs, policy, p, from)
    ensures forall x <- WalkEntry(fs, policy, p, i) :: x in WalkFrom(fs, policy, p, from)
    decreases i - from
  {
    hide Listing, Below;
    WalkUnfolds(fs, policy, p, from);
    if from < i {
      EntryIsReported(fs, policy, p, from + 1, i);
    }
  }

  lemma {:induction false} ReachedIsReported(fs: FileSystem, policy: Policy, p: Place, route: seq<nat>, q: Place,
                                             x: Item)
    requires Descends(fs, policy, p, route, q) && Listed(fs, q, x)
    ensures x in Walk(fs, policy, p)
    decreases |route|
  {
    hide Listing, Below;
    if route == [] {
      var i :| 0 <= i < |Listing(fs, q)| && x == ItemOf(q, Listing(fs, q)[i]);
      EntryIsReported(fs, policy, p, 0, i);
    } else {
      var next := Below(policy, p, Listing(fs, p)[route[0]]).value;
      ReachedIsReported(fs, policy, next, route[1..], q, x);
      WalkUnfolds(fs, policy, p, route[0]);
      EntryIsReported(fs, policy, p, 0, route[0]);
    }
  }

  lemma {:induction false} ReportedIsReached(fs: FileSystem, policy: Policy, p: Place, i: nat, x: Item)
    returns (route: seq<nat>, q: Place)
    requires i <= |Listing(fs, p)| && x in WalkFrom(fs, policy, p, i)
    ensures Descends(fs, policy, p, route, q) && Listed(fs, q, x)
    decreases Outside(fs, p), Height(fs, p), |Listing(fs, p)| - i
  {
    hide Listing, Outside, Height, Below;
    var entry := Listing(fs, p)[i];
    WalkUnfolds(fs, policy, p, i);
    if x == ItemOf(p, entry) {
      route, q := [], p;
    } else if x in WalkEntry(fs, policy, p, i) {
      DescentIsSmaller(fs, policy, p, entry);
      route, q := ReportedIsReached(fs, policy, Below(policy, p, entry).value, 0, x);
      assert ([i] + route)[1..] == route;
      route := [i] + route;
    } else {
      route, q := ReportedIsReached(fs, policy, p, i + 1, x);
    }
  }

  /** The walk reports exactly the entries of the directories it can get to by descending, link by link. */
  lemma ReportsExactly(fs: FileSystem, policy: Policy, p: Place, x: Item)
    ensures x in Walk(fs, policy, p) <==>
            exists route, q :: Descends(fs, policy, p, route, q) && Listed(fs, q, x)
  {
    hide Listing, Below;
    if x in Walk(fs, policy, p) {
      var route, q := ReportedIsReached(fs, policy, p, 0, x);
    }
    if exists route, q :: Descends(fs, policy, p, route, q) && Listed(fs, q, x) {
      var route, q :| Descends(fs, policy, p, route, q) && Listed(fs, q, x);
      ReachedIsReported(fs, policy, p, route, q, x);
    }
  }
}
