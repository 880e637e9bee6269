/**
 What the walk reports, read off the listings: plain directories are always entered, a link only when the policy
 follows links and its target is not a directory through which the walk came.
 */
module WalkMeaning {
  import opened Basics
  import opened DirectoryWalk
  import opened WalkLaws

  /** A directory to be read, the directories come through, and the path under which its entries are reported. */
  datatype Spot = Spot(at: Path, through: set<Path>, path: Path)

  predicate Enters(follow: bool, from: Spot, entry: Entry, to: Spot) {
    match entry
    case FileEntry(_, _) => false
    case PlainDirectory(name) =>
      to == Spot(from.at + [name], from.through + {from.at + [name]}, from.path + [name])
    case LinkedDirectory(name, Some(target)) =>
      follow && target !in from.through && to == Spot(target, from.through + {target}, from.path + [name])
    case LinkedDirectory(_, None) => false
  }

  /** Each spot is entered from an entry of the one before it. */
  ghost predicate IsTrail(fs: FileSystem, follow: bool, spots: seq<Spot>) {
    && spots != []
    && forall i :: 0 < i < |spots| ==> Leads(fs, follow, spots[i - 1], spots[i])
  }

  ghost predicate Leads(fs: FileSystem, follow: bool, from: Spot, to: Spot) {
    from.at in fs && exists entry <- fs[from.at] :: Enters(follow, from, entry, to)
  }

  function Reported(path: Path, entry: Entry): Item {
    match entry
    case FileEntry(name, size) => FileAt(path, name, size)
    case PlainDirectory(name) => DirectoryAt(path + [name])
    case LinkedDirectory(name, _) => DirectoryAt(path + [name])
  }

  ghost predicate IsReportedAt(fs: FileSystem, s: Spot, x: Item) {
    s.at in fs && exists entry <- fs[s.at] :: x == Reported(s.path, entry)
  }

  /** Chains are only left out when no link is ever followed. */
  predicate Tracks(policy: Policy, p: Place) {
    p.ancestors.Node? || policy == SkipAll
  }

  ghost predicate StandsAt(p: Place, s: Spot) {
    && s.path == p.path
    && match p.ancestors
       case Disabled => s.at == p.path
       case Node(canonical, _) => s.at == canonical && s.through == Elements(p.ancestors)
  }

  // ---------- One step ----------

  lemma BelowIsEntered(fs: FileSystem, policy: Policy, p: Place, s: Spot, entry: Entry) returns (to: Spot)
    requires Tracks(policy, p) && StandsAt(p, s) && entry in Listing(fs, p) && Below(policy, p, entry).Some?
    ensures s.at in fs && entry in fs[s.at] && Enters(policy != SkipAll, s, entry, to)
    ensures var q := Below(policy, p, entry).value; Tracks(policy, q) && StandsAt(q, to)
  {
    var q := Below(policy, p, entry).value;
    match entry
    case PlainDirectory(name) =>
      to := Spot(s.at + [name], s.through + {s.at + [name]}, s.path + [name]);
      if q.ancestors.Node? {
        ElementsOfNode(q.ancestors.canonical, p.ancestors);
      }
    case LinkedDirectory(name, target) =>
      ContainsIsElement(p.ancestors, target.value);
      ElementsOfNode(target.value, p.ancestors);
      to := Spot(target.value, s.through + {target.value}, s.path + [name]);
  }

  lemma EnteredIsBelow(fs: FileSystem, policy: Policy, p: Place, s: Spot, entry: Entry, to: Spot) returns (q: Place)
    requires Tracks(policy, p) && StandsAt(p, s) && s.at in fs && entry in fs[s.at]
    requires Enters(policy != SkipAll, s, entry, to)
    ensures entry in Listing(fs, p) && Below(policy, p, entry) == Some(q) && Tracks(policy, q) && StandsAt(q, to)
  {
    if entry.LinkedDirectory? {
      ContainsIsElement(p.ancestors, entry.target.value);
    }
    q := Below(policy, p, entry).value;
    if q.ancestors.Node? {
      ElementsOfNode(q.ancestors.canonical, p.ancestors);
    }
  }

  lemma ListedIsReported(fs: FileSystem, p: Place, s: Spot, x: Item)
    requires StandsAt(p, s)
    ensures Listed(fs, p, x) <==> IsReportedAt(fs, s, x)
  {
    assert forall entry :: ItemOf(p, entry) == Reported(s.path, entry);
    if s.at in fs {
      assert Listing(fs, p) == fs[s.at];
      hide ItemOf, Reported;
      if entry :| entry in fs[s.at] && x == Reported(s.path, entry) {
        var i :| 0 <= i < |fs[s.at]| && fs[s.at][i] == entry;
        assert x == ItemOf(p, Listing(fs, p)[i]);
      }
    }
  }

  // ---------- Trails ----------

  lemma {:induction false} RouteIsTrail(fs: FileSystem, policy: Policy, p: Place, s: Spot, route: seq<nat>, q: Place)
    returns (spots: seq<Spot>)
    requires Tracks(policy, p) && StandsAt(p, s) && Descends(fs, policy, p, route, q)
    ensures IsTrail(fs, policy != SkipAll, spots) && spots[0] == s && StandsAt(q, spots[|spots| - 1])
    decreases |route|
  {
    hide Below, Listing, StandsAt, Enters, Tracks;
    if route == [] {
      spots := [s];
    } else {
      var entry := Listing(fs, p)[route[0]];
      var to := BelowIsEntered(fs, policy, p, s, entry);
      var rest := RouteIsTrail(fs, policy, Below(policy, p, entry).value, to, route[1..], q);
      spots := [s] + rest;
      OneMoreSpot(fs, policy != SkipAll, s, rest);
    }
  }

  lemma OneMoreSpot(fs: FileSystem, follow: bool, s: Spot, rest: seq<Spot>)
    requires IsTrail(fs, follow, rest) && Leads(fs, follow, s, rest[0])
    ensures IsTrail(fs, follow, [s] + rest)
  {
    hide Leads;
    forall i | 0 < i < |[s] + rest| ensures Leads(fs, follow, ([s] + rest)[i - 1], ([s] + rest)[i]) {
      assert i > 1 ==> Leads(fs, follow, rest[i - 2], rest[i - 1]);
    }
  }

  lemma {:induction false} TrailIsRoute(fs: FileSystem, policy: Policy, p: Place, spots: seq<Spot>)
    returns (route: seq<nat>, q: Place)
    requires IsTrail(fs, policy != SkipAll, spots) && Tracks(policy, p) && StandsAt(p, spots[0])
    ensures Descends(fs, policy, p, route, q) && StandsAt(q, spots[|spots| - 1])
    decreases |spots|
  {
    hide Below, Listing, StandsAt, Enters, Tracks;
    if |spots| == 1 {
      route, q := [], p;
    } else {
      assert Leads(fs, policy != SkipAll, spots[0], spots[1]);
      var entry :| entry in fs[spots[0].at] && Enters(policy != SkipAll, spots[0], entry, spots[1]);
      var next := EnteredIsBelow(fs, policy, p, spots[0], entry, spots[1]);
      var i :| 0 <= i < |Listing(fs, p)| && Listing(fs, p)[i] == entry;
      assert forall k :: 0 < k < |spots[1..]| ==> spots[1..][k - 1] == spots[k] && spots[1..][k] == spots[k + 1];
      route, q := TrailIsRoute(fs, policy, next, spots[1..]);
      assert ([i] + route)[1..] == route;
      route := [i] + route;
    }
  }

  /** The walk reports exactly the entries of the directories at the end of a trail. */
  lemma ReportedByTrail(fs: FileSystem, policy: Policy, p: Place, start: Spot, x: Item)
    requires Tracks(policy, p) && StandsAt(p, start)
    ensures x in Walk(fs, policy, p) <==>
            exists spots :: IsTrail(fs, policy != SkipAll, spots) && spots[0] == start
                            && IsReportedAt(fs, spots[|spots| - 1], x)
  {
    hide Walk, StandsAt, Leads, IsReportedAt, Tracks, Descends, Listed;
    ReportsExactly(fs, policy, p, x);
    if x in Walk(fs, policy, p) {
      var route, q :| Descends(fs, policy, p, route, q) && Listed(fs, q, x);
      var spots := RouteIsTrail(fs, policy, p, start, route, q);
      ListedIsReported(fs, q, spots[|spots| - 1], x);
    }
    if spots :| IsTrail(fs, policy != SkipAll, spots) && spots[0] == start && IsReportedAt(fs, spots[|spots| - 1], x) {
      var route, q := TrailIsRoute(fs, policy, p, spots);
      ListedIsReported(fs, q, spots[|spots| - 1], x);
    }
  }

  // ---------- Plain directories ----------

  /** Each name is a plain directory of the listing before it. */
  ghost predicate ArePlain(fs: FileSystem, at: Path, names: seq<Name>) {
    forall k :: 0 <= k < |names| ==> at + names[..k] in fs && PlainDirectory(names[k]) in fs[at + names[..k]]
  }

  predicate IsAt(p: Place, at: Path) {
    match p.ancestors case Disabled => at == p.path case Node(canonical, _) => at == canonical
  }

  ghost predicate LiesOnWay(at: Path, names: seq<Name>, target: Path) {
    exists k :: 0 <= k <= |names| && target == at + names[..k]
  }

  lemma {:induction false} PlainRoute(fs: FileSystem, policy: Policy, p: Place, at: Path, names: seq<Name>,
                                      target: Path)
    returns (route: seq<nat>, q: Place)
    requires IsAt(p, at) && ArePlain(fs, at, names)
    ensures Descends(fs, policy, p, route, q) && IsAt(q, at + names) && q.path == p.path + names
    ensures p.ancestors.Node? ==> q.ancestors.Node?
    ensures p.ancestors.Node? && target in Elements(q.ancestors) ==>
              target in Elements(p.ancestors) || LiesOnWay(at, names, target)
    decreases |names|
  {
    hide Elements;
    if names == [] {
      route, q := [], p;
      assert at + names == at && p.path + names == p.path;
    } else {
      var name, rest := names[0], names[1..];
      assert at + names[..0] == at;
      var entry := PlainDirectory(name);
      var i :| 0 <= i < |fs[at]| && fs[at][i] == entry;
      var next := Below(policy, p, entry).value;
      PlainRest(fs, at, names);
      route, q := PlainRoute(fs, policy, next, at + [name], rest, target);
      assert ([i] + route)[1..] == route;
      route := [i] + route;
      assert at + [name] + rest == at + names && p.path + [name] + rest == p.path + names;
      if p.ancestors.Node? {
        ElementsOfNode(at + [name], p.ancestors);
        WayOfRest(at, names, target);
      }
    }
  }

  lemma PlainRest(fs: FileSystem, at: Path, names: seq<Name>)
    requires names != [] && ArePlain(fs, at, names)
    ensures ArePlain(fs, at + [names[0]], names[1..])
  {
    forall k | 0 <= k < |names| - 1 ensures at + [names[0]] + names[1..][..k] == at + names[..k + 1] {
    }
  }

  lemma WayOfRest(at: Path, names: seq<Name>, target: Path)
    requires names != []
    ensures target == at + [names[0]] || LiesOnWay(at + [names[0]], names[1..], target) ==> LiesOnWay(at, names, target)
  {
    if target == at + [names[0]] {
      assert target == at + names[..1];
    } else if k :| 0 <= k <= |names[1..]| && target == at + [names[0]] + names[1..][..k] {
      assert target == at + names[..k + 1];
    }
  }

  /** Whatever the policy, every entry below plain directories is reported under the names that lead to it. */
  lemma PlainDirectoriesAreWalked(fs: FileSystem, policy: Policy, p: Place, at: Path, names: seq<Name>, entry: Entry)
    requires IsAt(p, at) && ArePlain(fs, at, names) && at + names in fs && entry in fs[at + names]
    ensures Reported(p.path + names, entry) in Walk(fs, policy, p)
  {
    hide ArePlain, Elements, Walk, Descends;
    var route, q := PlainRoute(fs, policy, p, at, names, []);
    var i :| 0 <= i < |fs[at + names]| && fs[at + names][i] == entry;
    assert Listing(fs, q)[i] == entry && ItemOf(q, entry) == Reported(p.path + names, entry);
    ReachedIsReported(fs, policy, p, route, q, Reported(p.path + names, entry));
  }

  // ---------- Links ----------

  lemma {:induction false} DescendsFurther(fs: FileSystem, policy: Policy, p: Place, route: seq<nat>, q: Place, i: nat,
                                           r: Place)
    requires Descends(fs, policy, p, route, q)
    requires i < |Listing(fs, q)| && Below(policy, q, Listing(fs, q)[i]) == Some(r)
    ensures Descends(fs, policy, p, route + [i], r)
    decreases |route|
  {
    hide Below, Listing;
    if route == [] {
      assert [] + [i] == [i] && [i][1..] == [];
    } else {
      var next := Below(policy, p, Listing(fs, p)[route[0]]).value;
      DescendsFurther(fs, policy, next, route[1..], q, i, r);
      assert (route + [i])[1..] == route[1..] + [i];
    }
  }

  /** A policy that follows links reports, below a link, the entries of the directory it leads to, unless the walk came
      through that directory. */
  lemma LinksAreFollowed(fs: FileSystem, policy: Policy, p: Place, at: Path, names: seq<Name>, name: Name, target: Path,
                         entry: Entry)
    requires policy != SkipAll && p.ancestors.Node? && IsAt(p, at) && ArePlain(fs, at, names)
    requires at + names in fs && LinkedDirectory(name, Some(target)) in fs[at + names]
    requires target !in Elements(p.ancestors) && !LiesOnWay(at, names, target)
    requires target in fs && entry in fs[target]
    ensures Reported(p.path + names + [name], entry) in Walk(fs, policy, p)
  {
    hide ArePlain, Elements, Walk, Descends, LiesOnWay;
    var route, q := PlainRoute(fs, policy, p, at, names, target);
    var link := LinkedDirectory(name, Some(target));
    var i :| 0 <= i < |fs[at + names]| && fs[at + names][i] == link;
    ContainsIsElement(q.ancestors, target);
    var r := Place(p.path + names + [name], Node(target, q.ancestors));
    assert Listing(fs, q)[i] == link && Below(policy, q, link) == Some(r);
    DescendsFurther(fs, policy, p, route, q, i, r);
    var j :| 0 <= j < |fs[target]| && fs[target][j] == entry;
    assert Listing(fs, r)[j] == entry && ItemOf(r, entry) == Reported(p.path + names + [name], entry);
    ReachedIsReported(fs, policy, p, route + [i], r, Reported(p.path + names + [name], entry));
  }

  /** A trail that follows no link goes through plain directories only. */
  lemma {:induction false} TrailIsPlain(fs: FileSystem, spots: seq<Spot>) returns (names: seq<Name>)
    requires IsTrail(fs, false, spots)
    ensures ArePlain(fs, spots[0].at, names)
    ensures spots[|spots| - 1].at == spots[0].at + names && spots[|spots| - 1].path == spots[0].path + names
  {
    var n := |spots| - 1;
    if n == 0 {
      names := [];
    } else {
      var before := TrailIsPlain(fs, spots[..n]);
      assert Leads(fs, false, spots[n - 1], spots[n]);
      var entry :| entry in fs[spots[n - 1].at] && Enters(false, spots[n - 1], entry, spots[n]);
      names := before + [entry.name];
      var at := spots[0].at;
      forall k | 0 <= k < |names| ensures at + names[..k] in fs && PlainDirectory(names[k]) in fs[at + names[..k]] {
        assert names[..k] == before[..k];
      }
    }
  }

  lemma OneNameOneEntry(fs: FileSystem, path: Path, a: Entry, b: Entry)
    requires WellNamed(fs) && path in fs && a in fs[path] && b in fs[path] && a.name == b.name
    ensures a == b
  {
    assert NamesDiffer(fs[path]);
    var i :| 0 <= i < |fs[path]| && fs[path][i] == a;
    var j :| 0 <= j < |fs[path]| && fs[path][j] == b;
  }

  /** A policy that skips links reports nothing below one. */
  lemma NothingBelowSkippedLinks(fs: FileSystem, p: Place, at: Path, names: seq<Name>, name: Name,
                                 target: Option<Path>, x: Item)
    requires IsAt(p, at) && WellNamed(fs) && at + names in fs && LinkedDirectory(name, target) in fs[at + names]
    requires x in Walk(fs, SkipAll, p)
    ensures !(p.path + names + [name] < PathOf(x))
  {
    hide Walk, WellNamed, Leads, IsReportedAt, ArePlain;
    var start := Spot(at, Elements(p.ancestors), p.path);
    ReportedByTrail(fs, SkipAll, p, start, x);
    var spots: seq<Spot> :| IsTrail(fs, false, spots) && spots[0] == start
                            && IsReportedAt(fs, spots[|spots| - 1], x);
    var taken := TrailIsPlain(fs, spots);
    var last := ReportedUnderName(fs, spots[|spots| - 1], x);
    if p.path + names + [name] < PathOf(x) {
      LongerPath(p.path, names, name, taken, last);
      PlainIsNoLink(fs, at, taken, names, name, target);
    }
  }

  lemma ReportedUnderName(fs: FileSystem, s: Spot, x: Item) returns (name: Name)
    requires IsReportedAt(fs, s, x)
    ensures PathOf(x) == s.path + [name]
  {
    var entry :| entry in fs[s.at] && x == Reported(s.path, entry);
    name := entry.name;
  }

  lemma PlainIsNoLink(fs: FileSystem, at: Path, taken: seq<Name>, names: seq<Name>, name: Name, target: Option<Path>)
    requires WellNamed(fs) && ArePlain(fs, at, taken) && |names| < |taken|
    requires taken[..|names|] == names && taken[|names|] == name && at + names in fs
    ensures LinkedDirectory(name, target) !in fs[at + names]
  {
    if LinkedDirectory(name, target) in fs[at + names] {
      OneNameOneEntry(fs, at + names, PlainDirectory(name), LinkedDirectory(name, target));
    }
  }

  lemma LongerPath(path: Path, names: seq<Name>, name: Name, taken: seq<Name>, last: Name)
    requires path + names + [name] < path + taken + [last]
    ensures |names| < |taken| && taken[..|names|] == names && taken[|names|] == name
  {
    var a, b := path + names + [name], path + taken + [last];
    forall k | 0 <= k <= |names| ensures taken[k] == if k < |names| then names[k] else name {
      assert a[|path| + k] == b[..|a|][|path| + k];
    }
  }
}
