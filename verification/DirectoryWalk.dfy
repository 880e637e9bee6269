/**
 Walking a file system whose directories may hold links to any other directory. A link is followed only when its
 target is not among the directories through which the walk came.
 */
module DirectoryWalk {
  import opened Basics

  type Name = string

  type Path = seq<Name>

  /** A link is a directory that is a reparse point, with the directory it resolves to. */
  datatype Entry =
    | FileEntry(name: Name, size: nat)
    | PlainDirectory(name: Name)
    | LinkedDirectory(name: Name, target: Option<Path>)

  /** The directories that can be listed, by their resolved paths. */
  type FileSystem = map<Path, seq<Entry>>

  datatype Policy = SkipAll | FollowMountPointsAndJunctions | FollowAll

  /** The resolved directories on the way from the root; not kept when no link is ever followed. */
  datatype Chain = Disabled | Node(canonical: Path, parent: Chain)

  predicate Contains(chain: Chain, target: Path) {
    match chain
    case Disabled => false
    case Node(canonical, parent) => canonical == target || Contains(parent, target)
  }

  datatype Decision = Follow(chain: Chain) | SkippedByPolicy | SkippedCycle | SkippedUnresolvable

  /** Directory links are mount points or junctions, which both following policies follow. */
  function EvaluateReparseDescent(entry: Entry, policy: Policy, ancestors: Chain): Decision
    requires !entry.FileEntry?
  {
    match entry
    case PlainDirectory(name) =>
      (match ancestors
       case Disabled => Follow(Disabled)
       case Node(canonical, _) => Follow(Node(canonical + [name], ancestors)))
    case LinkedDirectory(_, target) =>
      if policy == SkipAll then SkippedByPolicy
      else
        match target
        case None => SkippedUnresolvable
        case Some(resolved) => if Contains(ancestors, resolved) then SkippedCycle else Follow(Node(resolved, ancestors))
  }

  // ---------- Where a walk stands ----------

  datatype Place = Place(path: Path, ancestors: Chain)

  function Location(p: Place): Path {
    match p.ancestors case Node(canonical, _) => canonical case Disabled => p.path
  }

  function Listing(fs: FileSystem, p: Place): seq<Entry> {
    if Location(p) in fs then fs[Location(p)] else []
  }

  /** The place below an entry, if the walk descends into it. */
  function Below(policy: Policy, p: Place, entry: Entry): Option<Place> {
    if entry.FileEntry? then None
    else
      match EvaluateReparseDescent(entry, policy, p.ancestors)
      case Follow(chain) => Some(Place(p.path + [entry.name], chain))
      case _ => None
  }

  // ---------- Every walk ends ----------

  function Elements(chain: Chain): set<Path> {
    match chain case Disabled => {} case Node(canonical, parent) => {canonical} + Elements(parent)
  }

  lemma {:induction false} ContainsIsElement(chain: Chain, target: Path)
    ensures Contains(chain, target) <==> target in Elements(chain)
  {
    if chain.Node? {
      ContainsIsElement(chain.parent, target);
    }
  }

  /** How many listed directories the walk did not come through. */
  function Outside(fs: FileSystem, p: Place): nat {
    |fs.Keys - Elements(p.ancestors)|
  }

  function Deepest(paths: set<Path>): (n: nat)
    ensures forall p <- paths :: |p| <= n
  {
    if paths == {} then 0
    else
      LongestExists(paths);
      var p :| p in paths && forall q <- paths :: |q| <= |p|;
      |p|
  }

  lemma {:induction false} LongestExists(paths: set<Path>)
    requires paths != {}
    ensures exists p :: p in paths && forall q <- paths :: |q| <= |p|
    decreases |paths|
  {
    var p :| p in paths;
    var others := paths - {p};
    if others != {} {
      LongestExists(others);
      var longest :| longest in others && forall q <- others :: |q| <= |longest|;
      var best := if |p| > |longest| then p else longest;
      assert best in paths && forall q <- paths :: q == p || q in others;
    } else {
      assert paths == others + {p};
    }
  }

  /** How far the tree of plain directories can still go down. */
  function Height(fs: FileSystem, p: Place): nat {
    if Location(p) in fs then Deepest(fs.Keys) + 1 - |Location(p)| else 0
  }

  ghost predicate Smaller(fs: FileSystem, a: Place, b: Place) {
    Outside(fs, a) < Outside(fs, b) || (Outside(fs, a) == Outside(fs, b) && Height(fs, a) < Height(fs, b))
  }

  lemma OneFewer<T>(all: set<T>, inside: set<T>, x: T)
    ensures |all - (inside + {x})| == |all - inside| - if x in all && x !in inside then 1 else 0
  {
    if x in all && x !in inside {
      assert all - (inside + {x}) == (all - inside) - {x};
    } else {
      assert all - (inside + {x}) == all - inside;
    }
  }

  /** A link leads to a listed directory outside the chain, or to none; a plain directory lies deeper besides. */
  lemma NodeIsSmaller(fs: FileSystem, p: Place, canonical: Path, name: Name)
    requires canonical in fs ==> canonical !in Elements(p.ancestors) || canonical == Location(p) + [name]
    requires Location(p) in fs
    ensures Smaller(fs, Place(p.path + [name], Node(canonical, p.ancestors)), p)
  {
    OneFewer(fs.Keys, Elements(p.ancestors), canonical);
    hide Elements;
    var q := Place(p.path + [name], Node(canonical, p.ancestors));
    assert Elements(q.ancestors) == Elements(p.ancestors) + {canonical} by {
      ElementsOfNode(canonical, p.ancestors);
    }
    assert fs.Keys - Elements(q.ancestors) == fs.Keys - (Elements(p.ancestors) + {canonical});
  }

  lemma ElementsOfNode(canonical: Path, parent: Chain)
    ensures Elements(Node(canonical, parent)) == Elements(parent) + {canonical}
  {
  }

  /** Each descent leaves fewer directories outside the chain, or as many and less height below. */
  lemma DescentIsSmaller(fs: FileSystem, policy: Policy, p: Place, entry: Entry)
    requires entry in Listing(fs, p) && Below(policy, p, entry).Some?
    ensures Smaller(fs, Below(policy, p, entry).value, p)
  {
    var q := Below(policy, p, entry).value;
    if q.ancestors.Node? {
      ContainsIsElement(p.ancestors, q.ancestors.canonical);
      hide Contains, Elements, Smaller, Outside, Height;
      assert Location(p) in fs;
      NodeIsSmaller(fs, p, q.ancestors.canonical, entry.name);
    }
  }

  // ---------- The walk of one thread ----------

  datatype Item = FileAt(parent: Path, name: Name, size: nat) | DirectoryAt(path: Path)

  function ItemOf(p: Place, entry: Entry): Item {
    if entry.FileEntry? then FileAt(p.path, entry.name, entry.size) else DirectoryAt(p.path + [entry.name])
  }

  /** What is reported from the `i`th entry of a directory on. */
  function WalkFrom(fs: FileSystem, policy: Policy, p: Place, i: nat): seq<Item>
    requires i <= |Listing(fs, p)|
    decreases Outside(fs, p), Height(fs, p), |Listing(fs, p)| - i
  {
    if i == |Listing(fs, p)| then []
    else [ItemOf(p, Listing(fs, p)[i])] + WalkEntry(fs, policy, p, i) + WalkFrom(fs, policy, p, i + 1)
  }

  /** What is reported below the `i`th entry. */
  function WalkEntry(fs: FileSystem, policy: Policy, p: Place, i: nat): seq<Item>
    requires i < |Listing(fs, p)|
    decreases Outside(fs, p), Height(fs, p), 0
  {
    match Below(policy, p, Listing(fs, p)[i])
    case None => []
    case Some(q) => DescentIsSmaller(fs, policy, p, Listing(fs, p)[i]); WalkFrom(fs, policy, q, 0)
  }

  function Walk(fs: FileSystem, policy: Policy, p: Place): seq<Item> {
    WalkFrom(fs, policy, p, 0)
  }

  /** What is reported from an entry on: the entry, what is below it, what comes after it. */
  lemma WalkUnfolds(fs: FileSystem, policy: Policy, p: Place, i: nat)
    requires i < |Listing(fs, p)|
    ensures WalkFrom(fs, policy, p, i) ==
            [ItemOf(p, Listing(fs, p)[i])] + WalkEntry(fs, policy, p, i) + WalkFrom(fs, policy, p, i + 1)
    ensures WalkEntry(fs, policy, p, i) ==
            match Below(policy, p, Listing(fs, p)[i]) case None => [] case Some(q) => WalkFrom(fs, policy, q, 0)
  {
  }

  /** The recursive walk ends on every file system, whatever its links; what it reports is the subject of WalkLaws. */
  method WalkDirectoryTree(fs: FileSystem, policy: Policy, p: Place) returns (events: seq<Item>)
    ensures events == Walk(fs, policy, p)
    decreases Outside(fs, p), Height(fs, p)
  {
    hide Outside, Height, WalkFrom, WalkEntry;
    var entries := Listing(fs, p);
    events := [];
    for i := 0 to |entries|
      invariant events + WalkFrom(fs, policy, p, i) == Walk(fs, policy, p)
    {
      var entry := entries[i];
      WalkUnfolds(fs, policy, p, i);
      ghost var rest, before := WalkFrom(fs, policy, p, i + 1), events;
      ghost var below := WalkEntry(fs, policy, p, i);
      Associates([ItemOf(p, entry)], below, rest);
      Associates(before, [ItemOf(p, entry)], below + rest);
      events := events + [ItemOf(p, entry)];
      if !entry.FileEntry? {
        match EvaluateReparseDescent(entry, policy, p.ancestors) {
          case Follow(chain) =>
            DescentIsSmaller(fs, policy, p, entry);
            var inner := WalkDirectoryTree(fs, policy, Place(p.path + [entry.name], chain));
            Associates(events, inner, rest);
            events := events + inner;
          case SkippedByPolicy => assert [] + rest == rest;
          case SkippedCycle => assert [] + rest == rest;
          case SkippedUnresolvable => assert [] + rest == rest;
        }
      } else {
        assert [] + rest == rest;
      }
    }
    WalkIsOver(fs, policy, p);
    assert events + [] == events;
  }

  lemma WalkIsOver(fs: FileSystem, policy: Policy, p: Place)
    ensures WalkFrom(fs, policy, p, |Listing(fs, p)|) == []
  {
  }
}
