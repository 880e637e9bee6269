/**
 The shape of a set of directory records, seen as a graph of parent links. Nothing is assumed about the
 graph: parents may be missing, and links may form cycles. The streaming resolver is specified here:
 which directories it can place, under which path, and where it breaks a cycle.
 */
module ParentGraph {
  import opened Basics
  import opened Paths
  import SortedMaps

  /** The NTFS record number of the volume root. */
  const ROOT: U64 := 5

  /** What a directory record says about its place in the tree. */
  datatype Dir = Dir(parent: Option<U64>, name: string)

  type Dirs = map<U64, Dir>

  /** Absent and self-referential parent links resolve under the root record. */
  function NormalizedParent(id: U64, parent: Option<U64>): U64 {
    match parent
    case Some(p) => if p != id then p else ROOT
    case None => ROOT
  }

  function Up(d: Dirs, id: U64): U64
    requires id in d
  {
    NormalizedParent(id, d[id].parent)
  }

  // ---------- Climbing parent links ----------

  /** From `id`, exactly `n` parent steps through directories lead to the first one that is in `tops`. */
  ghost predicate Climbs(d: Dirs, tops: set<U64>, id: U64, n: nat)
    decreases n
  {
    id in d && if n == 0 then id in tops else id !in tops && Climbs(d, tops, Up(d, id), n - 1)
  }

  ghost predicate Anchored(d: Dirs, tops: set<U64>, id: U64) {
    exists n: nat :: Climbs(d, tops, id, n)
  }

  lemma {:induction false} ClimbsUnique(d: Dirs, tops: set<U64>, id: U64, m: nat, n: nat)
    requires Climbs(d, tops, id, m) && Climbs(d, tops, id, n)
    ensures m == n
    decreases n
  {
    if m > 0 && n > 0 {
      ClimbsUnique(d, tops, Up(d, id), m - 1, n - 1);
    }
  }

  ghost function Height(d: Dirs, tops: set<U64>, id: U64): nat
    requires Anchored(d, tops, id)
  {
    var n: nat :| Climbs(d, tops, id, n);
    n
  }

  lemma AnchoredTop(d: Dirs, tops: set<U64>, id: U64)
    requires id in d && id in tops
    ensures Anchored(d, tops, id)
  {
    assert Climbs(d, tops, id, 0);
  }

  /** A directory that is not a top is anchored exactly when its parent is. */
  lemma AnchoredStep(d: Dirs, tops: set<U64>, id: U64)
    requires id in d && id !in tops
    ensures Anchored(d, tops, id) <==> Anchored(d, tops, Up(d, id))
    ensures Anchored(d, tops, id) ==> Height(d, tops, id) == Height(d, tops, Up(d, id)) + 1
  {
    if Anchored(d, tops, id) {
      var n := Height(d, tops, id);
      assert Climbs(d, tops, Up(d, id), n - 1);
      ClimbsUnique(d, tops, Up(d, id), n - 1, Height(d, tops, Up(d, id)));
    }
    if Anchored(d, tops, Up(d, id)) {
      var n := Height(d, tops, Up(d, id));
      assert Climbs(d, tops, id, n + 1);
    }
  }

  // ---------- Full paths ----------

  /** The path of an anchored directory: the root path joined with the names from its top down to it. */
  ghost function PathAt(d: Dirs, tops: set<U64>, root: string, id: U64, n: nat): string
    requires Climbs(d, tops, id, n)
    decreases n
  {
    if n == 0 then JoinMftPath(root, d[id].name)
    else JoinMftPath(PathAt(d, tops, root, Up(d, id), n - 1), d[id].name)
  }

  ghost function PathOf(d: Dirs, tops: set<U64>, root: string, id: U64): string
    requires Anchored(d, tops, id)
  {
    PathAt(d, tops, root, id, Height(d, tops, id))
  }

  lemma PathOfTop(d: Dirs, tops: set<U64>, root: string, id: U64)
    requires id in d && id in tops
    ensures Anchored(d, tops, id) && PathOf(d, tops, root, id) == JoinMftPath(root, d[id].name)
  {
    AnchoredTop(d, tops, id);
    ClimbsUnique(d, tops, id, 0, Height(d, tops, id));
  }

  lemma PathOfStep(d: Dirs, tops: set<U64>, root: string, id: U64)
    requires id in d && id !in tops && Anchored(d, tops, Up(d, id))
    ensures Anchored(d, tops, id)
    ensures PathOf(d, tops, root, id) == JoinMftPath(PathOf(d, tops, root, Up(d, id)), d[id].name)
  {
    AnchoredStep(d, tops, id);
  }

  /** Two graphs that agree on everything a climb looks at give it the same length and the same path. */
  lemma {:induction false} ClimbTransfers(d: Dirs, tops: set<U64>, d': Dirs, tops': set<U64>, inside: set<U64>,
                                          root: string, id: U64, n: nat)
    requires forall x <- inside :: x in d && (x !in tops ==> Up(d, x) in inside)
    requires forall x <- inside :: x in d' && Up(d', x) == Up(d, x) && d'[x].name == d[x].name
    requires forall x <- inside :: x in tops <==> x in tops'
    requires id in inside && Climbs(d, tops, id, n)
    ensures Climbs(d', tops', id, n)
    ensures PathAt(d', tops', root, id, n) == PathAt(d, tops, root, id, n)
    decreases n
  {
    if n > 0 {
      ClimbTransfers(d, tops, d', tops', inside, root, Up(d, id), n - 1);
    }
  }

  lemma PathTransfers(d: Dirs, tops: set<U64>, d': Dirs, tops': set<U64>, inside: set<U64>, root: string, id: U64)
    requires forall x <- inside :: x in d && (x !in tops ==> Up(d, x) in inside)
    requires forall x <- inside :: x in d' && Up(d', x) == Up(d, x) && d'[x].name == d[x].name
    requires forall x <- inside :: x in tops <==> x in tops'
    requires id in inside && Anchored(d, tops, id)
    ensures Anchored(d', tops', id) && PathOf(d', tops', root, id) == PathOf(d, tops, root, id)
  {
    var n := Height(d, tops, id);
    ClimbTransfers(d, tops, d', tops', inside, root, id, n);
    ClimbsUnique(d', tops', id, n, Height(d', tops', id));
  }

  // ---------- Which directories a set of stop keys resolves ----------

  /** The directories whose parent key is a stop. */
  ghost function Below(d: Dirs, stops: set<U64>): set<U64> {
    set id | id in d && Up(d, id) in stops
  }

  ghost predicate Reached(d: Dirs, stops: set<U64>, id: U64) {
    Anchored(d, Below(d, stops), id)
  }

  ghost function Waiting(d: Dirs, stops: set<U64>): set<U64> {
    set id | id in d && !Reached(d, stops, id)
  }

  /** The parent keys under which unresolved directories are filed. */
  ghost function Keys(d: Dirs, stops: set<U64>): set<U64> {
    set id | id in Waiting(d, stops) :: Up(d, id)
  }

  /** The key of an unresolved directory is neither a stop nor a resolved directory. */
  lemma KeysAreUnresolved(d: Dirs, stops: set<U64>, key: U64)
    requires key in Keys(d, stops)
    ensures key !in stops && !Reached(d, stops, key)
  {
    var id :| id in Waiting(d, stops) && Up(d, id) == key;
    if key in stops {
      AnchoredTop(d, Below(d, stops), id);
    } else {
      AnchoredStep(d, Below(d, stops), id);
    }
  }

  lemma {:induction false} MoreStopsClimb(d: Dirs, stops: set<U64>, more: set<U64>, id: U64, n: nat)
    requires stops <= more && Climbs(d, Below(d, stops), id, n)
    ensures Reached(d, more, id)
    decreases n
  {
    if id in Below(d, more) {
      AnchoredTop(d, Below(d, more), id);
    } else {
      MoreStopsClimb(d, stops, more, Up(d, id), n - 1);
      AnchoredStep(d, Below(d, more), id);
    }
  }

  lemma MoreStopsReachMore(d: Dirs, stops: set<U64>, more: set<U64>)
    requires stops <= more
    ensures Waiting(d, more) <= Waiting(d, stops) && Keys(d, more) <= Keys(d, stops)
    ensures forall id :: Reached(d, stops, id) ==> Reached(d, more, id)
  {
    forall id | Reached(d, stops, id) ensures Reached(d, more, id) {
      MoreStopsClimb(d, stops, more, id, Height(d, Below(d, stops), id));
    }
  }

  // ---------- The stops the final pass forces ----------

  /** The keys one round of the final pass forces: every key that is not itself waiting, else the least key. */
  ghost function Stuck(d: Dirs, stops: set<U64>): set<U64>
    requires Waiting(d, stops) != {}
  {
    var missing := Keys(d, stops) - Waiting(d, stops);
    if missing != {} then missing
    else
      KeysNonEmpty(d, stops);
      {SortedMaps.Least(Keys(d, stops))}
  }

  lemma KeysNonEmpty(d: Dirs, stops: set<U64>)
    requires Waiting(d, stops) != {}
    ensures Keys(d, stops) != {}
  {
    var id :| id in Waiting(d, stops);
    assert Up(d, id) in Keys(d, stops);
  }

  lemma StuckAreKeys(d: Dirs, stops: set<U64>)
    requires Waiting(d, stops) != {}
    ensures Stuck(d, stops) != {} && Stuck(d, stops) <= Keys(d, stops)
  {
    KeysNonEmpty(d, stops);
  }

  /** Forcing a stuck key resolves at least one more directory, on every parent graph. */
  lemma StuckProgress(d: Dirs, stops: set<U64>)
    requires Waiting(d, stops) != {}
    ensures Waiting(d, stops + Stuck(d, stops)) < Waiting(d, stops)
  {
    StuckAreKeys(d, stops);
    var more := stops + Stuck(d, stops);
    MoreStopsReachMore(d, stops, more);
    var key :| key in Stuck(d, stops);
    var id :| id in Waiting(d, stops) && Up(d, id) == key;
    AnchoredTop(d, Below(d, more), id);
    assert id !in Waiting(d, more);
  }

  /** Every key at which the final pass starts, from the stops it has already. */
  ghost function FinalStops(d: Dirs, stops: set<U64>): (all: set<U64>)
    ensures stops <= all && Waiting(d, all) == {}
    decreases |Waiting(d, stops)|
  {
    if Waiting(d, stops) == {} then stops
    else
      StuckProgress(d, stops);
      SubsetCard(Waiting(d, stops + Stuck(d, stops)), Waiting(d, stops));
      FinalStops(d, stops + Stuck(d, stops))
  }

  lemma SubsetCard(a: set<U64>, b: set<U64>)
    requires a < b
    ensures |a| < |b|
  {
    assert b == a + (b - a) && |b| == |a| + |b - a|;
    assert b - a != {};
  }

  /** A round that forces the stuck keys leaves fewer directories waiting and the same keys in all. */
  lemma RoundGoesOn(d: Dirs, stops: set<U64>)
    requires Waiting(d, stops) != {}
    ensures |Waiting(d, stops + Stuck(d, stops))| < |Waiting(d, stops)|
    ensures FinalStops(d, stops + Stuck(d, stops)) == FinalStops(d, stops)
  {
    StuckProgress(d, stops);
    SubsetCard(Waiting(d, stops + Stuck(d, stops)), Waiting(d, stops));
  }

  /** Keys forced later are keys now: once resolved, a directory is never forced. */
  lemma {:induction false} LaterStopsAreKeys(d: Dirs, stops: set<U64>)
    ensures FinalStops(d, stops) - stops <= Keys(d, stops)
    decreases |Waiting(d, stops)|
  {
    if Waiting(d, stops) != {} {
      StuckProgress(d, stops);
      StuckAreKeys(d, stops);
      SubsetCard(Waiting(d, stops + Stuck(d, stops)), Waiting(d, stops));
      MoreStopsReachMore(d, stops, stops + Stuck(d, stops));
      LaterStopsAreKeys(d, stops + Stuck(d, stops));
    }
  }
}
