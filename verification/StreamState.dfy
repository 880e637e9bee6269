/**
 The invariants of the streaming resolver, stated over the values of its fields, and the lemmas that keep
 them: which directories are resolved, which wait in a bucket, and what has been announced so far.
 */
module StreamState {
  import opened Basics
  import opened Paths
  import opened ParentGraph
  import opened MftRecords
  import opened ArrivalOrder

  datatype DirectoryFound = DirectoryFound(id: U64, parent: Option<U64>, name: string, fullPath: string)

  type Buckets = map<U64, seq<Entry>>

  // ---------- Resolved paths ----------

  ghost predicate PathsOk(d: Dirs, stops: set<U64>, tops: set<U64>, root: string, resolved: map<U64, string>) {
    && ROOT in resolved && resolved[ROOT] == root
    && forall id <- resolved :: id != ROOT ==>
         id in d && Reached(d, stops, id) && Anchored(d, tops, id) && resolved[id] == PathOf(d, tops, root, id)
  }

  // ---------- Buckets ----------

  ghost predicate IsEntryOf(d: Dirs, e: Entry) {
    e.fileId in d && d[e.fileId] == Dir(e.parent, e.name)
  }

  ghost predicate BucketOk(d: Dirs, arrival: Order, resolved: map<U64, string>, key: U64, bucket: seq<Entry>)
    requires d.Keys <= arrival.Keys
  {
    && bucket != []
    && (forall e <- bucket :: IsEntryOf(d, e) && Up(d, e.fileId) == key && e.fileId !in resolved)
    && (forall i, j :: 0 <= i < j < |bucket| ==> arrival[bucket[i].fileId] < arrival[bucket[j].fileId])
  }

  /** Bucket keys are never stops or resolved directories, and each bucket holds its children in arrival order. */
  ghost predicate BucketsOk(d: Dirs, arrival: Order, stops: set<U64>, resolved: map<U64, string>, orphans: Buckets)
    requires d.Keys <= arrival.Keys
  {
    forall key <- orphans :: key !in stops && key !in resolved && BucketOk(d, arrival, resolved, key, orphans[key])
  }

  ghost predicate Holds(entries: seq<Entry>, id: U64) {
    exists i :: 0 <= i < |entries| && entries[i].fileId == id
  }

  ghost predicate Filed(d: Dirs, orphans: Buckets, id: U64) {
    id in d && Up(d, id) in orphans && Holds(orphans[Up(d, id)], id)
  }

  ghost predicate Accounted(d: Dirs, resolved: map<U64, string>, orphans: Buckets, cascade: seq<Entry>) {
    forall id <- d :: id in resolved || Filed(d, orphans, id) || Holds(cascade, id)
  }

  // ---------- Announcements ----------

  ghost predicate EventOk(d: Dirs, root: string, resolved: map<U64, string>, e: DirectoryFound) {
    && e.id in resolved && e.fullPath == resolved[e.id]
    && (if e.id == ROOT then e.parent == None && e.name == root
        else e.id in d && e.parent == d[e.id].parent && e.name == d[e.id].name)
  }

  ghost predicate Announced(events: seq<DirectoryFound>, id: U64) {
    exists i :: 0 <= i < |events| && events[i].id == id
  }

  /** The parent of the `i`-th announced directory was announced before it, unless its path starts at the root path. */
  ghost predicate FollowsParent(d: Dirs, tops: set<U64>, events: seq<DirectoryFound>, i: nat)
    requires i < |events|
  {
    var id := events[i].id;
    id != ROOT && id in d && (id in tops ==> Up(d, id) == ROOT) ==> Announced(events[..i], Up(d, id))
  }

  ghost predicate EventsOk(d: Dirs, tops: set<U64>, root: string, resolved: map<U64, string>,
                           events: seq<DirectoryFound>) {
    && (forall i :: 0 <= i < |events| ==> EventOk(d, root, resolved, events[i]))
    && (forall i, j :: 0 <= i < j < |events| ==> events[i].id != events[j].id)
    && (forall id <- resolved :: Announced(events, id))
    && (forall i :: 0 <= i < |events| ==> FollowsParent(d, tops, events, i))
  }

  // ---------- The settled state between calls ----------

  ghost predicate Settled(d: Dirs, arrival: Order, stops: set<U64>, tops: set<U64>, root: string,
                          resolved: map<U64, string>, orphans: Buckets, events: seq<DirectoryFound>) {
    && d.Keys <= arrival.Keys && ROOT !in d && ROOT in stops
    && PathsOk(d, stops, tops, root, resolved)
    && BucketsOk(d, arrival, stops, resolved, orphans)
    && Accounted(d, resolved, orphans, [])
    && EventsOk(d, tops, root, resolved, events)
  }

  /** In a settled state the resolved directories are exactly those the stops reach. */
  lemma ResolvedAreReached(d: Dirs, arrival: Order, stops: set<U64>, tops: set<U64>, root: string,
                           resolved: map<U64, string>, orphans: Buckets, events: seq<DirectoryFound>)
    requires Settled(d, arrival, stops, tops, root, resolved, orphans, events)
    ensures resolved.Keys == (d.Keys - Waiting(d, stops)) + {ROOT}
    ensures orphans.Keys == Keys(d, stops)
  {
    forall id | id in d && Reached(d, stops, id) ensures id in resolved {
      ReachedIsResolved(d, arrival, stops, resolved, orphans, id, Height(d, Below(d, stops), id));
    }
    forall id | id in Waiting(d, stops) ensures Up(d, id) in orphans {
      assert Filed(d, orphans, id);
    }
    forall key | key in orphans ensures key in Keys(d, stops) {
      var e := orphans[key][0];
      assert e in orphans[key];
      assert e.fileId in Waiting(d, stops);
    }
  }

  lemma {:induction false} ReachedIsResolved(d: Dirs, arrival: Order, stops: set<U64>, resolved: map<U64, string>,
                                             orphans: Buckets, id: U64, n: nat)
    requires d.Keys <= arrival.Keys && BucketsOk(d, arrival, stops, resolved, orphans)
    requires Accounted(d, resolved, orphans, []) && Climbs(d, Below(d, stops), id, n)
    ensures id in resolved
    decreases n
  {
    if n > 0 {
      ReachedIsResolved(d, arrival, stops, resolved, orphans, Up(d, id), n - 1);
    }
  }

  // ---------- Forcing a key ----------

  /** The parent chain of a cyclic key, from the child of the key on the cycle down to the key. */
  ghost predicate IsCycleChain(d: Dirs, stops: set<U64>, key: U64, chain: seq<U64>) {
    && 2 <= |chain| && chain[|chain| - 1] == key
    && (forall x <- chain :: x in d)
    && Up(d, chain[0]) == key
    && (forall i :: 0 <= i < |chain| - 1 ==> Up(d, chain[i + 1]) == chain[i] && chain[i] !in stops)
  }

  ghost function ChainDown(d: Dirs, tops: set<U64>, id: U64, n: nat): (chain: seq<U64>)
    requires Climbs(d, tops, id, n)
    ensures |chain| == n + 1 && chain[n] == id && chain[0] == TopAt(d, tops, id, n)
    ensures forall i :: 0 <= i <= n ==> chain[i] in d
    ensures forall i :: 0 < i <= n ==> Up(d, chain[i]) == chain[i - 1] && chain[i] !in tops
    decreases n
  {
    if n == 0 then [id] else ChainDown(d, tops, Up(d, id), n - 1) + [id]
  }

  lemma {:induction false} ChainIsWaiting(d: Dirs, tops: set<U64>, stops: set<U64>, id: U64, n: nat)
    requires Climbs(d, tops, id, n) && !Reached(d, stops, id)
    ensures forall x <- ChainDown(d, tops, id, n) :: !Reached(d, stops, x)
    ensures forall i :: 0 <= i < n ==> ChainDown(d, tops, id, n)[i] !in stops
    decreases n
  {
    if n > 0 {
      assert id !in Below(d, stops) by {
        if id in Below(d, stops) { AnchoredTop(d, Below(d, stops), id); }
      }
      AnchoredStep(d, Below(d, stops), id);
      ChainIsWaiting(d, tops, stops, Up(d, id), n - 1);
    }
  }

  /** A key that is not on a cycle cannot be resolved by forcing it. */
  lemma ForcingAcyclicKey(d: Dirs, stops: set<U64>, key: U64)
    requires !Reached(d, stops, key) && !Cyclic(d, key)
    ensures !Reached(d, stops + {key}, key)
  {
    var tops := Below(d, stops + {key});
    if Anchored(d, tops, key) {
      var n := Height(d, tops, key);
      var top := TopAt(d, tops, key, n);
      var before := if Up(d, top) in stops then Below(d, stops) else Below(d, {key});
      AnchoredTop(d, before, top);
      ClimbOnward(d, tops, before, key, n);
    }
  }

  /** Below resolved directories that are no stops, no path starts afresh. */
  ghost predicate TopsOk(d: Dirs, stops: set<U64>, tops: set<U64>) {
    && (forall id <- d :: Up(d, id) == ROOT ==> id in tops)
    && (forall id <- d :: Up(d, id) !in stops && Reached(d, stops, Up(d, id)) ==> id !in tops)
  }

  // ---------- Draining the cascade ----------

  /** Where a drain starts: the children `base` of `key`, which is resolved already or has just been forced. */
  datatype Start = Start(key: U64, forced: bool, base: seq<Entry>, chain: seq<U64>, turn: nat)

  ghost predicate StartOk(d: Dirs, stops: set<U64>, tops: set<U64>, s: Start) {
    && (forall e <- s.base :: IsEntryOf(d, e) && Up(d, e.fileId) == s.key)
    && (forall i :: 0 <= i < |s.base| ==>
          (s.base[i].fileId in tops <==> if s.forced then i >= s.turn else s.key == ROOT))
    && (s.forced ==>
          && s.key != ROOT && s.key in stops
          && if s.chain == [] then s.turn == 0 && !Reached(d, stops, s.key)
             else IsCycleChain(d, stops, s.key, s.chain) && s.turn < |s.base| && s.base[s.turn].fileId == s.chain[0])
  }

  /**
   Progress of the key with `left` of its children still at the bottom of the worklist. A key on a cycle is
   brought out exactly between its cycle child and the sibling below it, because the worklist is a stack.
   */
  ghost predicate KeyState(s: Start, resolved: map<U64, string>, cascade: seq<Entry>, left: nat)
    requires left <= |cascade|
  {
    if !s.forced then s.key in resolved
    else s.chain != [] ==>
      && (forall i :: 0 <= i < |s.chain| - 1 && s.chain[i + 1] in resolved ==> s.chain[i] in resolved)
      && (s.chain[0] in resolved <==> left <= s.turn)
      && (left <= s.turn ==> s.chain[|s.chain| - 1] in resolved || exists x <- s.chain :: Holds(cascade[left..], x))
  }

  ghost predicate WorklistOk(d: Dirs, stops: set<U64>, s: Start, resolved: map<U64, string>,
                             cascade: seq<Entry>, left: nat) {
    && left <= |s.base| && left <= |cascade| && cascade[..left] == s.base[..left]
    && (forall i :: left <= i < |cascade| ==>
          && IsEntryOf(d, cascade[i])
          && Up(d, cascade[i].fileId) in resolved && Up(d, cascade[i].fileId) !in stops)
    && (forall e <- cascade :: e.fileId !in resolved)
    && (forall i, j :: 0 <= i < j < |cascade| ==> cascade[i].fileId != cascade[j].fileId)
    && KeyState(s, resolved, cascade, left)
  }

  ghost predicate Draining(d: Dirs, arrival: Order, stops: set<U64>, tops: set<U64>, root: string, s: Start,
                           resolved: map<U64, string>, orphans: Buckets, cascade: seq<Entry>, left: nat,
                           events: seq<DirectoryFound>) {
    && d.Keys <= arrival.Keys && ROOT !in d && ROOT in stops && TopsOk(d, stops, tops) && StartOk(d, stops, tops, s)
    && PathsOk(d, stops, tops, root, resolved)
    && s.key !in orphans && BucketsOk(d, arrival, stops, resolved, orphans)
    && Accounted(d, resolved, orphans, cascade)
    && WorklistOk(d, stops, s, resolved, cascade, left)
    && EventsOk(d, tops, root, resolved, events)
  }

  /** When a child of the key is popped, it is a top exactly if the key is not resolved at that moment. */
  lemma PoppedChildIsTop(d: Dirs, stops: set<U64>, tops: set<U64>, root: string, s: Start,
                         resolved: map<U64, string>, cascade: seq<Entry>, left: nat)
    requires StartOk(d, stops, tops, s) && WorklistOk(d, stops, s, resolved, cascade, left)
    requires PathsOk(d, stops, tops, root, resolved)
    requires 0 < left == |cascade|
    ensures cascade[left - 1].fileId in tops <==> s.key == ROOT || s.key !in resolved
  {
    assert cascade[left - 1] == cascade[..left][left - 1] == s.base[left - 1];
    if s.forced && s.chain != [] && left > s.turn {
      ChainUnresolved(s, resolved, |s.chain| - 1);
    }
  }

  lemma {:induction false} ChainUnresolved(s: Start, resolved: map<U64, string>, i: nat)
    requires i < |s.chain| && s.chain[0] !in resolved
    requires forall i :: 0 <= i < |s.chain| - 1 && s.chain[i + 1] in resolved ==> s.chain[i] in resolved
    ensures s.chain[i] !in resolved
  {
    if i > 0 {
      ChainUnresolved(s, resolved, i - 1);
    }
  }

  /** The path under which the drain announces an entry. */
  function AnnouncedPath(root: string, resolved: map<U64, string>, e: Entry): string {
    var parent := NormalizedParent(e.fileId, e.parent);
    JoinMftPath(if parent in resolved then resolved[parent] else root, e.name)
  }

  lemma StepPath(d: Dirs, stops: set<U64>, tops: set<U64>, root: string, s: Start,
                 resolved: map<U64, string>, cascade: seq<Entry>, left: nat)
    requires ROOT !in d && ROOT in stops && TopsOk(d, stops, tops) && StartOk(d, stops, tops, s)
    requires PathsOk(d, stops, tops, root, resolved) && WorklistOk(d, stops, s, resolved, cascade, left)
             && cascade != []
    ensures var e := cascade[|cascade| - 1];
            && IsEntryOf(d, e) && e.fileId !in resolved
            && PathsOk(d, stops, tops, root, resolved[e.fileId := AnnouncedPath(root, resolved, e)])
            && (e.fileId !in tops || Up(d, e.fileId) == ROOT ==> Up(d, e.fileId) in resolved)
  {
    var e := cascade[|cascade| - 1];
    var id := e.fileId;
    if |cascade| == left {
      assert e == cascade[..left][left - 1] == s.base[left - 1];
      PoppedChildIsTop(d, stops, tops, root, s, resolved, cascade, left);
    }
    StepReached(d, stops, tops, root, resolved, e);
  }

  lemma StepReached(d: Dirs, stops: set<U64>, tops: set<U64>, root: string, resolved: map<U64, string>, e: Entry)
    requires ROOT !in d && ROOT in stops && PathsOk(d, stops, tops, root, resolved)
    requires IsEntryOf(d, e) && e.fileId !in resolved
    requires var up := Up(d, e.fileId);
             && (up in stops || up in resolved)
             && (e.fileId in tops ==> up == ROOT || up !in resolved)
             && (e.fileId !in tops ==> up in resolved && up != ROOT)
    ensures PathsOk(d, stops, tops, root, resolved[e.fileId := AnnouncedPath(root, resolved, e)])
  {
    var id := e.fileId;
    if Up(d, id) in stops {
      AnchoredTop(d, Below(d, stops), id);
    } else {
      AnchoredStep(d, Below(d, stops), id);
    }
    if id in tops {
      PathOfTop(d, tops, root, id);
    } else {
      PathOfStep(d, tops, root, id);
    }
  }

  ghost function Popped(orphans: Buckets, cascade: seq<Entry>): seq<Entry>
    requires cascade != []
  {
    var id := cascade[|cascade| - 1].fileId;
    cascade[..|cascade| - 1] + if id in orphans then orphans[id] else []
  }

  lemma StepBuckets(d: Dirs, arrival: Order, stops: set<U64>, tops: set<U64>, root: string, s: Start,
                    resolved: map<U64, string>, orphans: Buckets, cascade: seq<Entry>, left: nat, path: string)
    requires d.Keys <= arrival.Keys && BucketsOk(d, arrival, stops, resolved, orphans) && s.key !in orphans
    requires StartOk(d, stops, tops, s) && WorklistOk(d, stops, s, resolved, cascade, left) && cascade != []
    ensures var id := cascade[|cascade| - 1].fileId;
            BucketsOk(d, arrival, stops, resolved[id := path], orphans - {id})
  {
    hide StartOk, WorklistOk;
    PoppedIsNotFiled(d, arrival, stops, tops, s, resolved, orphans, cascade, left);
  }

  lemma StepAccounted(d: Dirs, resolved: map<U64, string>, orphans: Buckets, cascade: seq<Entry>, path: string)
    requires Accounted(d, resolved, orphans, cascade) && cascade != []
    ensures var id := cascade[|cascade| - 1].fileId;
            Accounted(d, resolved[id := path], orphans - {id}, Popped(orphans, cascade))
  {
    var n := |cascade| - 1;
    var id := cascade[n].fileId;
    var cascade' := Popped(orphans, cascade);
    forall x | x in d ensures x in resolved[id := path] || Filed(d, orphans - {id}, x) || Holds(cascade', x) {
      if Filed(d, orphans, x) && Up(d, x) == id {
        var i :| 0 <= i < |orphans[id]| && orphans[id][i].fileId == x;
        assert cascade'[n + i].fileId == x;
      } else if Holds(cascade, x) && x != id {
        var i :| 0 <= i < |cascade| && cascade[i].fileId == x;
        assert cascade'[i].fileId == x;
      }
    }
  }

  lemma PoppedIsNotFiled(d: Dirs, arrival: Order, stops: set<U64>, tops: set<U64>, s: Start,
                         resolved: map<U64, string>, orphans: Buckets, cascade: seq<Entry>, left: nat)
    requires d.Keys <= arrival.Keys && BucketsOk(d, arrival, stops, resolved, orphans) && s.key !in orphans
    requires StartOk(d, stops, tops, s) && WorklistOk(d, stops, s, resolved, cascade, left) && cascade != []
    ensures forall key <- orphans, e <- orphans[key] :: e.fileId != cascade[|cascade| - 1].fileId
  {
    var n := |cascade| - 1;
    assert cascade[n].fileId in d && Up(d, cascade[n].fileId) !in orphans by {
      if n < left {
        assert cascade[n] == cascade[..left][n] == s.base[n];
      }
    }
    forall key, e | key in orphans && e in orphans[key] ensures e.fileId != cascade[n].fileId {
      assert Up(d, e.fileId) in orphans;
    }
  }

  /** The number of children of the key that are left after a pop. */
  function LeftAfter(left: nat, size: nat): nat
    requires left <= size && 0 < size
  {
    if left == size then left - 1 else left
  }

  /** No entry on the worklist waits under an unresolved directory that is not the key. */
  lemma NotUnder(d: Dirs, stops: set<U64>, tops: set<U64>, s: Start, resolved: map<U64, string>,
                 cascade: seq<Entry>, left: nat, up: U64)
    requires StartOk(d, stops, tops, s) && WorklistOk(d, stops, s, resolved, cascade, left)
    requires up !in resolved && up != s.key
    ensures forall i :: 0 <= i < |cascade| ==> cascade[i].fileId in d && Up(d, cascade[i].fileId) != up
  {
    forall i | 0 <= i < |cascade| ensures cascade[i].fileId in d && Up(d, cascade[i].fileId) != up {
      if i < left {
        assert cascade[i] == cascade[..left][i] == s.base[i];
      }
    }
  }

  lemma StepDistinct(d: Dirs, arrival: Order, stops: set<U64>, tops: set<U64>, s: Start,
                     resolved: map<U64, string>, orphans: Buckets, cascade: seq<Entry>, left: nat)
    requires d.Keys <= arrival.Keys && BucketsOk(d, arrival, stops, resolved, orphans) && s.key !in orphans
    requires StartOk(d, stops, tops, s) && WorklistOk(d, stops, s, resolved, cascade, left) && cascade != []
    ensures forall i, j {:trigger Popped(orphans, cascade)[i], Popped(orphans, cascade)[j]} ::
              0 <= i < j < |Popped(orphans, cascade)| ==>
                Popped(orphans, cascade)[i].fileId != Popped(orphans, cascade)[j].fileId
  {
    var n := |cascade| - 1;
    var id := cascade[n].fileId;
    var cascade' := Popped(orphans, cascade);
    if id in orphans {
      NotUnder(d, stops, tops, s, resolved, cascade, left, id);
      forall i, j | 0 <= i < j < |cascade'| ensures cascade'[i].fileId != cascade'[j].fileId {
        if n <= i {
          assert cascade'[i] == orphans[id][i - n] && cascade'[j] == orphans[id][j - n];
        } else if n <= j {
          assert cascade'[i] == cascade[i] && cascade'[j] == orphans[id][j - n];
          assert orphans[id][j - n] in orphans[id];
        } else {
          assert cascade'[i] == cascade[i] && cascade'[j] == cascade[j];
        }
      }
    }
  }

  lemma StepRest(d: Dirs, arrival: Order, stops: set<U64>, tops: set<U64>, s: Start,
                 resolved: map<U64, string>, orphans: Buckets, cascade: seq<Entry>, left: nat, path: string, i: nat)
    requires d.Keys <= arrival.Keys && BucketsOk(d, arrival, stops, resolved, orphans) && s.key !in orphans
    requires StartOk(d, stops, tops, s) && WorklistOk(d, stops, s, resolved, cascade, left) && cascade != []
    requires i < |Popped(orphans, cascade)|
    ensures Popped(orphans, cascade)[i].fileId !in resolved[cascade[|cascade| - 1].fileId := path]
    ensures LeftAfter(left, |cascade|) <= i ==>
              && IsEntryOf(d, Popped(orphans, cascade)[i])
              && Up(d, Popped(orphans, cascade)[i].fileId) in resolved[cascade[|cascade| - 1].fileId := path]
              && Up(d, Popped(orphans, cascade)[i].fileId) !in stops
  {
    var n := |cascade| - 1;
    var id := cascade[n].fileId;
    var e := Popped(orphans, cascade)[i];
    if i >= n {
      assert e == orphans[id][i - n] && e in orphans[id];
      NotUnder(d, stops, tops, s, resolved, cascade, left, id);
    } else {
      assert e == cascade[i];
    }
  }

  lemma StepWorklist(d: Dirs, arrival: Order, stops: set<U64>, tops: set<U64>, root: string, s: Start,
                     resolved: map<U64, string>, orphans: Buckets, cascade: seq<Entry>, left: nat, path: string)
    requires d.Keys <= arrival.Keys && BucketsOk(d, arrival, stops, resolved, orphans) && s.key !in orphans
    requires PathsOk(d, stops, tops, root, resolved) && Accounted(d, resolved, orphans, cascade)
    requires StartOk(d, stops, tops, s) && WorklistOk(d, stops, s, resolved, cascade, left) && cascade != []
    ensures WorklistOk(d, stops, s, resolved[cascade[|cascade| - 1].fileId := path], Popped(orphans, cascade),
                       LeftAfter(left, |cascade|))
  {
    var id := cascade[|cascade| - 1].fileId;
    var cascade' := Popped(orphans, cascade);
    var left' := LeftAfter(left, |cascade|);
    assert cascade'[..left'] == cascade[..left][..left'] == s.base[..left'];
    StepDistinct(d, arrival, stops, tops, s, resolved, orphans, cascade, left);
    forall i | 0 <= i < |cascade'|
      ensures cascade'[i].fileId !in resolved[id := path]
      ensures left' <= i ==> IsEntryOf(d, cascade'[i]) && Up(d, cascade'[i].fileId) in resolved[id := path]
                             && Up(d, cascade'[i].fileId) !in stops
    {
      StepRest(d, arrival, stops, tops, s, resolved, orphans, cascade, left, path, i);
    }
    StepKey(d, arrival, stops, tops, root, s, resolved, orphans, cascade, left, path);
  }

  lemma StepKey(d: Dirs, arrival: Order, stops: set<U64>, tops: set<U64>, root: string, s: Start,
                resolved: map<U64, string>, orphans: Buckets, cascade: seq<Entry>, left: nat, path: string)
    requires d.Keys <= arrival.Keys && BucketsOk(d, arrival, stops, resolved, orphans)
    requires PathsOk(d, stops, tops, root, resolved) && Accounted(d, resolved, orphans, cascade)
    requires StartOk(d, stops, tops, s) && WorklistOk(d, stops, s, resolved, cascade, left) && cascade != []
    ensures KeyState(s, resolved[cascade[|cascade| - 1].fileId := path], Popped(orphans, cascade),
                     LeftAfter(left, |cascade|))
  {
    if s.forced && s.chain != [] {
      StepChainOrder(d, stops, tops, root, s, resolved, cascade, left, path);
      StepTurn(d, stops, tops, s, resolved, cascade, left, path);
      if LeftAfter(left, |cascade|) <= s.turn && s.key !in resolved[cascade[|cascade| - 1].fileId := path] {
        StepComing(d, arrival, stops, tops, s, resolved, orphans, cascade, left, path);
      }
    }
  }

  lemma StepChainOrder(d: Dirs, stops: set<U64>, tops: set<U64>, root: string, s: Start,
                       resolved: map<U64, string>, cascade: seq<Entry>, left: nat, path: string)
    requires StartOk(d, stops, tops, s) && WorklistOk(d, stops, s, resolved, cascade, left) && cascade != []
    requires PathsOk(d, stops, tops, root, resolved) && s.forced && s.chain != []
    ensures forall i :: 0 <= i < |s.chain| - 1 && s.chain[i + 1] in resolved[cascade[|cascade| - 1].fileId := path] ==>
                          s.chain[i] in resolved[cascade[|cascade| - 1].fileId := path]
  {
    var n := |cascade| - 1;
    var id := cascade[n].fileId;
    forall i | 0 <= i < |s.chain| - 1 && s.chain[i + 1] in resolved[id := path]
      ensures s.chain[i] in resolved[id := path]
    {
      if s.chain[i + 1] == id && s.chain[i] !in resolved {
        assert s.chain[i] != s.key;
        NotUnder(d, stops, tops, s, resolved, cascade, left, s.chain[i]);
      }
    }
  }

  lemma StepTurn(d: Dirs, stops: set<U64>, tops: set<U64>, s: Start,
                 resolved: map<U64, string>, cascade: seq<Entry>, left: nat, path: string)
    requires StartOk(d, stops, tops, s) && WorklistOk(d, stops, s, resolved, cascade, left) && cascade != []
    requires s.forced && s.chain != []
    ensures s.chain[0] in resolved[cascade[|cascade| - 1].fileId := path] <==> LeftAfter(left, |cascade|) <= s.turn
  {
    var n := |cascade| - 1;
    if s.turn < left {
      assert cascade[s.turn] == cascade[..left][s.turn] == s.base[s.turn];
      assert cascade[n].fileId == s.chain[0] <==> s.turn == n;
    }
  }

  /** The chain of a cyclic key keeps coming: its popped link brings the next one onto the worklist. */
  lemma NextLinkComes(d: Dirs, arrival: Order, stops: set<U64>, tops: set<U64>, s: Start,
                      resolved: map<U64, string>, orphans: Buckets, cascade: seq<Entry>, left: nat, i: nat)
    requires d.Keys <= arrival.Keys && BucketsOk(d, arrival, stops, resolved, orphans)
    requires Accounted(d, resolved, orphans, cascade)
    requires StartOk(d, stops, tops, s) && WorklistOk(d, stops, s, resolved, cascade, left) && cascade != []
    requires s.forced && i < |s.chain| - 1 && s.chain[i] == cascade[|cascade| - 1].fileId
    ensures Holds(Popped(orphans, cascade)[LeftAfter(left, |cascade|)..], s.chain[i + 1])
  {
    hide BucketsOk;
    var n := |cascade| - 1;
    var id := cascade[n].fileId;
    var next := s.chain[i + 1];
    var left' := LeftAfter(left, |cascade|);
    NotUnder(d, stops, tops, s, resolved, cascade, left, id);
    assert Filed(d, orphans, next);
    var k :| 0 <= k < |orphans[id]| && orphans[id][k].fileId == next;
    assert Popped(orphans, cascade)[left'..][n - left' + k].fileId == next;
  }

  lemma OtherLinkStays(orphans: Buckets, cascade: seq<Entry>, left: nat, x: U64)
    requires left < |cascade| && Holds(cascade[left..], x) && x != cascade[|cascade| - 1].fileId
    ensures Holds(Popped(orphans, cascade)[left..], x)
  {
    var k :| 0 <= k < |cascade[left..]| && cascade[left..][k].fileId == x;
    assert Popped(orphans, cascade)[left..][k] == cascade[left + k];
  }

  lemma StepComing(d: Dirs, arrival: Order, stops: set<U64>, tops: set<U64>, s: Start,
                   resolved: map<U64, string>, orphans: Buckets, cascade: seq<Entry>, left: nat, path: string)
    requires d.Keys <= arrival.Keys && BucketsOk(d, arrival, stops, resolved, orphans)
    requires Accounted(d, resolved, orphans, cascade)
    requires StartOk(d, stops, tops, s) && WorklistOk(d, stops, s, resolved, cascade, left) && cascade != []
    requires s.forced && s.chain != [] && LeftAfter(left, |cascade|) <= s.turn
    requires s.key !in resolved[cascade[|cascade| - 1].fileId := path]
    ensures exists x <- s.chain :: Holds(Popped(orphans, cascade)[LeftAfter(left, |cascade|)..], x)
  {
    var n := |cascade| - 1;
    if left == s.turn + 1 {
      assert left == |cascade| && cascade[n] == cascade[..left][n] == s.base[n];
      NextLinkComes(d, arrival, stops, tops, s, resolved, orphans, cascade, left, 0);
      assert s.chain[1] in s.chain;
    } else {
      assert left <= s.turn;
      var x :| x in s.chain && Holds(cascade[left..], x);
      if x == cascade[n].fileId {
        var i :| 0 <= i < |s.chain| && s.chain[i] == x;
        NextLinkComes(d, arrival, stops, tops, s, resolved, orphans, cascade, left, i);
        assert s.chain[i + 1] in s.chain;
      } else {
        OtherLinkStays(orphans, cascade, left, x);
      }
    }
  }

  lemma StepEvents(d: Dirs, tops: set<U64>, root: string, resolved: map<U64, string>, events: seq<DirectoryFound>,
                   e: Entry, path: string)
    requires EventsOk(d, tops, root, resolved, events) && ROOT !in d && IsEntryOf(d, e) && e.fileId !in resolved
    requires e.fileId !in tops || Up(d, e.fileId) == ROOT ==> Up(d, e.fileId) in resolved
    ensures EventsOk(d, tops, root, resolved[e.fileId := path],
                     events + [DirectoryFound(e.fileId, e.parent, e.name, path)])
  {
    var events' := events + [DirectoryFound(e.fileId, e.parent, e.name, path)];
    forall id | id in resolved[e.fileId := path] ensures Announced(events', id) {
      if id == e.fileId {
        assert events'[|events|].id == id;
      } else {
        var i :| 0 <= i < |events| && events[i].id == id;
        assert events'[i].id == id;
      }
    }
    forall i | 0 <= i < |events'| ensures FollowsParent(d, tops, events', i) {
      assert events'[..i] == events[..i];
      if i < |events| {
        assert FollowsParent(d, tops, events, i);
      } else {
        assert events[..i] == events;
      }
    }
  }

  // ---------- Starting a drain ----------

  /** A directory that arrives changes nothing about those that are resolved or filed already. */
  lemma ArrivalKeepsState(d: Dirs, arrival: Order, root: string, resolved: map<U64, string>, orphans: Buckets,
                          events: seq<DirectoryFound>, e: Entry, position: nat)
    requires Settled(d, arrival, {ROOT}, Below(d, {ROOT}), root, resolved, orphans, events)
    requires e.fileId !in d && e.fileId != ROOT
    ensures var d', arrival' := d[e.fileId := Dir(e.parent, e.name)], arrival[e.fileId := position];
            && PathsOk(d', {ROOT}, Below(d', {ROOT}), root, resolved)
            && BucketsOk(d', arrival', {ROOT}, resolved, orphans)
            && EventsOk(d', Below(d', {ROOT}), root, resolved, events)
  {
    hide EventsOk, BucketsOk;
    ArrivalKeepsPaths(d, arrival, root, resolved, orphans, events, e);
    ArrivalKeepsBuckets(d, arrival, resolved, orphans, e, position);
    ArrivalKeepsEvents(d, root, resolved, events, e);
  }

  lemma ArrivalKeepsPaths(d: Dirs, arrival: Order, root: string, resolved: map<U64, string>, orphans: Buckets,
                          events: seq<DirectoryFound>, e: Entry)
    requires Settled(d, arrival, {ROOT}, Below(d, {ROOT}), root, resolved, orphans, events)
    requires e.fileId !in d && e.fileId != ROOT
    ensures var d' := d[e.fileId := Dir(e.parent, e.name)]; PathsOk(d', {ROOT}, Below(d', {ROOT}), root, resolved)
  {
    hide BucketsOk, EventsOk, Accounted;
    var d' := d[e.fileId := Dir(e.parent, e.name)];
    var tops, tops' := Below(d, {ROOT}), Below(d', {ROOT});
    var inside := resolved.Keys - {ROOT};
    forall x | x in inside && x !in tops ensures Up(d, x) in inside {
      AnchoredStep(d, tops, x);
      ReachedIsResolved(d, arrival, {ROOT}, resolved, orphans, Up(d, x), Height(d, tops, Up(d, x)));
    }
    forall id | id in inside
      ensures Anchored(d', tops', id) && PathOf(d', tops', root, id) == PathOf(d, tops, root, id)
    {
      PathTransfers(d, tops, d', tops', inside, root, id);
    }
  }

  lemma ArrivalKeepsBuckets(d: Dirs, arrival: Order, resolved: map<U64, string>, orphans: Buckets, e: Entry,
                            position: nat)
    requires d.Keys <= arrival.Keys && BucketsOk(d, arrival, {ROOT}, resolved, orphans) && e.fileId !in d
    ensures BucketsOk(d[e.fileId := Dir(e.parent, e.name)], arrival[e.fileId := position], {ROOT}, resolved, orphans)
  {
    forall key | key in orphans
      ensures BucketOk(d[e.fileId := Dir(e.parent, e.name)], arrival[e.fileId := position], resolved, key, orphans[key])
    {
      forall i | 0 <= i < |orphans[key]| ensures orphans[key][i].fileId in d {
        assert orphans[key][i] in orphans[key];
      }
    }
  }

  lemma ArrivalKeepsEvents(d: Dirs, root: string, resolved: map<U64, string>, events: seq<DirectoryFound>, e: Entry)
    requires EventsOk(d, Below(d, {ROOT}), root, resolved, events) && e.fileId !in d
    requires forall id <- resolved :: id != e.fileId
    ensures var d' := d[e.fileId := Dir(e.parent, e.name)]; EventsOk(d', Below(d', {ROOT}), root, resolved, events)
  {
    var d' := d[e.fileId := Dir(e.parent, e.name)];
    forall i | 0 <= i < |events|
      ensures EventOk(d', root, resolved, events[i]) && FollowsParent(d', Below(d', {ROOT}), events, i)
    {
      assert FollowsParent(d, Below(d, {ROOT}), events, i) && EventOk(d, root, resolved, events[i]);
    }
  }

  lemma ArrivalStartsDrain(d: Dirs, arrival: Order, root: string, resolved: map<U64, string>, orphans: Buckets,
                           events: seq<DirectoryFound>, e: Entry, position: nat)
    requires Settled(d, arrival, {ROOT}, Below(d, {ROOT}), root, resolved, orphans, events)
    requires e.fileId !in d && e.fileId != ROOT && NormalizedParent(e.fileId, e.parent) in resolved
    ensures var d', arrival' := d[e.fileId := Dir(e.parent, e.name)], arrival[e.fileId := position];
            Draining(d', arrival', {ROOT}, Below(d', {ROOT}), root,
                     Start(NormalizedParent(e.fileId, e.parent), false, [e], [], 0), resolved, orphans, [e], 1, events)
  {
    ArrivalKeepsState(d, arrival, root, resolved, orphans, events, e, position);
    var d' := d[e.fileId := Dir(e.parent, e.name)];
    forall id | id in d' ensures id in resolved || Filed(d', orphans, id) || Holds([e], id) {
      if id == e.fileId {
        assert [e][0].fileId == id;
      }
    }
  }

  lemma ArrivalIsFiled(d: Dirs, arrival: Order, root: string, resolved: map<U64, string>, orphans: Buckets,
                       events: seq<DirectoryFound>, e: Entry, position: nat)
    requires Settled(d, arrival, {ROOT}, Below(d, {ROOT}), root, resolved, orphans, events)
    requires e.fileId !in d && e.fileId != ROOT && NormalizedParent(e.fileId, e.parent) !in resolved
    requires forall id <- d :: arrival[id] < position
    ensures var d', arrival' := d[e.fileId := Dir(e.parent, e.name)], arrival[e.fileId := position];
            var key := NormalizedParent(e.fileId, e.parent);
            Settled(d', arrival', {ROOT}, Below(d', {ROOT}), root, resolved,
                    orphans[key := (if key in orphans then orphans[key] else []) + [e]], events)
  {
    assert ROOT in resolved && resolved.Keys <= d.Keys + {ROOT};
    hide PathsOk, EventsOk;
    ArrivalKeepsState(d, arrival, root, resolved, orphans, events, e, position);
    BucketGrows(d, arrival, resolved, orphans, e, position);
    AccountedGrows(d, resolved, orphans, e);
  }

  lemma BucketGrows(d: Dirs, arrival: Order, resolved: map<U64, string>, orphans: Buckets, e: Entry, position: nat)
    requires d.Keys <= arrival.Keys && BucketsOk(d, arrival, {ROOT}, resolved, orphans)
             && Accounted(d, resolved, orphans, [])
    requires e.fileId !in d && e.fileId != ROOT && NormalizedParent(e.fileId, e.parent) !in resolved
    requires (forall id <- d :: arrival[id] < position) && ROOT in resolved && resolved.Keys <= d.Keys + {ROOT}
    ensures var d', arrival' := d[e.fileId := Dir(e.parent, e.name)], arrival[e.fileId := position];
            var key := NormalizedParent(e.fileId, e.parent);
            BucketsOk(d', arrival', {ROOT}, resolved,
                      orphans[key := (if key in orphans then orphans[key] else []) + [e]])
  {
    var d', arrival' := d[e.fileId := Dir(e.parent, e.name)], arrival[e.fileId := position];
    var key := NormalizedParent(e.fileId, e.parent);
    var before := if key in orphans then orphans[key] else [];
    ArrivalKeepsBuckets(d, arrival, resolved, orphans, e, position);
    assert key in orphans ==> BucketOk(d', arrival', resolved, key, before);
    forall x | x in before ensures x.fileId in d && arrival'[x.fileId] < position {
      assert BucketOk(d, arrival, resolved, key, before);
    }
    BucketAppends(d', arrival', resolved, key, before, e);
    hide BucketOk;
  }

  lemma BucketAppends(d: Dirs, arrival: Order, resolved: map<U64, string>, key: U64, bucket: seq<Entry>, e: Entry)
    requires d.Keys <= arrival.Keys && (bucket != [] ==> BucketOk(d, arrival, resolved, key, bucket))
    requires IsEntryOf(d, e) && Up(d, e.fileId) == key && e.fileId !in resolved
    requires forall x <- bucket :: x.fileId in d && arrival[x.fileId] < arrival[e.fileId]
    ensures BucketOk(d, arrival, resolved, key, bucket + [e])
  {
    var more := bucket + [e];
    forall i, j | 0 <= i < j < |more| ensures arrival[more[i].fileId] < arrival[more[j].fileId] {
      assert more[i] in bucket && more[i] == bucket[i];
      assert j < |bucket| ==> more[j] == bucket[j];
    }
  }

  lemma AccountedGrows(d: Dirs, resolved: map<U64, string>, orphans: Buckets, e: Entry)
    requires Accounted(d, resolved, orphans, []) && e.fileId !in d
    ensures var d' := d[e.fileId := Dir(e.parent, e.name)];
            var key := NormalizedParent(e.fileId, e.parent);
            Accounted(d', resolved, orphans[key := (if key in orphans then orphans[key] else []) + [e]], [])
  {
    var d' := d[e.fileId := Dir(e.parent, e.name)];
    var key := NormalizedParent(e.fileId, e.parent);
    var before := if key in orphans then orphans[key] else [];
    var orphans' := orphans[key := before + [e]];
    forall id | id in d' ensures id in resolved || Filed(d', orphans', id) {
      if id == e.fileId {
        assert orphans'[key][|before|].fileId == id;
      } else if Filed(d, orphans, id) {
        var i :| 0 <= i < |orphans[Up(d, id)]| && orphans[Up(d, id)][i].fileId == id;
        assert orphans'[Up(d, id)][i].fileId == id;
      }
    }
  }

  /** Directories under the root have the same path whether or not anything else is forced later. */
  lemma EnterFinalPass(d: Dirs, arrival: Order, root: string, resolved: map<U64, string>, orphans: Buckets,
                       events: seq<DirectoryFound>)
    requires Settled(d, arrival, {ROOT}, Below(d, {ROOT}), root, resolved, orphans, events)
    ensures Settled(d, arrival, {ROOT}, Detached(d, arrival), root, resolved, orphans, events)
  {
    var tops, tops' := Below(d, {ROOT}), Detached(d, arrival);
    var inside := resolved.Keys - {ROOT};
    assert !Cyclic(d, ROOT);
    forall x | x in inside && x !in tops ensures Up(d, x) in inside && x !in tops' {
      AnchoredStep(d, tops, x);
      ReachedIsResolved(d, arrival, {ROOT}, resolved, orphans, Up(d, x), Height(d, tops, Up(d, x)));
      ResolvedIsNeverForced(d, Up(d, x));
    }
    forall id | id in inside
      ensures Anchored(d, tops', id) && PathOf(d, tops', root, id) == PathOf(d, tops, root, id)
    {
      PathTransfers(d, tops, d, tops', inside, root, id);
    }
    forall i | 0 <= i < |events| ensures FollowsParent(d, tops', events, i) {
      assert FollowsParent(d, tops, events, i) && EventOk(d, root, resolved, events[i]);
    }
  }

  /** The position in the bucket of a cyclic key at which its cycle child waits. */
  lemma CycleChildIsFiled(d: Dirs, arrival: Order, stops: set<U64>, tops: set<U64>, root: string,
                          resolved: map<U64, string>, orphans: Buckets, events: seq<DirectoryFound>, key: U64)
    returns (turn: nat)
    requires Settled(d, arrival, stops, tops, root, resolved, orphans, events)
    requires key in orphans && Cyclic(d, key)
    ensures turn < |orphans[key]| && orphans[key][turn].fileId == CycleChild(d, key)
  {
    var child := CycleChild(d, key);
    ResolvedAreReached(d, arrival, stops, tops, root, resolved, orphans, events);
    if child in resolved {
      var n := Height(d, Below(d, {key}), key);
      ClimbOnward(d, Below(d, {key}), Below(d, stops), key, n);
      KeysAreUnresolved(d, stops, key);
    }
    assert Filed(d, orphans, child);
    turn :| 0 <= turn < |orphans[key]| && orphans[key][turn].fileId == child;
  }

  lemma CycleChainExists(d: Dirs, stops: set<U64>, key: U64) returns (chain: seq<U64>)
    requires Cyclic(d, key) && !Reached(d, stops, key) && key != ROOT
    ensures IsCycleChain(d, stops + {key}, key, chain) && chain[0] == CycleChild(d, key)
    ensures forall x <- chain :: x in d && !Reached(d, stops, x)
  {
    var tops := Below(d, {key});
    var n := Height(d, tops, key);
    chain := ChainDown(d, tops, key, n);
    ChainIsWaiting(d, tops, stops, key, n);
    assert n > 0;
    forall i | 0 <= i < n ensures Up(d, chain[i + 1]) == chain[i] && chain[i] !in stops + {key} {
      assert chain[i + 1] !in tops;
    }
  }

  /** In the bucket of a forced key the tops are the cycle child and what arrived after it; without a cycle, all. */
  lemma BucketTops(d: Dirs, arrival: Order, resolved: map<U64, string>, key: U64, bucket: seq<Entry>, turn: nat)
    requires d.Keys <= arrival.Keys && BucketOk(d, arrival, resolved, key, bucket) && key in AllStops(d)
    requires if Cyclic(d, key) then turn < |bucket| && bucket[turn].fileId == CycleChild(d, key) else turn == 0
    ensures forall i :: 0 <= i < |bucket| ==> (bucket[i].fileId in Detached(d, arrival) <==> i >= turn)
  {
    forall i | 0 <= i < |bucket| ensures bucket[i].fileId in Detached(d, arrival) <==> i >= turn {
      assert bucket[i] in bucket;
      assert Cyclic(d, key) ==> (i >= turn <==> arrival[bucket[i].fileId] >= arrival[bucket[turn].fileId]);
    }
  }

  lemma ForceStart(d: Dirs, arrival: Order, stops: set<U64>, root: string,
                   resolved: map<U64, string>, orphans: Buckets, events: seq<DirectoryFound>, key: U64)
    returns (s: Start)
    requires d.Keys <= arrival.Keys
    requires Settled(d, arrival, stops, Detached(d, arrival), root, resolved, orphans, events)
    requires key in orphans && key in AllStops(d)
    ensures s.key == key && s.forced && s.base == orphans[key]
    ensures StartOk(d, stops + {key}, Detached(d, arrival), s)
    ensures KeyState(s, resolved, s.base, |s.base|)
  {
    ResolvedAreReached(d, arrival, stops, Detached(d, arrival), root, resolved, orphans, events);
    KeysAreUnresolved(d, stops, key);
    if Cyclic(d, key) {
      s := ForceCyclic(d, arrival, stops, root, resolved, orphans, events, key);
    } else {
      ForcingAcyclicKey(d, stops, key);
      BucketTops(d, arrival, resolved, key, orphans[key], 0);
      s := Start(key, true, orphans[key], [], 0);
    }
  }

  lemma ForceCyclic(d: Dirs, arrival: Order, stops: set<U64>, root: string,
                    resolved: map<U64, string>, orphans: Buckets, events: seq<DirectoryFound>, key: U64)
    returns (s: Start)
    requires d.Keys <= arrival.Keys && key in orphans && key in AllStops(d) && Cyclic(d, key)
    requires Settled(d, arrival, stops, Detached(d, arrival), root, resolved, orphans, events)
    requires !Reached(d, stops, key) && resolved.Keys == (d.Keys - Waiting(d, stops)) + {ROOT}
    ensures s.key == key && s.forced && s.base == orphans[key]
    ensures StartOk(d, stops + {key}, Detached(d, arrival), s)
    ensures KeyState(s, resolved, s.base, |s.base|)
  {
    assert key != ROOT && BucketOk(d, arrival, resolved, key, orphans[key]);
    hide *;
    var chain := CycleChainExists(d, stops, key);
    var turn := CycleChildIsFiled(d, arrival, stops, Detached(d, arrival), root, resolved, orphans, events, key);
    BucketTops(d, arrival, resolved, key, orphans[key], turn);
    s := Start(key, true, orphans[key], chain, turn);
    BucketHolds(d, arrival, resolved, key, orphans[key]);
    ChainIsUnresolved(d, stops, chain, resolved);
    CyclicStart(d, stops + {key}, Detached(d, arrival), s, resolved);
  }

  lemma BucketHolds(d: Dirs, arrival: Order, resolved: map<U64, string>, key: U64, bucket: seq<Entry>)
    requires d.Keys <= arrival.Keys && BucketOk(d, arrival, resolved, key, bucket)
    ensures forall e <- bucket :: IsEntryOf(d, e) && Up(d, e.fileId) == key
  {
  }

  lemma ChainIsUnresolved(d: Dirs, stops: set<U64>, chain: seq<U64>, resolved: map<U64, string>)
    requires resolved.Keys == (d.Keys - Waiting(d, stops)) + {ROOT} && ROOT !in d
    requires forall x <- chain :: x in d && !Reached(d, stops, x)
    ensures forall x <- chain :: x !in resolved
  {
  }

  lemma CyclicStart(d: Dirs, stops: set<U64>, tops: set<U64>, s: Start, resolved: map<U64, string>)
    requires s.forced && s.key != ROOT && s.key in stops && IsCycleChain(d, stops, s.key, s.chain)
    requires forall e <- s.base :: IsEntryOf(d, e) && Up(d, e.fileId) == s.key
    requires forall i :: 0 <= i < |s.base| ==> (s.base[i].fileId in tops <==> i >= s.turn)
    requires s.turn < |s.base| && s.base[s.turn].fileId == s.chain[0] && forall x <- s.chain :: x !in resolved
    ensures StartOk(d, stops, tops, s) && KeyState(s, resolved, s.base, |s.base|)
  {
    hide IsEntryOf;
  }

  lemma ForcedTops(d: Dirs, arrival: Order, stops: set<U64>)
    requires d.Keys <= arrival.Keys && ROOT !in d
    requires forall x :: x in AllStops(d) && x !in stops ==> !Reached(d, stops, x)
    ensures TopsOk(d, stops, Detached(d, arrival))
  {
    assert !Cyclic(d, ROOT);
  }

  lemma ForcedWorklist(d: Dirs, arrival: Order, stops: set<U64>, tops: set<U64>, s: Start,
                       resolved: map<U64, string>, orphans: Buckets)
    requires d.Keys <= arrival.Keys && BucketsOk(d, arrival, stops, resolved, orphans) && s.key in orphans
    requires s.base == orphans[s.key] && KeyState(s, resolved, s.base, |s.base|)
    ensures WorklistOk(d, stops + {s.key}, s, resolved, s.base, |s.base|)
  {
    forall i, j | 0 <= i < j < |s.base| ensures s.base[i].fileId != s.base[j].fileId {
      assert s.base[i] in s.base;
    }
  }

  lemma ForceStartsDrain(d: Dirs, arrival: Order, stops: set<U64>, root: string,
                         resolved: map<U64, string>, orphans: Buckets, events: seq<DirectoryFound>, key: U64)
    returns (s: Start)
    requires d.Keys <= arrival.Keys
    requires Settled(d, arrival, stops, Detached(d, arrival), root, resolved, orphans, events)
    requires key in orphans && key in AllStops(d)
    requires forall x :: x in AllStops(d) && x !in stops + {key} ==> !Reached(d, stops + {key}, x)
    ensures s.base == orphans[key]
    ensures Draining(d, arrival, stops + {key}, Detached(d, arrival), root, s, resolved, orphans - {key},
                     orphans[key], |orphans[key]|, events)
  {
    s := ForceStart(d, arrival, stops, root, resolved, orphans, events, key);
    ForcedTops(d, arrival, stops + {key});
    ForcedWorklist(d, arrival, stops, Detached(d, arrival), s, resolved, orphans);
    ForcedPaths(d, stops, key, Detached(d, arrival), root, resolved);
    ForcedBuckets(d, arrival, stops, resolved, orphans, key);
    hide PathsOk, BucketsOk, TopsOk, StartOk, WorklistOk, Accounted, EventsOk, Detached;
  }

  lemma ForcedPaths(d: Dirs, stops: set<U64>, key: U64, tops: set<U64>, root: string, resolved: map<U64, string>)
    requires PathsOk(d, stops, tops, root, resolved)
    ensures PathsOk(d, stops + {key}, tops, root, resolved)
  {
    MoreStopsReachMore(d, stops, stops + {key});
  }

  lemma ForcedBuckets(d: Dirs, arrival: Order, stops: set<U64>, resolved: map<U64, string>, orphans: Buckets, key: U64)
    requires d.Keys <= arrival.Keys && BucketsOk(d, arrival, stops, resolved, orphans) && key in orphans
    requires Accounted(d, resolved, orphans, [])
    ensures BucketsOk(d, arrival, stops + {key}, resolved, orphans - {key})
    ensures Accounted(d, resolved, orphans - {key}, orphans[key])
  {
    forall id | id in d ensures id in resolved || Filed(d, orphans - {key}, id) || Holds(orphans[key], id) {
      assert id in resolved || Filed(d, orphans, id);
    }
  }

  /** Within a round the keys still to be forced stay unresolved and keep their buckets. */
  lemma RoundStays(d: Dirs, round: set<U64>, done: set<U64>, key: U64)
    requires ROOT in round && Waiting(d, round) != {} && done <= Stuck(d, round)
    requires key in Stuck(d, round) && key !in done
    requires FinalStops(d, round) == AllStops(d)
    ensures key in AllStops(d) && key in Keys(d, round + done)
    ensures forall x :: x in AllStops(d) && x !in round + done + {key} ==> !Reached(d, round + done + {key}, x)
  {
    var all := round + Stuck(d, round);
    StuckProgress(d, round);
    StuckAreKeys(d, round);
    SubsetCard(Waiting(d, all), Waiting(d, round));
    assert AllStops(d) == FinalStops(d, all);
    KeysAreUnresolved(d, round, key);
    var id :| id in Waiting(d, round) && Up(d, id) == key;
    if done != {} {
      assert key !in Waiting(d, round);
      AnchoredStep(d, Below(d, round + done), id);
    } else {
      assert round + done == round;
    }
    LaterStopsAreKeys(d, all);
    MoreStopsReachMore(d, round + done + {key}, all);
    forall x | x in AllStops(d) && x !in round + done + {key} ensures !Reached(d, round + done + {key}, x) {
      if x in all {
        assert x !in Waiting(d, round);
        KeysAreUnresolved(d, round, x);
      } else {
        KeysAreUnresolved(d, all, x);
      }
    }
  }

  /** The directories found in the buckets of a settled state are exactly those still waiting. */
  lemma FiledAreWaiting(d: Dirs, arrival: Order, stops: set<U64>, tops: set<U64>, root: string,
                        resolved: map<U64, string>, orphans: Buckets, events: seq<DirectoryFound>, id: U64)
    requires Settled(d, arrival, stops, tops, root, resolved, orphans, events)
    ensures id in Waiting(d, stops) <==>
              exists key, i :: key in orphans && 0 <= i < |orphans[key]| && orphans[key][i].fileId == id
  {
    ResolvedAreReached(d, arrival, stops, tops, root, resolved, orphans, events);
    if id in Waiting(d, stops) {
      assert Filed(d, orphans, id);
    }
    if key, i :| key in orphans && 0 <= i < |orphans[key]| && orphans[key][i].fileId == id {
      assert orphans[key][i] in orphans[key];
    }
  }

  lemma NothingWaits(d: Dirs, arrival: Order, root: string, stops: set<U64>,
                     resolved: map<U64, string>, orphans: Buckets, events: seq<DirectoryFound>)
    requires d.Keys <= arrival.Keys
    requires Settled(d, arrival, stops, Detached(d, arrival), root, resolved, orphans, events) && orphans == map[]
    ensures resolved == FinalPaths(d, arrival, root)
  {
    ResolvedAreReached(d, arrival, stops, Detached(d, arrival), root, resolved, orphans, events);
    assert Waiting(d, stops) != {} ==> Keys(d, stops) != {} by {
      if Waiting(d, stops) != {} { KeysNonEmpty(d, stops); }
    }
  }

  /** One turn of the drain, on the values of the fields. */
  lemma DrainStep(d: Dirs, arrival: Order, stops: set<U64>, tops: set<U64>, root: string, s: Start,
                  resolved: map<U64, string>, orphans: Buckets, cascade: seq<Entry>, left: nat,
                  events: seq<DirectoryFound>)
    requires Draining(d, arrival, stops, tops, root, s, resolved, orphans, cascade, left, events) && cascade != []
    ensures var e := cascade[|cascade| - 1];
            var path := AnnouncedPath(root, resolved, e);
            && e.fileId in d && e.fileId !in resolved
            && Draining(d, arrival, stops, tops, root, s, resolved[e.fileId := path], orphans - {e.fileId},
                        Popped(orphans, cascade), LeftAfter(left, |cascade|),
                        events + [DirectoryFound(e.fileId, e.parent, e.name, path)])
  {
    var e := cascade[|cascade| - 1];
    var path := AnnouncedPath(root, resolved, e);
    StepPath(d, stops, tops, root, s, resolved, cascade, left);
    StepBuckets(d, arrival, stops, tops, root, s, resolved, orphans, cascade, left, path);
    StepAccounted(d, resolved, orphans, cascade, path);
    StepWorklist(d, arrival, stops, tops, root, s, resolved, orphans, cascade, left, path);
    StepEvents(d, tops, root, resolved, events, e, path);
  }

  lemma DrainEnds(d: Dirs, arrival: Order, stops: set<U64>, tops: set<U64>, root: string, s: Start,
                  resolved: map<U64, string>, orphans: Buckets, events: seq<DirectoryFound>)
    requires Draining(d, arrival, stops, tops, root, s, resolved, orphans, [], 0, events)
    ensures Settled(d, arrival, stops, tops, root, resolved, orphans, events)
  {
  }

  lemma SettledFacts(d: Dirs, arrival: Order, stops: set<U64>, tops: set<U64>, root: string,
                     resolved: map<U64, string>, orphans: Buckets, events: seq<DirectoryFound>)
    requires Settled(d, arrival, stops, tops, root, resolved, orphans, events)
    ensures d.Keys <= arrival.Keys && ROOT !in d && ROOT in resolved
    ensures forall id <- resolved :: id == ROOT || id in d
    ensures orphans.Keys == Keys(d, stops) && (orphans != map[] ==> Waiting(d, stops) != {})
    ensures forall id :: id in Waiting(d, stops) <==>
                         exists key, i :: key in orphans && 0 <= i < |orphans[key]| && orphans[key][i].fileId == id
  {
    hide *;
    ResolvedAreReached(d, arrival, stops, tops, root, resolved, orphans, events);
    forall id
      ensures id in Waiting(d, stops) <==>
              exists key, i :: key in orphans && 0 <= i < |orphans[key]| && orphans[key][i].fileId == id
    {
      FiledAreWaiting(d, arrival, stops, tops, root, resolved, orphans, events, id);
    }
    SettledBasics(d, arrival, stops, tops, root, resolved, orphans, events);
  }

  lemma SettledEvents(d: Dirs, arrival: Order, stops: set<U64>, tops: set<U64>, root: string,
                      resolved: map<U64, string>, orphans: Buckets, events: seq<DirectoryFound>)
    requires Settled(d, arrival, stops, tops, root, resolved, orphans, events)
    ensures EventsOk(d, tops, root, resolved, events)
  {
  }

  lemma SettledBasics(d: Dirs, arrival: Order, stops: set<U64>, tops: set<U64>, root: string,
                      resolved: map<U64, string>, orphans: Buckets, events: seq<DirectoryFound>)
    requires Settled(d, arrival, stops, tops, root, resolved, orphans, events)
    ensures d.Keys <= arrival.Keys && ROOT !in d && ROOT in resolved
    ensures forall id <- resolved :: id == ROOT || id in d
    ensures orphans != map[] ==> Waiting(d, stops) != {}
  {
    if orphans != map[] {
      ResolvedAreReached(d, arrival, stops, tops, root, resolved, orphans, events);
      var key :| key in orphans;
      assert key in Keys(d, stops);
    }
  }

  // ---------- What the announcements amount to ----------

  /** The keys under which directories wait are never resolved themselves. */
  lemma KeysNeverResolved(d: Dirs, arrival: Order, stops: set<U64>, tops: set<U64>, root: string,
                          resolved: map<U64, string>, orphans: Buckets, events: seq<DirectoryFound>)
    requires Settled(d, arrival, stops, tops, root, resolved, orphans, events)
    ensures orphans.Keys !! resolved.Keys
  {
  }

  /** While records still arrive, every announced directory follows its parent. */
  lemma ParentsFirst(d: Dirs, root: string, resolved: map<U64, string>, events: seq<DirectoryFound>, i: nat)
    requires EventsOk(d, Below(d, {ROOT}), root, resolved, events) && i < |events| && events[i].id != ROOT
    ensures events[i].id in d && Announced(events[..i], Up(d, events[i].id))
  {
    assert FollowsParent(d, Below(d, {ROOT}), events, i) && EventOk(d, root, resolved, events[i]);
  }

  ghost function AnnouncedIds(events: seq<DirectoryFound>): set<U64> {
    set i | 0 <= i < |events| :: events[i].id
  }

  /** Every resolved directory is announced exactly once. */
  lemma {:induction false} AnnouncedOnce(events: seq<DirectoryFound>)
    requires forall i, j :: 0 <= i < j < |events| ==> events[i].id != events[j].id
    ensures |AnnouncedIds(events)| == |events|
  {
    if events != [] {
      var n := |events| - 1;
      AnnouncedOnce(events[..n]);
      assert AnnouncedIds(events) == AnnouncedIds(events[..n]) + {events[n].id};
    }
  }

  lemma EventsCountPaths(d: Dirs, tops: set<U64>, root: string, resolved: map<U64, string>, events: seq<DirectoryFound>)
    requires EventsOk(d, tops, root, resolved, events)
    ensures |events| == |resolved|
  {
    AnnouncedOnce(events);
    assert AnnouncedIds(events) == resolved.Keys;
    assert |resolved.Keys| == |resolved|;
  }
}
