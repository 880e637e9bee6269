/** What the shared walk achieves: nobody waits in vain, nobody leaves early, and the result is that of one thread. */
module SharedWalk {
  import opened Basics
  import opened DirectoryWalk
  import opened WalkLaws
  import opened WorkerProtocol
  import opened WorkerInvariants
  import opened WorkerSteps
  import opened WorkerLaws
  import opened WalkMeaning

  predicate InFlight(w: Worker) {
    w.Processing? || w.Publishing?
  }

  // ---------- Waiting and leaving ----------

  lemma TasksOfWorker(fs: FileSystem, policy: Policy, w: Worker)
    ensures WorkerLoad(fs, policy, w).tasks == if InFlight(w) then 1 else 0
  {
    hide TasksLoad, Rest;
  }

  function CountInFlight(ws: seq<Worker>): nat {
    if ws == [] then 0 else CountInFlight(ws[..|ws| - 1]) + if InFlight(ws[|ws| - 1]) then 1 else 0
  }

  lemma {:induction false} LoadCountsInFlight(fs: FileSystem, policy: Policy, ws: seq<Worker>)
    ensures WorkersLoad(fs, policy, ws).tasks == CountInFlight(ws)
  {
    hide Join, WorkerLoad;
    if ws != [] {
      var n := |ws| - 1;
      LoadCountsInFlight(fs, policy, ws[..n]);
      TasksOfWorker(fs, policy, ws[n]);
      JoinCounts(WorkersLoad(fs, policy, ws[..n]), WorkerLoad(fs, policy, ws[n]));
    }
  }

  lemma {:induction false} CountIsZero(ws: seq<Worker>)
    ensures CountInFlight(ws) == 0 <==> forall v :: 0 <= v < |ws| ==> !InFlight(ws[v])
  {
    if ws != [] {
      var n := |ws| - 1;
      CountIsZero(ws[..n]);
      assert forall v :: 0 <= v < n ==> ws[..n][v] == ws[v];
    }
  }

  /** The counter is the number of queued tasks plus the number of workers at a task. */
  lemma OutstandingCounts(s: Shared, root: Place)
    requires Inv(s, root)
    ensures s.outstanding == |s.queue| + CountInFlight(s.workers)
  {
    LoadCountsInFlight(s.fs, s.policy, s.workers);
    TasksLoadCounts(s.fs, s.policy, s.queue);
    JoinCounts(WorkersLoad(s.fs, s.policy, s.workers), TasksLoad(s.fs, s.policy, s.queue));
    hide WorkersLoad, TasksLoad, Join, TotalsOf, Walk, NobodySleepsOnWork, FewWorkers, FreshIds, InPlace;
  }

  /** A worker that waits and was not notified has nothing to take, and somebody is still at work. */
  lemma WaitingMeansWork(s: Shared, root: Place, w: nat) returns (v: nat)
    requires Inv(s, root) && w < |s.workers| && s.workers[w].Waiting?
    ensures s.queue == [] && v < |s.workers| && InFlight(s.workers[v])
  {
    OutstandingCounts(s, root);
    CountIsZero(s.workers);
    hide Balanced, FewWorkers, FreshIds, InPlace, CountInFlight;
    v :| 0 <= v < |s.workers| && InFlight(s.workers[v]);
  }

  /** No worker leaves while a task is queued or some worker is still at one. */
  lemma LeavingMeansDone(s: Shared, root: Place, w: nat)
    requires Inv(s, root) && w < |s.workers| && s.workers[w].Finished?
    ensures s.queue == [] && forall v :: 0 <= v < |s.workers| ==> !InFlight(s.workers[v])
  {
    OutstandingCounts(s, root);
    CountIsZero(s.workers);
    hide Balanced, FewWorkers, FreshIds, InPlace, CountInFlight;
  }

  // ---------- No deadlock ----------

  predicate IsStale(s: Shared, w: nat) {
    w < |s.workers| && s.workers[w].Deciding? && s.workers[w].seen != s.started
  }

  lemma IdleCanMove(s: Shared, w: nat) returns (a: Action, t: Shared)
    requires w < |s.workers|
             && (s.workers[w].Top? || s.workers[w].Sized? || s.workers[w].Deciding? || s.workers[w].WantTask?)
    ensures Does(s, w, a, t) && !a.Waking? && (a.Failing? ==> IsStale(s, w) && !IsStale(t, w))
  {
    match s.workers[w]
    case Top => a, t := Measuring, s.(workers := s.workers[w := Sized(WorkersFor(s.limit, s.outstanding))]);
    case Sized(desired) => a, t := Loading, s.(workers := s.workers[w := Deciding(desired, s.started)]);
    case Deciding(desired, seen) =>
      if seen >= desired {
        a, t := Enough, s.(workers := s.workers[w := WantTask]);
      } else if seen == s.started {
        a, t := Starting, s.(started := s.started + 1, workers := s.workers[w := Deciding(desired, seen + 1)] + [Top]);
      } else {
        a, t := Failing, s.(workers := s.workers[w := Deciding(desired, s.started)]);
      }
    case WantTask =>
      if s.queue != [] {
        var task := s.queue[|s.queue| - 1];
        a, t := Taking, s.(queue := s.queue[..|s.queue| - 1], popped := s.popped + multiset{task.id},
                           workers := s.workers[w := Processing(task, 0, [], [], ZERO)]);
      } else if s.outstanding == 0 {
        a, t := Leaving, s.(workers := s.workers[w := Finished]);
      } else {
        a, t := GoingToSleep, s.(workers := s.workers[w := Waiting]);
      }
  }

  lemma BusyCanMove(s: Shared, w: nat) returns (a: Action, t: Shared)
    requires w < |s.workers| && s.workers[w].Processing? && InPlace(s.fs, s.workers[w])
    ensures Does(s, w, a, t) && !a.Waking? && !a.Failing?
  {
    hide Listing, Below, TotalsOf, ItemsOf;
    var p := s.workers[w];
    var entries := Entries(s, p.task.place);
    if FlushDue(s, p) {
      var items := ItemsOf(p.task.place, p.pending);
      var flushed := p.(pending := [], unpublished := Plus(p.unpublished, TotalsOf(items)));
      a, t := Flushing, s.(nextFile := s.nextFile + |p.pending|, blocks := s.blocks + [(s.nextFile, |p.pending|)],
                           emitted := s.emitted + items, workers := s.workers[w := flushed]);
    } else if p.index < |entries| && entries[p.index].FileEntry? {
      a, t := AtFile,
        s.(workers := s.workers[w := p.(index := p.index + 1, pending := p.pending + [entries[p.index]])]);
    } else if p.index < |entries| {
      a, t := AtDirectory, AfterDirectory(s, w);
    } else if p.unpublished.files > 0 {
      a, t := PublishingTotals,
        s.(published := Plus(s.published, p.unpublished), workers := s.workers[w := p.(unpublished := ZERO)]);
    } else {
      a, t := Ending, s.(workers := s.workers[w := Publishing(p.children)]);
    }
  }

  function AfterDirectory(s: Shared, w: nat): Shared
    requires w < |s.workers| && s.workers[w].Processing? && s.workers[w].index < |Entries(s, s.workers[w].task.place)|
  {
    var p := s.workers[w];
    var entry := Entries(s, p.task.place)[p.index];
    var reported := s.(nextDirectory := s.nextDirectory + 1, emitted := s.emitted + [ItemOf(p.task.place, entry)]);
    match Below(s.policy, p.task.place, entry)
    case None => reported.(workers := s.workers[w := p.(index := p.index + 1)])
    case Some(place) =>
      reported.(workers := s.workers[w := p.(index := p.index + 1,
                                             children := p.children + [Task(place, s.nextDirectory)])],
                pushed := s.pushed + multiset{s.nextDirectory})
  }

  lemma ReturningIsOutstanding(s: Shared, root: Place, w: nat)
    requires Inv(s, root) && w < |s.workers| && s.workers[w].Publishing?
    ensures s.outstanding > 0
  {
    hide Inv, CountInFlight;
    OutstandingCounts(s, root);
    CountIsZero(s.workers);
  }

  lemma ReturningCanMove(s: Shared, w: nat) returns (a: Action, t: Shared)
    requires w < |s.workers| && s.workers[w].Publishing? && s.outstanding > 0
    ensures Does(s, w, a, t) && !a.Waking? && !a.Failing?
  {
    hide Woken;
    var children := s.workers[w].children;
    var left := s.outstanding + |children| - 1;
    a := Returning;
    t := s.(queue := s.queue + children, outstanding := left,
            workers := (if left == 0 || children != [] then Woken(s.workers) else s.workers)[w := Top]);
  }

  /** As long as some worker has not left, some worker can take a step that needs nobody to wake it. An exchange has
      to fail only where the counter has moved since it was read, and then the next one need not. */
  lemma NoDeadlock(s: Shared, root: Place, w: nat) returns (v: nat, a: Action, t: Shared)
    requires Inv(s, root) && w < |s.workers| && !s.workers[w].Finished?
    ensures v < |s.workers| && Does(s, v, a, t) && !a.Waking?
    ensures a.Failing? ==> IsStale(s, v) && !IsStale(t, v)
  {
    v := w;
    if s.workers[w].Waiting? {
      v := WaitingMeansWork(s, root, w);
    }
    hide Does, Balanced, NobodySleepsOnWork, FewWorkers, FreshIds;
    match s.workers[v]
    case Processing(_, _, _, _, _) => a, t := BusyCanMove(s, v);
    case Publishing(_) =>
      ReturningIsOutstanding(s, root, v);
      a, t := ReturningCanMove(s, v);
    case _ => a, t := IdleCanMove(s, v);
  }

  // ---------- The result ----------

  lemma Cancels(a: multiset<Item>, b: multiset<Item>, x: Item)
    requires a + multiset{x} == b + multiset{x}
    ensures a == b
  {
    assert a == a + multiset{x} - multiset{x};
    assert b == b + multiset{x} - multiset{x};
  }

  lemma TakenFromBoth(a: seq<Item>, x: Item, front: seq<Item>, back: seq<Item>)
    requires multiset(a + [x]) == multiset(front + [x] + back)
    ensures multiset(a) == multiset(front + back)
  {
    Cancels(multiset(a), multiset(front) + multiset(back), x);
  }

  lemma PlusSwaps(a: Totals, b: Totals, c: Totals)
    ensures Plus(Plus(a, b), c) == Plus(Plus(a, c), b)
  {
  }

  lemma TotalsOfOne(x: Item)
    ensures TotalsOf([x]) == ItemTotals(x)
  {
    assert [x][..0] == [];
    PlusNothing(ItemTotals(x));
  }

  lemma TotalsAround(x: Item, front: seq<Item>, back: seq<Item>)
    ensures TotalsOf(front + [x] + back) == Plus(TotalsOf(front + back), ItemTotals(x))
  {
    hide TotalsOf, Plus, ItemTotals;
    TotalsOfOne(x);
    TotalsConcat(front, back);
    TotalsConcat(front + [x], back);
    TotalsConcat(front, [x]);
    PlusSwaps(TotalsOf(front), ItemTotals(x), TotalsOf(back));
  }

  lemma {:induction false} TotalsIgnoreOrder(a: seq<Item>, b: seq<Item>)
    requires multiset(a) == multiset(b)
    ensures TotalsOf(a) == TotalsOf(b)
  {
    if a == [] {
      assert |multiset(b)| == 0;
    } else {
      var n := |a| - 1;
      var x := a[n];
      assert a == a[..n] + [x];
      assert x in multiset(a) && x in b;
      var i :| 0 <= i < |b| && b[i] == x;
      var front, back := b[..i], b[i + 1..];
      assert b == front + [x] + back;
      TakenFromBoth(a[..n], x, front, back);
      TotalsIgnoreOrder(a[..n], front + back);
      TotalsAround(x, front, back);
    }
  }

  lemma {:induction false} NothingLeft(fs: FileSystem, policy: Policy, ws: seq<Worker>)
    requires forall v :: 0 <= v < |ws| ==> ws[v].Finished?
    ensures WorkersLoad(fs, policy, ws) == NONE
  {
    if ws != [] {
      hide Join, WorkerLoad;
      NothingLeft(fs, policy, ws[..|ws| - 1]);
      IdleHolds(fs, policy, ws[|ws| - 1]);
      JoinLaws(NONE, NONE, NONE);
    }
  }

  ghost predicate AllFinished(s: Shared) {
    forall w :: 0 <= w < |s.workers| ==> s.workers[w].Finished?
  }

  lemma FinishedHoldsNothing(s: Shared, root: Place)
    requires Inv(s, root) && AllFinished(s) && s.workers != []
    ensures AllLoad(s) == NONE
  {
    LeavingMeansDone(s, root, 0);
    NothingLeft(s.fs, s.policy, s.workers);
    EmptyLoads(s.fs, s.policy);
    JoinLaws(NONE, NONE, NONE);
    hide Inv, WorkersLoad, TasksLoad, Join;
  }

  lemma BooksClosed(s: Shared, root: Place)
    requires Balanced(s, root) && AllLoad(s) == NONE && s.skipped == multiset{}
    ensures s.popped == s.pushed && multiset(s.emitted) == multiset(Walk(s.fs, s.policy, root))
            && s.published == TotalsOf(s.emitted)
  {
    hide AllLoad, TotalsOf, Walk, Plus;
    PlusNothing(s.published);
    assert multiset(s.emitted) + multiset{} + multiset{} == multiset(s.emitted);
    assert s.popped + multiset{} == s.popped;
  }

  /** When all workers have left, every task was taken exactly once, and what was reported is what one thread reports,
      up to order. */
  lemma FinishedLikeOneThread(s: Shared, root: Place)
    requires Inv(s, root) && AllFinished(s) && s.workers != [] && !s.cancelled
    ensures s.popped == s.pushed && (forall id <- s.popped :: s.popped[id] == 1)
    ensures multiset(s.emitted) == multiset(Walk(s.fs, s.policy, root))
  {
    InvParts(s, root);
    hide Inv, AllLoad, TotalsOf, Walk, Balanced, Tiled;
    FinishedHoldsNothing(s, root);
    BooksClosed(s, root);
  }

  /** The published totals are those of the files one thread reports; the ids of files are 1 and up without a gap, and
      every other reported item, a directory, took one of the ids from 6 on. */
  lemma FinishedTotals(s: Shared, root: Place)
    requires Inv(s, root) && AllFinished(s) && s.workers != [] && !s.cancelled
    ensures s.published == TotalsOf(Walk(s.fs, s.policy, root))
    ensures Tiled(s.blocks, s.nextFile) && s.nextFile == 1 + s.published.files
    ensures s.nextDirectory == 6 + |s.emitted| - s.published.files
  {
    InvParts(s, root);
    hide Inv, AllLoad, TotalsOf, Walk, Balanced, Tiled;
    FinishedHoldsNothing(s, root);
    BooksClosed(s, root);
    TotalsIgnoreOrder(s.emitted, Walk(s.fs, s.policy, root));
  }

  lemma InvParts(s: Shared, root: Place)
    requires Inv(s, root)
    ensures Balanced(s, root) && FewWorkers(s) && FreshIds(s) && (!s.cancelled ==> s.skipped == multiset{})
  {
    hide Balanced, FewWorkers, FreshIds, NobodySleepsOnWork, InPlace;
  }

  lemma StepSameTree(s: Shared, t: Shared)
    requires Next(s, t)
    ensures SameTree(s, t) && (s.workers != [] ==> t.workers != [])
  {
    if t != s.(cancelled := true) {
      var w: nat, a: Action :| Does(s, w, a, t);
      if AtWork(a) {
        WorkStep(s, w, a, t);
        hide Does;
      } else if !Stirs(a) {
        IdleStep(s, w, a, t);
        hide Does;
      }
    }
  }

  lemma {:induction false} RunSameTree(states: seq<Shared>, root: Place, i: nat)
    requires IsRun(states, root) && i < |states|
    ensures SameTree(states[0], states[i]) && states[i].workers != []
  {
    hide Next;
    if i > 0 {
      RunSameTree(states, root, i - 1);
      assert Next(states[i - 1], states[i - 1 + 1]);
      StepSameTree(states[i - 1], states[i]);
    } else {
      assert states[0].workers == [Top];
    }
  }

  /** However the workers' steps interleave, a run that ends uncancelled reports what the walk of one thread reports. */
  lemma EveryInterleavingLikeOneThread(states: seq<Shared>, root: Place)
    requires IsRun(states, root) && AllFinished(states[|states| - 1]) && !states[|states| - 1].cancelled
    ensures var first, last := states[0], states[|states| - 1];
            && multiset(last.emitted) == multiset(Walk(first.fs, first.policy, root))
            && last.published == TotalsOf(Walk(first.fs, first.policy, root))
            && last.popped == last.pushed && (forall id <- last.popped :: last.popped[id] == 1)
            && Tiled(last.blocks, last.nextFile) && last.nextFile == 1 + last.published.files
  {
    RunKeeps(states, root, |states| - 1);
    RunSameTree(states, root, |states| - 1);
    hide IsRun, Walk, TotalsOf, Inv, Tiled;
    FinishedLikeOneThread(states[|states| - 1], root);
    FinishedTotals(states[|states| - 1], root);
  }

  /** A run that ends uncancelled reports exactly what can be reached; with different names in each listing, once. */
  lemma EveryEntryOnce(states: seq<Shared>, root: Place, x: Item)
    requires IsRun(states, root) && AllFinished(states[|states| - 1]) && !states[|states| - 1].cancelled
    ensures var first, last := states[0], states[|states| - 1];
            && (x in last.emitted <==>
                exists route, q :: Descends(first.fs, first.policy, root, route, q) && Listed(first.fs, q, x))
            && (WellNamed(first.fs) && x in last.emitted ==> multiset(last.emitted)[x] == 1)
  {
    var first, last := states[0], states[|states| - 1];
    hide Next, Init, TotalsOf, WellNamed, Descends, Listed, Tiled;
    EveryInterleavingLikeOneThread(states, root);
    ReportsExactly(first.fs, first.policy, root, x);
    var walk := Walk(first.fs, first.policy, root);
    assert x in last.emitted <==> x in multiset(last.emitted);
    assert x in walk <==> x in multiset(walk);
    if WellNamed(first.fs) {
      ReportedOnce(first.fs, first.policy, root, 0);
      EachItemOnce(walk, x);
    }
  }

  /** However the steps interleave: what is reported are the entries of the directories at the end of a trail. */
  lemma EmittedByTrail(states: seq<Shared>, root: Place, start: Spot, x: Item)
    requires IsRun(states, root) && AllFinished(states[|states| - 1]) && !states[|states| - 1].cancelled
    requires Tracks(states[0].policy, root) && StandsAt(root, start)
    ensures var first, last := states[0], states[|states| - 1];
            x in last.emitted <==>
            exists spots :: IsTrail(first.fs, first.policy != SkipAll, spots) && spots[0] == start
                            && IsReportedAt(first.fs, spots[|spots| - 1], x)
  {
    var first, last := states[0], states[|states| - 1];
    hide Next, Init, TotalsOf, Leads, IsReportedAt, Tracks, StandsAt, Walk, Tiled;
    EveryInterleavingLikeOneThread(states, root);
    ReportedByTrail(first.fs, first.policy, root, start, x);
    assert x in last.emitted <==> x in multiset(last.emitted);
    assert x in Walk(first.fs, first.policy, root) <==> x in multiset(Walk(first.fs, first.policy, root));
  }

  function FileCount(items: seq<Item>): nat {
    if items == [] then 0 else FileCount(items[..|items| - 1]) + if items[|items| - 1].FileAt? then 1 else 0
  }

  function ByteCount(items: seq<Item>): nat {
    if items == [] then 0
    else ByteCount(items[..|items| - 1]) + match items[|items| - 1] case FileAt(_, _, n) => n case DirectoryAt(_) => 0
  }

  lemma {:induction false} TotalsAreCounts(items: seq<Item>)
    ensures TotalsOf(items).files == FileCount(items) && TotalsOf(items).bytes == ByteCount(items)
  {
    if items != [] {
      TotalsAreCounts(items[..|items| - 1]);
    }
  }

  /** The published totals are the number of reported files and the sum of their sizes. */
  lemma PublishedAreCounts(states: seq<Shared>, root: Place)
    requires IsRun(states, root) && AllFinished(states[|states| - 1]) && !states[|states| - 1].cancelled
    ensures var last := states[|states| - 1];
            last.published.files == FileCount(last.emitted) && last.published.bytes == ByteCount(last.emitted)
  {
    var first, last := states[0], states[|states| - 1];
    hide Next, Init, TotalsOf, Walk, Tiled, FileCount, ByteCount;
    EveryInterleavingLikeOneThread(states, root);
    TotalsIgnoreOrder(last.emitted, Walk(first.fs, first.policy, root));
    TotalsAreCounts(last.emitted);
  }

  /** At no moment are there more workers than the limit allows. */
  lemma NeverTooManyWorkers(states: seq<Shared>, root: Place, i: nat)
    requires IsRun(states, root) && i < |states|
    ensures states[i].started == |states[i].workers| <= Max(states[i].limit, 1)
  {
    RunKeeps(states, root, i);
    hide IsRun;
    InvParts(states[i], root);
  }

  /** Every id below the next one lies in exactly one of the blocks. */
  lemma {:induction false} BlocksPartition(blocks: seq<(nat, nat)>, next: nat, id: nat)
    requires Tiled(blocks, next)
    ensures next >= 1
    ensures 1 <= id < next <==> exists i :: 0 <= i < |blocks| && blocks[i].0 <= id < blocks[i].0 + blocks[i].1
    ensures forall i, j :: 0 <= i < j < |blocks| ==> blocks[i].0 + blocks[i].1 <= blocks[j].0
    ensures forall i :: 0 <= i < |blocks| ==> blocks[i].0 + blocks[i].1 <= next
  {
    if blocks != [] {
      var n := |blocks| - 1;
      BlocksPartition(blocks[..n], blocks[n].0, id);
      assert forall i :: 0 <= i < n ==> blocks[..n][i] == blocks[i];
    }
  }
}
