/** What holds at every moment of every interleaving of the workers. */
module WorkerInvariants {
  import opened Basics
  import opened DirectoryWalk
  import opened WorkerProtocol

  // ---------- What a worker or a queue still holds ----------

  /** Tasks that count as outstanding, ids of tasks not yet taken, items not yet reported, totals not yet published. */
  datatype Load = Load(tasks: nat, ids: multiset<nat>, items: multiset<Item>, totals: Totals)

  const NONE := Load(0, multiset{}, multiset{}, ZERO)

  function Join(a: Load, b: Load): Load {
    Load(a.tasks + b.tasks, a.ids + b.ids, a.items + b.items, Plus(a.totals, b.totals))
  }

  ghost function TaskLoad(fs: FileSystem, policy: Policy, t: Task): Load {
    Load(1, multiset{t.id}, multiset(Walk(fs, policy, t.place)), ZERO)
  }

  ghost function TasksLoad(fs: FileSystem, policy: Policy, tasks: seq<Task>): Load {
    if tasks == [] then NONE
    else Join(TasksLoad(fs, policy, tasks[..|tasks| - 1]), TaskLoad(fs, policy, tasks[|tasks| - 1]))
  }

  /** What is still to come in a directory from its `i`th entry on. */
  ghost function Rest(fs: FileSystem, policy: Policy, p: Place, i: nat): multiset<Item> {
    if i <= |Listing(fs, p)| then multiset(WalkFrom(fs, policy, p, i)) else multiset{}
  }

  /** The children a worker has found do not count as outstanding until it publishes them. */
  ghost function WorkerLoad(fs: FileSystem, policy: Policy, w: Worker): Load {
    match w
    case Processing(task, index, pending, children, unpublished) =>
      var found := TasksLoad(fs, policy, children);
      Load(1, found.ids, multiset(ItemsOf(task.place, pending)) + Rest(fs, policy, task.place, index) + found.items,
           unpublished)
    case Publishing(children) => TasksLoad(fs, policy, children).(tasks := 1)
    case _ => NONE
  }

  ghost function WorkersLoad(fs: FileSystem, policy: Policy, ws: seq<Worker>): Load {
    if ws == [] then NONE else Join(WorkersLoad(fs, policy, ws[..|ws| - 1]), WorkerLoad(fs, policy, ws[|ws| - 1]))
  }

  ghost function AllLoad(s: Shared): Load {
    Join(WorkersLoad(s.fs, s.policy, s.workers), TasksLoad(s.fs, s.policy, s.queue))
  }

  lemma JoinSwaps(a: Load, b: Load)
    ensures Join(a, b) == Join(b, a)
  {
  }

  lemma JoinRegroups(a: Load, b: Load, c: Load)
    ensures Join(Join(a, b), c) == Join(a, Join(b, c))
  {
    assert a.ids + b.ids + c.ids == a.ids + (b.ids + c.ids);
    assert a.items + b.items + c.items == a.items + (b.items + c.items);
  }

  lemma JoinNothing(a: Load)
    ensures Join(a, NONE) == a
  {
  }

  lemma JoinLaws(a: Load, b: Load, c: Load)
    ensures Join(a, b) == Join(b, a) && Join(Join(a, b), c) == Join(a, Join(b, c))
    ensures Join(Join(a, b), c) == Join(Join(a, c), b)
    ensures Join(a, NONE) == a == Join(NONE, a)
  {
    hide Join;
    JoinSwaps(a, b);
    JoinSwaps(b, c);
    JoinRegroups(a, b, c);
    JoinRegroups(a, c, b);
    JoinNothing(a);
    JoinSwaps(a, NONE);
  }

  /** A step of one worker changes the load of all by what it changes for that one. */
  lemma {:induction false} WorkersLoadUpdate(fs: FileSystem, policy: Policy, ws: seq<Worker>, i: nat, w: Worker)
    requires i < |ws|
    ensures Join(WorkersLoad(fs, policy, ws[i := w]), WorkerLoad(fs, policy, ws[i])) ==
            Join(WorkersLoad(fs, policy, ws), WorkerLoad(fs, policy, w))
  {
    hide WorkerLoad, Join;
    var n := |ws| - 1;
    var after := ws[i := w];
    var one, other := WorkerLoad(fs, policy, ws[i]), WorkerLoad(fs, policy, w);
    if i == n {
      assert after[..n] == ws[..n];
      JoinLaws(WorkersLoad(fs, policy, ws[..n]), other, one);
    } else {
      assert after[..n] == ws[..n][i := w];
      WorkersLoadUpdate(fs, policy, ws[..n], i, w);
      JoinLaws(WorkersLoad(fs, policy, after[..n]), WorkerLoad(fs, policy, ws[n]), one);
      JoinLaws(WorkersLoad(fs, policy, ws[..n]), WorkerLoad(fs, policy, ws[n]), other);
    }
  }

  lemma WorkersLoadMore(fs: FileSystem, policy: Policy, ws: seq<Worker>, w: Worker)
    ensures WorkersLoad(fs, policy, ws + [w]) == Join(WorkersLoad(fs, policy, ws), WorkerLoad(fs, policy, w))
  {
    hide Join, WorkerLoad;
    assert (ws + [w])[..|ws|] == ws;
  }

  lemma WakingChangesNoLoad(fs: FileSystem, policy: Policy, w: Worker)
    requires w.Waiting?
    ensures WorkerLoad(fs, policy, w) == WorkerLoad(fs, policy, WantTask)
  {
  }

  lemma {:induction false} WorkersLoadWoken(fs: FileSystem, policy: Policy, ws: seq<Worker>)
    ensures WorkersLoad(fs, policy, Woken(ws)) == WorkersLoad(fs, policy, ws)
  {
    hide Join, WorkerLoad;
    if ws != [] {
      var n := |ws| - 1;
      WorkersLoadWoken(fs, policy, ws[..n]);
      assert Woken(ws)[..n] == Woken(ws[..n]);
      if ws[n].Waiting? {
        WakingChangesNoLoad(fs, policy, ws[n]);
      }
    }
  }

  lemma {:induction false} TasksLoadConcat(fs: FileSystem, policy: Policy, a: seq<Task>, b: seq<Task>)
    ensures TasksLoad(fs, policy, a + b) == Join(TasksLoad(fs, policy, a), TasksLoad(fs, policy, b))
  {
    hide TaskLoad, Join;
    if b == [] {
      assert a + b == a;
      JoinLaws(TasksLoad(fs, policy, a), NONE, NONE);
    } else {
      var n := |b| - 1;
      assert (a + b)[..|a| + n] == a + b[..n];
      TasksLoadConcat(fs, policy, a, b[..n]);
      JoinLaws(TasksLoad(fs, policy, a), TasksLoad(fs, policy, b[..n]), TaskLoad(fs, policy, b[n]));
    }
  }

  lemma {:induction false} TasksLoadCounts(fs: FileSystem, policy: Policy, tasks: seq<Task>)
    ensures TasksLoad(fs, policy, tasks).tasks == |tasks|
    decreases |tasks|
  {
    hide Join, TaskLoad;
    if tasks != [] {
      var n := |tasks| - 1;
      TasksLoadCounts(fs, policy, tasks[..n]);
      OneTaskCounts(fs, policy, tasks[n]);
      JoinCounts(TasksLoad(fs, policy, tasks[..n]), TaskLoad(fs, policy, tasks[n]));
    }
  }

  lemma {:induction false} TasksLoadUnpublished(fs: FileSystem, policy: Policy, tasks: seq<Task>)
    ensures TasksLoad(fs, policy, tasks).totals == ZERO
    decreases |tasks|
  {
    hide Join, TaskLoad, Plus;
    if tasks != [] {
      var n := |tasks| - 1;
      TasksLoadUnpublished(fs, policy, tasks[..n]);
      OneTaskCounts(fs, policy, tasks[n]);
      JoinCounts(TasksLoad(fs, policy, tasks[..n]), TaskLoad(fs, policy, tasks[n]));
      PlusNothing(ZERO);
    }
  }

  lemma PlusNothing(a: Totals)
    ensures Plus(a, ZERO) == a == Plus(ZERO, a)
  {
  }

  lemma OneTaskCounts(fs: FileSystem, policy: Policy, t: Task)
    ensures TaskLoad(fs, policy, t).tasks == 1 && TaskLoad(fs, policy, t).totals == ZERO
    ensures TaskLoad(fs, policy, t).ids == multiset{t.id}
  {
  }

  lemma JoinCounts(a: Load, b: Load)
    ensures Join(a, b).tasks == a.tasks + b.tasks && Join(a, b).totals == Plus(a.totals, b.totals)
  {
  }

  lemma {:induction false} TotalsConcat(a: seq<Item>, b: seq<Item>)
    ensures TotalsOf(a + b) == Plus(TotalsOf(a), TotalsOf(b))
  {
    if b == [] {
      assert a + b == a;
    } else {
      var n := |b| - 1;
      assert (a + b)[..|a| + n] == a + b[..n];
      TotalsConcat(a, b[..n]);
    }
  }

  // ---------- The invariant ----------

  /** Nothing is lost and nothing is counted twice. */
  ghost predicate Balanced(s: Shared, root: Place) {
    var load := AllLoad(s);
    && s.outstanding == load.tasks
    && s.pushed == s.popped + load.ids
    && multiset(s.emitted) + s.skipped + load.items == multiset(Walk(s.fs, s.policy, root))
    && Plus(s.published, load.totals) == TotalsOf(s.emitted)
  }

  /** A waiter nobody has notified means that nothing is queued and that somebody still works; a worker leaves only
      when no work is left. */
  ghost predicate NobodySleepsOnWork(s: Shared) {
    && (forall w :: 0 <= w < |s.workers| && s.workers[w].Waiting? ==> s.queue == [] && s.outstanding > 0)
    && (forall w :: 0 <= w < |s.workers| && s.workers[w].Finished? ==> s.outstanding == 0)
  }

  predicate WithinLimit(limit: nat, w: Worker) {
    match w
    case Sized(desired) => desired <= Max(limit, 1)
    case Deciding(desired, _) => desired <= Max(limit, 1)
    case _ => true
  }

  ghost predicate FewWorkers(s: Shared) {
    && s.started == |s.workers| <= Max(s.limit, 1)
    && forall w :: 0 <= w < |s.workers| ==> WithinLimit(s.limit, s.workers[w])
  }

  predicate InPlace(fs: FileSystem, w: Worker) {
    w.Processing? ==> w.index <= |Listing(fs, w.task.place)| && |w.pending| <= BATCH
                      && (w.unpublished.files == 0 ==> w.unpublished == ZERO) && forall f <- w.pending :: f.FileEntry?
  }

  /** The blocks of file ids follow each other without gap or overlap. */
  predicate Tiled(blocks: seq<(nat, nat)>, next: nat) {
    if blocks == [] then next == 1
    else
      var last := blocks[|blocks| - 1];
      last.0 + last.1 == next && last.1 > 0 && Tiled(blocks[..|blocks| - 1], last.0)
  }

  /** Every reported directory took one id, every reported file one of its block. */
  ghost predicate FreshIds(s: Shared) {
    && (forall id <- s.pushed :: s.pushed[id] == 1 && id < s.nextDirectory)
    && Tiled(s.blocks, s.nextFile) && s.nextFile == 1 + TotalsOf(s.emitted).files
    && s.nextDirectory == 6 + |s.emitted| - TotalsOf(s.emitted).files
  }

  ghost predicate Inv(s: Shared, root: Place) {
    && Balanced(s, root) && NobodySleepsOnWork(s) && FewWorkers(s) && FreshIds(s)
    && (forall w :: 0 <= w < |s.workers| ==> InPlace(s.fs, s.workers[w]))
    && (!s.cancelled ==> s.skipped == multiset{})
  }
}
