/** The guarantees of the shared walk, for every interleaving. */
module WorkerLaws {
  import opened Basics
  import opened DirectoryWalk
  import opened WorkerProtocol
  import opened WorkerInvariants
  import opened WorkerSteps

  // ---------- Every step keeps the invariant ----------

  /** A step that touches neither the queue nor any other worker. */
  ghost predicate Local(s: Shared, w: nat, t: Shared) {
    && w < |s.workers| == |t.workers| && t.workers == s.workers[w := t.workers[w]]
    && t.queue == s.queue && t.outstanding == s.outstanding && t.started == s.started && t.limit == s.limit
       && SameTree(s, t)
  }

  predicate Stirs(a: Action) {
    a.Starting? || a.Taking? || a.Returning?
  }

  predicate AtWork(a: Action) {
    a.AtFile? || a.AtDirectory? || a.Flushing? || a.PublishingTotals? || a.Ending? || a.Cutting?
  }

  lemma IdleStep(s: Shared, w: nat, a: Action, t: Shared)
    requires Does(s, w, a, t) && !Stirs(a) && !AtWork(a)
    ensures Local(s, w, t) && t == s.(workers := t.workers)
    ensures !s.workers[w].Processing? && !s.workers[w].Publishing? && !t.workers[w].Processing?
            && !t.workers[w].Publishing?
    ensures t.workers[w].Waiting? ==> s.queue == [] && s.outstanding > 0
    ensures t.workers[w].Finished? ==> s.outstanding == 0
    ensures WithinLimit(s.limit, s.workers[w]) ==> WithinLimit(s.limit, t.workers[w])
  {
  }

  lemma WorkStep(s: Shared, w: nat, a: Action, t: Shared)
    requires Does(s, w, a, t) && AtWork(a)
    ensures Local(s, w, t) && s.workers[w].Processing? && (t.workers[w].Processing? || t.workers[w].Publishing?)
  {
    hide Listing, Below, WalkFrom, FlushDue, ItemsOf, TotalsOf;
  }

  lemma WorkBalanced(s: Shared, w: nat, a: Action, t: Shared, root: Place)
    requires Balanced(s, root) && Does(s, w, a, t) && AtWork(a) && InPlace(s.fs, s.workers[w])
    ensures Balanced(t, root)
  {
    hide Balanced, InPlace, ReadFile, ReadDirectory, Flush, PublishTotals, EndDirectory, CutShort;
    match a
    case AtFile => ReadFileBalanced(s, w, t, root);
    case AtDirectory => ReadDirectoryBalanced(s, w, t, root);
    case Flushing => FlushBalanced(s, w, t, root);
    case PublishingTotals => PublishTotalsBalanced(s, w, t, root);
    case Ending => EndBalanced(s, w, t, root);
    case Cutting => CutBalanced(s, w, t, root);
  }

  lemma IdleBalanced(s: Shared, w: nat, a: Action, t: Shared, root: Place)
    requires Balanced(s, root) && Does(s, w, a, t) && !Stirs(a) && !AtWork(a)
    ensures Balanced(t, root)
  {
    IdleStep(s, w, a, t);
    hide Balanced, WorkerLoad, Does;
    IdleHolds(s.fs, s.policy, s.workers[w]);
    IdleHolds(s.fs, s.policy, t.workers[w]);
    QuietStep(s, t, root, w, t.workers[w]);
  }

  lemma StepBalanced(s: Shared, w: nat, a: Action, t: Shared, root: Place)
    requires Balanced(s, root) && Does(s, w, a, t) && InPlace(s.fs, s.workers[w])
    ensures Balanced(t, root)
  {
    hide Balanced, InPlace, StartWorker, TakeTask, Publish;
    if AtWork(a) {
      WorkBalanced(s, w, a, t, root);
    } else if a.Starting? {
      StartBalanced(s, w, t, root);
    } else if a.Taking? {
      TakeBalanced(s, w, t, root);
    } else if a.Returning? {
      PublishBalanced(s, w, t, root);
    } else {
      IdleBalanced(s, w, a, t, root);
    }
  }

  lemma StepWakes(s: Shared, w: nat, a: Action, t: Shared)
    requires NobodySleepsOnWork(s) && Does(s, w, a, t)
    ensures NobodySleepsOnWork(t)
  {
    if AtWork(a) {
      WorkStep(s, w, a, t);
      hide Does;
    } else if !Stirs(a) {
      IdleStep(s, w, a, t);
      hide Does;
    } else {
      StirWakes(s, w, a, t);
      hide Does, NobodySleepsOnWork;
    }
  }

  lemma StirWakes(s: Shared, w: nat, a: Action, t: Shared)
    requires NobodySleepsOnWork(s) && Does(s, w, a, t) && Stirs(a)
    ensures NobodySleepsOnWork(t)
  {
    match a
    case Starting =>
      assert forall v :: 0 <= v < |s.workers| && v != w ==> t.workers[v] == s.workers[v];
    case Taking =>
      assert forall v :: 0 <= v < |s.workers| ==> !s.workers[v].Waiting?;
    case Returning =>
      assert forall v :: 0 <= v < |s.workers| ==> !s.workers[v].Finished?;
  }

  lemma StepStaysWithinLimit(s: Shared, w: nat, a: Action, t: Shared)
    requires FewWorkers(s) && Does(s, w, a, t)
    ensures FewWorkers(t) && t.limit == s.limit
  {
    if AtWork(a) {
      WorkStep(s, w, a, t);
      hide Does;
    } else if !Stirs(a) {
      IdleStep(s, w, a, t);
      hide Does;
    } else {
      hide StartWorker, TakeTask, Publish, FewWorkers;
      match a
      case Starting => StartStaysWithinLimit(s, w, t);
      case Taking => TakeStaysWithinLimit(s, w, t);
      case Returning => PublishStaysWithinLimit(s, w, t);
    }
  }

  lemma StartStaysWithinLimit(s: Shared, w: nat, t: Shared)
    requires FewWorkers(s) && w < |s.workers| && StartWorker(s, w, t)
    ensures FewWorkers(t) && t.limit == s.limit
  {
    forall v | 0 <= v < |t.workers| ensures WithinLimit(t.limit, t.workers[v]) {
      assert v < |s.workers| ==> WithinLimit(s.limit, s.workers[v]);
    }
  }

  lemma TakeStaysWithinLimit(s: Shared, w: nat, t: Shared)
    requires FewWorkers(s) && w < |s.workers| && TakeTask(s, w, t)
    ensures FewWorkers(t) && t.limit == s.limit
  {
  }

  lemma PublishStaysWithinLimit(s: Shared, w: nat, t: Shared)
    requires FewWorkers(s) && w < |s.workers| && Publish(s, w, t)
    ensures FewWorkers(t) && t.limit == s.limit
  {
  }

  lemma {:induction false} FilesCount(p: Place, files: seq<Entry>)
    requires forall f <- files :: f.FileEntry?
    ensures TotalsOf(ItemsOf(p, files)).files == |files|
  {
    if files != [] {
      var n := |files| - 1;
      assert ItemsOf(p, files)[..n] == ItemsOf(p, files[..n]);
      FilesCount(p, files[..n]);
    }
  }

  ghost predicate AllInPlace(s: Shared) {
    forall v :: 0 <= v < |s.workers| ==> InPlace(s.fs, s.workers[v])
  }

  lemma StepStaysInPlace(s: Shared, w: nat, a: Action, t: Shared)
    requires AllInPlace(s) && Does(s, w, a, t)
    ensures AllInPlace(t)
  {
    if AtWork(a) {
      WorkStep(s, w, a, t);
      assert InPlace(s.fs, s.workers[w]);
      WorkStaysInPlace(s, w, a, t);
      hide Does, InPlace;
    } else if !Stirs(a) {
      IdleStep(s, w, a, t);
      hide Does;
    } else {
      hide Listing;
    }
  }

  lemma WorkStaysInPlace(s: Shared, w: nat, a: Action, t: Shared)
    requires Does(s, w, a, t) && AtWork(a) && InPlace(s.fs, s.workers[w])
    ensures w < |t.workers| && InPlace(t.fs, t.workers[w])
  {
    hide Listing, Below, WalkFrom, ItemsOf, TotalsOf;
    if a.Flushing? {
      var p := s.workers[w];
      FilesCount(p.task.place, p.pending);
    }
  }

  lemma StepIdsFresh(s: Shared, w: nat, a: Action, t: Shared)
    requires FreshIds(s) && Does(s, w, a, t) && AllInPlace(s)
    ensures FreshIds(t)
  {
    match a
    case Flushing => FlushIdsFresh(s, w, t);
    case AtDirectory => DirectoryIdsFresh(s, w, t);
    case _ => OtherIdsFresh(s, w, a, t);
  }

  lemma OtherIdsFresh(s: Shared, w: nat, a: Action, t: Shared)
    requires FreshIds(s) && Does(s, w, a, t) && !a.Flushing? && !a.AtDirectory?
    ensures FreshIds(t)
  {
    hide TotalsOf, Tiled, Listing, WalkFrom;
    assert t.pushed == s.pushed && t.blocks == s.blocks && t.nextFile == s.nextFile && t.emitted == s.emitted
           && t.nextDirectory == s.nextDirectory;
  }

  lemma FlushIdsFresh(s: Shared, w: nat, t: Shared)
    requires FreshIds(s) && w < |s.workers| && Flush(s, w, t) && InPlace(s.fs, s.workers[w])
    ensures FreshIds(t)
  {
    var p := s.workers[w];
    var items := ItemsOf(p.task.place, p.pending);
    hide Listing, TotalsOf, ItemsOf;
    FilesCount(p.task.place, p.pending);
    TotalsConcat(s.emitted, items);
    assert t.blocks[..|s.blocks|] == s.blocks;
  }

  lemma DirectoryIdsFresh(s: Shared, w: nat, t: Shared)
    requires FreshIds(s) && w < |s.workers| && ReadDirectory(s, w, t)
    ensures FreshIds(t)
  {
    hide Listing, TotalsOf, Tiled, Below, ItemOf;
    var p := s.workers[w];
    var entry := Entries(s, p.task.place)[p.index];
    DirectoryIsNoFile(p.task.place, entry, s.emitted);
    assert t.emitted == s.emitted + [ItemOf(p.task.place, entry)] && t.nextDirectory == s.nextDirectory + 1;
    assert t.pushed == s.pushed || t.pushed == s.pushed + multiset{s.nextDirectory};
    IdStaysFresh(s.pushed, s.nextDirectory);
  }

  lemma IdStaysFresh(pushed: multiset<nat>, next: nat)
    requires forall id <- pushed :: pushed[id] == 1 && id < next
    ensures forall id <- pushed + multiset{next} :: (pushed + multiset{next})[id] == 1 && id < next + 1
  {
    assert next !in pushed;
  }

  lemma StepKeeps(s: Shared, t: Shared, root: Place)
    requires Inv(s, root) && Next(s, t)
    ensures Inv(t, root)
  {
    if t == s.(cancelled := true) {
      CancelKeeps(s, root);
    } else {
      var w: nat, a: Action :| Does(s, w, a, t);
      assert AllInPlace(s);
      StepBalanced(s, w, a, t, root);
      StepWakes(s, w, a, t);
      StepStaysWithinLimit(s, w, a, t);
      StepIdsFresh(s, w, a, t);
      StepStaysInPlace(s, w, a, t);
      StepCutsWhenCancelled(s, w, a, t);
      hide Does, Next, Balanced, NobodySleepsOnWork, FewWorkers, FreshIds, InPlace;
      assert AllInPlace(t);
    }
  }

  lemma StepCutsWhenCancelled(s: Shared, w: nat, a: Action, t: Shared)
    requires Does(s, w, a, t) && (!s.cancelled ==> s.skipped == multiset{})
    ensures !t.cancelled ==> t.skipped == multiset{}
  {
    hide Listing, WalkFrom, TotalsOf, ItemsOf, Below;
  }

  lemma CancelKeeps(s: Shared, root: Place)
    requires Inv(s, root)
    ensures Inv(s.(cancelled := true), root)
  {
    hide Join, WorkersLoad, TasksLoad, TotalsOf, Walk, Tiled;
    assert AllLoad(s.(cancelled := true)) == AllLoad(s);
  }

  lemma InitKeeps(s: Shared, root: Place)
    requires Init(s, root)
    ensures Inv(s, root)
  {
    hide WorkersLoad, TasksLoad, TaskLoad, Join, WorkerLoad, Walk, Balanced;
    var task := Task(root, 5);
    OneTaskCounts(s.fs, s.policy, task);
    OneTaskItems(s.fs, s.policy, task);
    FirstLoad(s.fs, s.policy, task);
    JoinLaws(TaskLoad(s.fs, s.policy, task), NONE, NONE);
    assert AllLoad(s) == TaskLoad(s.fs, s.policy, task);
    InitBalances(s, root, AllLoad(s));
  }

  lemma InitBalances(s: Shared, root: Place, load: Load)
    requires Init(s, root) && load == AllLoad(s) && load.tasks == 1 && load.ids == multiset{5} && load.totals == ZERO
    requires load.items == multiset(Walk(s.fs, s.policy, root))
    ensures Balanced(s, root)
  {
    hide AllLoad, Walk, Plus;
    PlusNothing(ZERO);
  }

  lemma OneTaskItems(fs: FileSystem, policy: Policy, task: Task)
    ensures TaskLoad(fs, policy, task).items == multiset(Walk(fs, policy, task.place))
  {
  }

  lemma EmptyLoads(fs: FileSystem, policy: Policy)
    ensures WorkersLoad(fs, policy, []) == NONE && TasksLoad(fs, policy, []) == NONE
  {
  }

  lemma FirstLoad(fs: FileSystem, policy: Policy, task: Task)
    ensures WorkersLoad(fs, policy, [Top]) == NONE && TasksLoad(fs, policy, [task]) == TaskLoad(fs, policy, task)
  {
    hide Join, WorkerLoad, WorkersLoad, TasksLoad, TaskLoad;
    EmptyLoads(fs, policy);
    WorkersLoadMore(fs, policy, [], Top);
    IdleHolds(fs, policy, Top);
    JoinLaws(NONE, NONE, NONE);
    QueueEnds(fs, policy, [task]);
    JoinLaws(TaskLoad(fs, policy, task), NONE, NONE);
    assert [] + [Top] == [Top] && [task][..|[task]| - 1] == [];
  }

  ghost predicate IsRun(states: seq<Shared>, root: Place) {
    states != [] && Init(states[0], root) && forall i :: 0 <= i < |states| - 1 ==> Next(states[i], states[i + 1])
  }

  /** The invariant holds at every moment of every run. */
  lemma {:induction false} RunKeeps(states: seq<Shared>, root: Place, i: nat)
    requires IsRun(states, root) && i < |states|
    ensures Inv(states[i], root)
  {
    hide Next, Init, Inv;
    if i == 0 {
      InitKeeps(states[0], root);
    } else {
      RunKeeps(states, root, i - 1);
      assert Next(states[i - 1], states[i - 1 + 1]);
      StepKeeps(states[i - 1], states[i], root);
    }
  }
}
