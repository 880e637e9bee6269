/** Why the shared walk ends: every step but waking up alone and failing to start a worker brings the end nearer. */
module WorkerProgress {
  import opened Basics
  import opened DirectoryWalk
  import opened WorkerProtocol
  import opened WorkerInvariants
  import opened WorkerSteps
  import opened WorkerLaws
  import opened SharedWalk

  // ---------- How much there is still to do ----------

  /** The steps that one entry can cost: it may become a task, and publishing that may wake every worker. */
  function PerItem(limit: nat): nat {
    Max(limit, 1) + 7
  }

  ghost function TaskEffort(fs: FileSystem, policy: Policy, c: nat, t: Task): nat
    requires c >= 7
  {
    c - 1 + c * |Walk(fs, policy, t.place)|
  }

  ghost function TasksEffort(fs: FileSystem, policy: Policy, c: nat, tasks: seq<Task>): nat
    requires c >= 7
  {
    if tasks == [] then 0
    else TasksEffort(fs, policy, c, tasks[..|tasks| - 1]) + TaskEffort(fs, policy, c, tasks[|tasks| - 1])
  }

  /** How many items are still to be read below a directory from its `i`th entry on. */
  ghost function Unread(fs: FileSystem, policy: Policy, p: Place, i: nat): nat {
    if i <= |Listing(fs, p)| then |WalkFrom(fs, policy, p, i)| else 0
  }

  ghost function WorkerEffort(fs: FileSystem, policy: Policy, c: nat, w: Worker): nat
    requires c >= 7
  {
    match w
    case Top => 4
    case Sized(_) => 3
    case Deciding(_, _) => 2
    case WantTask => 1
    case Waiting => 0
    case Finished => 0
    case Processing(task, index, pending, children, unpublished) =>
      c - 1 + c * Unread(fs, policy, task.place, index) + 2 * |pending| + (if unpublished.files > 0 then 1 else 0)
      + TasksEffort(fs, policy, c, children)
    case Publishing(children) => c - 2 + TasksEffort(fs, policy, c, children)
  }

  ghost function WorkersEffort(fs: FileSystem, policy: Policy, c: nat, ws: seq<Worker>): nat
    requires c >= 7
  {
    if ws == [] then 0
    else WorkersEffort(fs, policy, c, ws[..|ws| - 1]) + WorkerEffort(fs, policy, c, ws[|ws| - 1])
  }

  /** A bound on the steps still to come, wakings and failed exchanges aside. */
  ghost function Effort(s: Shared): nat
    requires FewWorkers(s)
  {
    var c := PerItem(s.limit);
    5 * (Max(s.limit, 1) - s.started) + WorkersEffort(s.fs, s.policy, c, s.workers)
    + TasksEffort(s.fs, s.policy, c, s.queue)
  }

  lemma {:induction false} EffortUpdate(fs: FileSystem, policy: Policy, c: nat, ws: seq<Worker>, i: nat, w: Worker)
    requires c >= 7 && i < |ws|
    ensures WorkersEffort(fs, policy, c, ws[i := w]) ==
            WorkersEffort(fs, policy, c, ws) - WorkerEffort(fs, policy, c, ws[i]) + WorkerEffort(fs, policy, c, w)
  {
    hide WorkerEffort;
    var n := |ws| - 1;
    if i == n {
      assert ws[i := w][..n] == ws[..n];
    } else {
      assert ws[i := w][..n] == ws[..n][i := w];
      EffortUpdate(fs, policy, c, ws[..n], i, w);
    }
  }

  lemma EffortMore(fs: FileSystem, policy: Policy, c: nat, ws: seq<Worker>, w: Worker)
    requires c >= 7
    ensures WorkersEffort(fs, policy, c, ws + [w]) == WorkersEffort(fs, policy, c, ws) + WorkerEffort(fs, policy, c, w)
  {
    hide WorkerEffort;
    assert (ws + [w])[..|ws|] == ws;
  }

  /** Waking everybody costs each worker one step at most. */
  lemma {:induction false} EffortWoken(fs: FileSystem, policy: Policy, c: nat, ws: seq<Worker>)
    requires c >= 7
    ensures WorkersEffort(fs, policy, c, Woken(ws)) <= WorkersEffort(fs, policy, c, ws) + |ws|
  {
    if ws != [] {
      var n := |ws| - 1;
      EffortWoken(fs, policy, c, ws[..n]);
      assert Woken(ws)[..n] == Woken(ws[..n]);
      hide TasksEffort, Unread;
      assert WorkerEffort(fs, policy, c, Woken(ws)[n]) <= WorkerEffort(fs, policy, c, ws[n]) + 1;
    }
  }

  lemma {:induction false} TasksEffortConcat(fs: FileSystem, policy: Policy, c: nat, a: seq<Task>, b: seq<Task>)
    requires c >= 7
    ensures TasksEffort(fs, policy, c, a + b) == TasksEffort(fs, policy, c, a) + TasksEffort(fs, policy, c, b)
  {
    hide TaskEffort;
    if b == [] {
      assert a + b == a;
    } else {
      var n := |b| - 1;
      assert (a + b)[..|a| + n] == a + b[..n];
      TasksEffortConcat(fs, policy, c, a, b[..n]);
    }
  }

  lemma TasksEffortMore(fs: FileSystem, policy: Policy, c: nat, a: seq<Task>, t: Task)
    requires c >= 7
    ensures TasksEffort(fs, policy, c, a + [t]) == TasksEffort(fs, policy, c, a) + TaskEffort(fs, policy, c, t)
  {
    hide TaskEffort;
    assert (a + [t])[..|a|] == a;
  }

  lemma Distributes(c: nat, a: nat, b: nat)
    ensures c * (1 + a + b) == c + c * a + c * b
  {
  }

  lemma UnreadNext(fs: FileSystem, policy: Policy, p: Place, i: nat, c: nat)
    requires i < |Listing(fs, p)|
    ensures c * Unread(fs, policy, p, i) == c + c * |WalkEntry(fs, policy, p, i)| + c * Unread(fs, policy, p, i + 1)
    ensures c * |WalkEntry(fs, policy, p, i)| >= 0 && c * Unread(fs, policy, p, i + 1) >= 0
  {
    hide WalkEntry;
    Distributes(c, |WalkEntry(fs, policy, p, i)|, Unread(fs, policy, p, i + 1));
  }

  lemma NothingUnread(fs: FileSystem, policy: Policy, p: Place)
    ensures Unread(fs, policy, p, |Listing(fs, p)|) == 0
  {
  }

  // ---------- The steps of a worker at a task ----------

  lemma ProcessingEffort(fs: FileSystem, policy: Policy, c: nat, p: Worker)
    requires c >= 7 && p.Processing?
    ensures WorkerEffort(fs, policy, c, p) ==
            c - 1 + c * Unread(fs, policy, p.task.place, p.index) + 2 * |p.pending|
              + (if p.unpublished.files > 0 then 1 else 0)
            + TasksEffort(fs, policy, c, p.children)
  {
  }

  lemma FileEffort(s: Shared, w: nat, t: Shared, c: nat)
    requires c >= 7 && w < |s.workers| && ReadFile(s, w, t)
    ensures WorkerEffort(s.fs, s.policy, c, t.workers[w]) < WorkerEffort(s.fs, s.policy, c, s.workers[w])
  {
    var p := s.workers[w];
    UnreadNext(s.fs, s.policy, p.task.place, p.index, c);
    ProcessingEffort(s.fs, s.policy, c, p);
    ProcessingEffort(s.fs, s.policy, c, t.workers[w]);
    hide WorkerEffort, TasksEffort, Unread, Listing;
  }

  lemma DirectoryEffort(s: Shared, w: nat, t: Shared, c: nat)
    requires c >= 7 && w < |s.workers| && ReadDirectory(s, w, t)
    ensures WorkerEffort(s.fs, s.policy, c, t.workers[w]) < WorkerEffort(s.fs, s.policy, c, s.workers[w])
  {
    var p := s.workers[w];
    var entry := Entries(s, p.task.place)[p.index];
    UnreadNext(s.fs, s.policy, p.task.place, p.index, c);
    WalkBelow(s.fs, s.policy, p.task.place, p.index);
    ProcessingEffort(s.fs, s.policy, c, p);
    ProcessingEffort(s.fs, s.policy, c, t.workers[w]);
    hide WorkerEffort, TasksEffort, Unread, Listing, Below, Walk, WalkEntry, ItemOf;
    match Below(s.policy, p.task.place, entry)
    case None =>
    case Some(place) => TasksEffortMore(s.fs, s.policy, c, p.children, Task(place, s.nextDirectory));
  }

  lemma OtherWorkEffort(s: Shared, w: nat, a: Action, t: Shared, c: nat)
    requires c >= 7 && Does(s, w, a, t) && (a.Flushing? || a.PublishingTotals? || a.Ending?)
    ensures w < |t.workers|
    ensures WorkerEffort(s.fs, s.policy, c, t.workers[w]) < WorkerEffort(s.fs, s.policy, c, s.workers[w])
  {
    var p := s.workers[w];
    ProcessingEffort(s.fs, s.policy, c, p);
    NothingUnread(s.fs, s.policy, p.task.place);
    if t.workers[w].Processing? {
      ProcessingEffort(s.fs, s.policy, c, t.workers[w]);
    }
    hide TasksEffort, Unread, Listing, TotalsOf, ItemsOf;
  }

  lemma CutEffort(s: Shared, w: nat, t: Shared, c: nat)
    requires c >= 7 && w < |s.workers| && CutShort(s, w, t)
    ensures WorkerEffort(s.fs, s.policy, c, t.workers[w]) < WorkerEffort(s.fs, s.policy, c, s.workers[w])
  {
    var p := s.workers[w];
    UnreadNext(s.fs, s.policy, p.task.place, p.index, c);
    NothingUnread(s.fs, s.policy, p.task.place);
    ProcessingEffort(s.fs, s.policy, c, p);
    ProcessingEffort(s.fs, s.policy, c, t.workers[w]);
    hide WorkerEffort, TasksEffort, Unread, Listing, WalkFrom;
  }

  lemma WorkEffort(s: Shared, w: nat, a: Action, t: Shared, c: nat)
    requires c >= 7 && Does(s, w, a, t) && AtWork(a)
    ensures w < |t.workers|
    ensures WorkerEffort(s.fs, s.policy, c, t.workers[w]) < WorkerEffort(s.fs, s.policy, c, s.workers[w])
  {
    WorkStep(s, w, a, t);
    hide WorkerEffort, ReadFile, ReadDirectory, CutShort, Flush, PublishTotals, EndDirectory;
    match a
    case AtFile => FileEffort(s, w, t, c);
    case AtDirectory => DirectoryEffort(s, w, t, c);
    case Cutting => CutEffort(s, w, t, c);
    case _ => OtherWorkEffort(s, w, a, t, c);
  }

  // ---------- Every step ----------

  lemma LocalEffort(s: Shared, w: nat, t: Shared)
    requires FewWorkers(s) && FewWorkers(t) && Local(s, w, t)
    ensures Effort(t) - Effort(s) == WorkerEffort(s.fs, s.policy, PerItem(s.limit), t.workers[w])
                                     - WorkerEffort(s.fs, s.policy, PerItem(s.limit), s.workers[w])
  {
    hide WorkerEffort, WorkersEffort, TasksEffort;
    EffortUpdate(s.fs, s.policy, PerItem(s.limit), s.workers, w, t.workers[w]);
  }

  lemma StartEffort(s: Shared, w: nat, t: Shared)
    requires FewWorkers(s) && FewWorkers(t) && w < |s.workers| && StartWorker(s, w, t)
    ensures Effort(t) < Effort(s)
  {
    var c := PerItem(s.limit);
    var next := Deciding(s.workers[w].desired, s.workers[w].seen + 1);
    EffortUpdate(s.fs, s.policy, c, s.workers, w, next);
    EffortMore(s.fs, s.policy, c, s.workers[w := next], Top);
    hide WorkersEffort, TasksEffort;
  }

  lemma TakeEffort(s: Shared, w: nat, t: Shared)
    requires FewWorkers(s) && FewWorkers(t) && w < |s.workers| && TakeTask(s, w, t)
    ensures Effort(t) < Effort(s)
  {
    var c := PerItem(s.limit);
    var task := s.queue[|s.queue| - 1];
    EffortUpdate(s.fs, s.policy, c, s.workers, w, t.workers[w]);
    assert s.queue == t.queue + [task];
    TasksEffortMore(s.fs, s.policy, c, t.queue, task);
    ProcessingEffort(s.fs, s.policy, c, t.workers[w]);
    NoTasks(s.fs, s.policy, c);
    hide WorkersEffort, TasksEffort, Walk;
    assert Unread(s.fs, s.policy, task.place, 0) == |Walk(s.fs, s.policy, task.place)| by {
      WalkIsUnread(s.fs, s.policy, task.place);
    }
  }

  lemma NoTasks(fs: FileSystem, policy: Policy, c: nat)
    requires c >= 7
    ensures TasksEffort(fs, policy, c, []) == 0
  {
  }

  lemma WalkIsUnread(fs: FileSystem, policy: Policy, p: Place)
    ensures Unread(fs, policy, p, 0) == |Walk(fs, policy, p)|
  {
  }

  lemma PublishEffort(s: Shared, w: nat, t: Shared)
    requires FewWorkers(s) && FewWorkers(t) && w < |s.workers| && Publish(s, w, t)
    ensures Effort(t) < Effort(s)
  {
    var c := PerItem(s.limit);
    var children := s.workers[w].children;
    var base := if s.outstanding + |children| - 1 == 0 || children != [] then Woken(s.workers) else s.workers;
    EffortWoken(s.fs, s.policy, c, s.workers);
    EffortUpdate(s.fs, s.policy, c, base, w, Top);
    TasksEffortConcat(s.fs, s.policy, c, s.queue, children);
    assert base[w] == s.workers[w];
    hide WorkersEffort, TasksEffort, Woken;
  }

  lemma IdleEffort(s: Shared, w: nat, a: Action, t: Shared)
    requires FewWorkers(s) && FewWorkers(t) && Does(s, w, a, t) && !Stirs(a) && !AtWork(a)
    ensures !a.Waking? && !a.Failing? ==> Effort(t) < Effort(s)
    ensures a.Waking? ==> Effort(t) == Effort(s) + 1
    ensures a.Failing? ==> Effort(t) == Effort(s)
  {
    IdleStep(s, w, a, t);
    LocalEffort(s, w, t);
    hide FewWorkers, Effort, TasksEffort;
  }

  /** Every step of every worker does some of what is left to do, unless it wakes up alone or fails to start another. */
  lemma StepEffort(s: Shared, w: nat, a: Action, t: Shared)
    requires FewWorkers(s) && FewWorkers(t) && Does(s, w, a, t)
    ensures !a.Waking? && !a.Failing? ==> Effort(t) < Effort(s)
    ensures a.Waking? ==> Effort(t) == Effort(s) + 1
    ensures a.Failing? ==> Effort(t) == Effort(s)
  {
    if AtWork(a) {
      WorkStep(s, w, a, t);
      WorkEffort(s, w, a, t, PerItem(s.limit));
      LocalEffort(s, w, t);
    } else if Stirs(a) {
      hide StartWorker, TakeTask, Publish, Effort, FewWorkers;
      match a
      case Starting => StartEffort(s, w, t);
      case Taking => TakeEffort(s, w, t);
      case Returning => PublishEffort(s, w, t);
    } else {
      IdleEffort(s, w, a, t);
    }
  }

  // ---------- Runs are short ----------

  /** What happened between two moments: a step of a worker, or the request to stop. */
  datatype Event = Step(worker: nat, action: Action) | Cancel

  ghost predicate Happens(s: Shared, e: Event, t: Shared) {
    match e
    case Step(w, a) => Does(s, w, a, t)
    case Cancel => t == s.(cancelled := true)
  }

  predicate Idles(e: Event) {
    e.Cancel? || e.action.Waking? || e.action.Failing?
  }

  function CountIdle(events: seq<Event>): nat {
    if events == [] then 0 else CountIdle(events[..|events| - 1]) + if Idles(events[|events| - 1]) then 1 else 0
  }

  ghost predicate IsHistory(states: seq<Shared>, events: seq<Event>, root: Place) {
    && |states| == |events| + 1 && Init(states[0], root)
    && forall i :: 0 <= i < |events| ==> Happens(states[i], events[i], states[i + 1])
  }

  lemma EventKeeps(s: Shared, e: Event, t: Shared, root: Place)
    requires Inv(s, root) && Happens(s, e, t)
    ensures Inv(t, root) && FewWorkers(s) && FewWorkers(t)
    ensures Effort(t) <= if Idles(e) then Effort(s) + 1 else Effort(s) - 1
  {
    assert Next(s, t) by {
      hide Does;
    }
    hide Does, Next;
    StepKeeps(s, t, root);
    InvParts(s, root);
    InvParts(t, root);
    hide Inv;
    if e.Step? {
      StepEffort(s, e.worker, e.action, t);
      hide Effort;
    }
  }

  /** However the steps interleave, a run has no more of them than the effort at its start, apart from those in which
      a worker wakes up alone, an exchange fails, or the walk is told to stop; each of these adds one step at most. */
  lemma {:induction false} RunsAreShort(states: seq<Shared>, events: seq<Event>, root: Place)
    requires IsHistory(states, events, root)
    ensures Inv(states[|events|], root) && FewWorkers(states[0]) && FewWorkers(states[|events|])
    ensures |events| + Effort(states[|events|]) <= Effort(states[0]) + 2 * CountIdle(events)
    decreases |events|
  {
    hide Init, Happens, Effort, FewWorkers, Inv;
    if events == [] {
      InitKeeps(states[0], root);
      InvParts(states[0], root);
    } else {
      var n := |events| - 1;
      var before := states[..n + 1];
      assert forall i :: 0 <= i < n ==> events[..n][i] == events[i];
      RunsAreShort(before, events[..n], root);
      assert Happens(states[n], events[n], states[n + 1]);
      EventKeeps(states[n], events[n], states[n + 1], root);
    }
  }

  // ---------- The end can always be reached ----------

  ghost predicate IsPath(states: seq<Shared>) {
    states != [] && forall i :: 0 <= i < |states| - 1 ==> Next(states[i], states[i + 1])
  }

  lemma Prepends(s: Shared, path: seq<Shared>)
    requires IsPath(path) && Next(s, path[0])
    ensures IsPath([s] + path)
  {
    hide Next;
    var all := [s] + path;
    forall i | 0 <= i < |all| - 1 ensures Next(all[i], all[i + 1]) {
      if i > 0 {
        assert all[i] == path[i - 1] && all[i + 1] == path[i - 1 + 1];
      }
    }
  }

  lemma StaysUncancelled(s: Shared, w: nat, a: Action, t: Shared)
    requires Does(s, w, a, t)
    ensures t.cancelled == s.cancelled && Next(s, t)
  {
    hide Listing, Below, WalkFrom, FlushDue, ItemsOf, TotalsOf, Woken;
  }

  /** A step that brings the end nearer: less effort is left, or as much and fewer counters have been read too early. */
  lemma StepTowardsEnd(s: Shared, root: Place, w: nat) returns (t: Shared)
    requires Inv(s, root) && FewWorkers(s) && w < |s.workers| && !s.workers[w].Finished?
    ensures Next(s, t) && Inv(t, root) && FewWorkers(t) && t.cancelled == s.cancelled
    ensures Effort(t) < Effort(s) || (Effort(t) == Effort(s) && StaleWorkers(t) < StaleWorkers(s))
  {
    hide Does, Next, Inv, FewWorkers, Effort, StaleWorkers, IsStale;
    var v, a;
    v, a, t := NoDeadlock(s, root, w);
    StaysUncancelled(s, v, a, t);
    StepKeeps(s, t, root);
    InvParts(t, root);
    StepEffort(s, v, a, t);
    if a.Failing? {
      FailureSettles(s, v, a, t);
    }
  }

  /** From every moment of every run the walk can go on to its end, with nobody woken from outside. */
  lemma {:induction false} EndIsReachable(s: Shared, root: Place) returns (path: seq<Shared>)
    requires Inv(s, root) && FewWorkers(s)
    ensures IsPath(path) && path[0] == s && AllFinished(path[|path| - 1])
    ensures path[|path| - 1].cancelled == s.cancelled
    decreases Effort(s), StaleWorkers(s)
  {
    hide Next, Inv, FewWorkers, Effort, StaleWorkers;
    if w: nat :| w < |s.workers| && !s.workers[w].Finished? {
      var t := StepTowardsEnd(s, root, w);
      var rest := EndIsReachable(t, root);
      Prepends(s, rest);
      path := [s] + rest;
    } else {
      path := [s];
    }
  }

  ghost function StaleWorkers(s: Shared): set<nat> {
    set w: nat | w < |s.workers| && IsStale(s, w)
  }

  lemma FailureSettles(s: Shared, w: nat, a: Action, t: Shared)
    requires a.Failing? && Does(s, w, a, t) && IsStale(s, w) && !IsStale(t, w)
    ensures StaleWorkers(t) < StaleWorkers(s)
  {
    assert w in StaleWorkers(s) && w !in StaleWorkers(t);
  }
}
