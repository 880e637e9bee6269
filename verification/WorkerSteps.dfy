/** Every step of every worker keeps the invariant. */
module WorkerSteps {
  import opened Basics
  import opened DirectoryWalk
  import opened WorkerProtocol
  import opened WorkerInvariants

  // ---------- Balances ----------

  /** From `a` to `b` the load loses `lost` and gains `gained`. */
  ghost predicate Shifted(a: Load, b: Load, lost: Load, gained: Load) {
    Join(b, lost) == Join(a, gained)
  }

  lemma MultisetShift<T>(p: multiset<T>, q: multiset<T>, a: multiset<T>, p1: multiset<T>, q1: multiset<T>,
                         b: multiset<T>,
                         lost: multiset<T>, gained: multiset<T>)
    requires p == q + a && b + lost == a + gained && p1 + q + lost == p + q1 + gained
    ensures p1 == q1 + b
  {
    forall x: T | true ensures p1[x] == q1[x] + b[x] {
      assert (b + lost)[x] == (a + gained)[x];
      assert (p1 + q + lost)[x] == (p + q1 + gained)[x];
    }
  }

  lemma ItemsShift(all: multiset<Item>, done: multiset<Item>, a: multiset<Item>, done1: multiset<Item>,
                   b: multiset<Item>,
                   lost: multiset<Item>, gained: multiset<Item>)
    requires done + a == all && b + lost == a + gained && done1 + gained == done + lost
    ensures done1 + b == all
  {
    forall x: Item ensures done1[x] + b[x] == all[x] {
      assert (b + lost)[x] == (a + gained)[x];
      assert (done1 + gained)[x] == (done + lost)[x];
      assert (done + a)[x] == all[x];
    }
  }

  ghost predicate SameTree(s: Shared, t: Shared) {
    s.fs == t.fs && s.policy == t.policy
  }

  /** The books stay balanced when they change by what the load changes. */
  lemma BalancedAfter(s: Shared, t: Shared, root: Place, lost: Load, gained: Load)
    requires Balanced(s, root) && SameTree(s, t) && Shifted(AllLoad(s), AllLoad(t), lost, gained)
    requires t.outstanding + lost.tasks == s.outstanding + gained.tasks
    requires t.pushed + s.popped + lost.ids == s.pushed + t.popped + gained.ids
    requires multiset(t.emitted) + t.skipped + gained.items == multiset(s.emitted) + s.skipped + lost.items
    requires Plus(Plus(t.published, gained.totals), TotalsOf(s.emitted)) ==
               Plus(Plus(s.published, lost.totals), TotalsOf(t.emitted))
    ensures Balanced(t, root)
  {
    hide AllLoad, TotalsOf;
    var a, b := AllLoad(s), AllLoad(t);
    MultisetShift(s.pushed, s.popped, a.ids, t.pushed, t.popped, b.ids, lost.ids, gained.ids);
    ItemsShift(multiset(Walk(s.fs, s.policy, root)), multiset(s.emitted) + s.skipped, a.items,
               multiset(t.emitted) + t.skipped, b.items,
               lost.items, gained.items);
  }

  /** A step of one worker that leaves the queue alone. */
  lemma OneWorkerShift(s: Shared, t: Shared, w: nat, p: Worker)
    requires w < |s.workers| && SameTree(s, t) && t.queue == s.queue && t.workers == s.workers[w := p]
    ensures Shifted(AllLoad(s), AllLoad(t), WorkerLoad(s.fs, s.policy, s.workers[w]), WorkerLoad(s.fs, s.policy, p))
  {
    hide WorkersLoad, TasksLoad, WorkerLoad, Join;
    var queue := TasksLoad(s.fs, s.policy, s.queue);
    WorkersLoadUpdate(s.fs, s.policy, s.workers, w, p);
    JoinLaws(WorkersLoad(s.fs, s.policy, s.workers[w := p]), queue, WorkerLoad(s.fs, s.policy, s.workers[w]));
    JoinLaws(WorkersLoad(s.fs, s.policy, s.workers), queue, WorkerLoad(s.fs, s.policy, p));
  }

  /** A step that changes nothing but where the worker stands, and holds the same before and after. */
  lemma QuietStep(s: Shared, t: Shared, root: Place, w: nat, p: Worker)
    requires Balanced(s, root) && w < |s.workers| && t == s.(workers := s.workers[w := p])
    requires WorkerLoad(s.fs, s.policy, s.workers[w]) == WorkerLoad(s.fs, s.policy, p)
    ensures Balanced(t, root)
  {
    hide WorkersLoad, TasksLoad, WorkerLoad, AllLoad, Balanced, Join;
    OneWorkerShift(s, t, w, p);
    BalancedAfter(s, t, root, WorkerLoad(s.fs, s.policy, p), WorkerLoad(s.fs, s.policy, p));
  }

  // ---------- What a worker holds before and after a step ----------

  lemma TakenHolds(fs: FileSystem, policy: Policy, task: Task)
    ensures WorkerLoad(fs, policy, Processing(task, 0, [], [], ZERO)) == TaskLoad(fs, policy, task).(ids := multiset{})
  {
    hide WalkFrom;
    assert ItemsOf(task.place, []) == [];
  }

  /** The rest of a directory is its next entry, what lies below that, and what comes after it. */
  lemma RestNext(fs: FileSystem, policy: Policy, p: Place, i: nat)
    requires i < |Listing(fs, p)|
    ensures Rest(fs, policy, p, i) ==
            multiset{ItemOf(p, Listing(fs, p)[i])} + multiset(WalkEntry(fs, policy, p, i)) + Rest(fs, policy, p, i + 1)
  {
  }

  lemma RestEnds(fs: FileSystem, policy: Policy, p: Place)
    ensures Rest(fs, policy, p, |Listing(fs, p)|) == multiset{}
  {
  }

  lemma FileHasNothingBelow(fs: FileSystem, policy: Policy, p: Place, i: nat)
    requires i < |Listing(fs, p)| && Listing(fs, p)[i].FileEntry?
    ensures WalkEntry(fs, policy, p, i) == []
  {
  }

  lemma FileHolds(fs: FileSystem, policy: Policy, p: Worker)
    requires p.Processing? && p.index < |Listing(fs, p.task.place)| && Listing(fs, p.task.place)[p.index].FileEntry?
    ensures var entry := Listing(fs, p.task.place)[p.index];
            WorkerLoad(fs, policy, p.(index := p.index + 1, pending := p.pending + [entry])) ==
              WorkerLoad(fs, policy, p)
  {
    hide Rest, WalkEntry, TasksLoad, Listing, ItemOf, ItemsOf, WorkerLoad;
    var place, entry := p.task.place, Listing(fs, p.task.place)[p.index];
    var q := p.(index := p.index + 1, pending := p.pending + [entry]);
    RestNext(fs, policy, place, p.index);
    FileHasNothingBelow(fs, policy, place, p.index);
    ItemsOfMore(place, p.pending, entry);
    ProcessingHolds(fs, policy, p);
    ProcessingHolds(fs, policy, q);
    CollectItem(multiset(ItemsOf(place, p.pending)), multiset{ItemOf(place, entry)}, Rest(fs, policy, place, q.index),
                TasksLoad(fs, policy, p.children).items);
  }

  lemma ItemsOfMore(p: Place, entries: seq<Entry>, entry: Entry)
    ensures multiset(ItemsOf(p, entries + [entry])) == multiset(ItemsOf(p, entries)) + multiset{ItemOf(p, entry)}
  {
    hide ItemOf;
    assert ItemsOf(p, entries + [entry]) == ItemsOf(p, entries) + [ItemOf(p, entry)];
  }

  lemma CollectItem(pending: multiset<Item>, item: multiset<Item>, rest: multiset<Item>, found: multiset<Item>)
    ensures pending + (item + multiset([]) + rest) + found == (pending + item) + rest + found
  {
  }

  lemma DirectoryHolds(fs: FileSystem, policy: Policy, p: Worker, id: nat)
    requires p.Processing? && p.index < |Listing(fs, p.task.place)| && !Listing(fs, p.task.place)[p.index].FileEntry?
    ensures var entry := Listing(fs, p.task.place)[p.index];
            var below := Below(policy, p.task.place, entry);
            var more := if below.Some? then [Task(below.value, id)] else [];
            var lost, gained := WorkerLoad(fs, policy, p),
              WorkerLoad(fs, policy, p.(index := p.index + 1, children := p.children + more));
            && lost.items == gained.items + multiset{ItemOf(p.task.place, entry)}
            && gained.ids == lost.ids + (if below.Some? then multiset{id} else multiset{})
            && gained.tasks == lost.tasks && gained.totals == lost.totals
  {
    hide Rest, WalkEntry, TasksLoad, Listing, ItemOf, Below, Walk, ItemsOf, WorkerLoad;
    var place, entry := p.task.place, Listing(fs, p.task.place)[p.index];
    RestNext(fs, policy, place, p.index);
    var below := Below(policy, place, entry);
    var more := if below.Some? then [Task(below.value, id)] else [];
    WalkBelow(fs, policy, place, p.index);
    MoreTasks(fs, policy, p.children, more);
    var q := p.(index := p.index + 1, children := p.children + more);
    ProcessingHolds(fs, policy, p);
    ProcessingHolds(fs, policy, q);
    MoveItem(multiset(ItemsOf(place, p.pending)), multiset{ItemOf(place, entry)},
             multiset(WalkEntry(fs, policy, place, p.index)),
             Rest(fs, policy, place, p.index + 1), TasksLoad(fs, policy, p.children).items);
  }

  lemma ProcessingHolds(fs: FileSystem, policy: Policy, p: Worker)
    requires p.Processing?
    ensures WorkerLoad(fs, policy, p).tasks == 1 && WorkerLoad(fs, policy, p).totals == p.unpublished
    ensures WorkerLoad(fs, policy, p).ids == TasksLoad(fs, policy, p.children).ids
    ensures WorkerLoad(fs, policy, p).items ==
            multiset(ItemsOf(p.task.place, p.pending)) + Rest(fs, policy, p.task.place, p.index)
              + TasksLoad(fs, policy, p.children).items
  {
  }

  lemma MoveItem(pending: multiset<Item>, item: multiset<Item>, below: multiset<Item>, rest: multiset<Item>,
                 found: multiset<Item>)
    ensures pending + (item + below + rest) + found == pending + rest + (found + below) + item
  {
  }

  lemma WalkBelow(fs: FileSystem, policy: Policy, p: Place, i: nat)
    requires i < |Listing(fs, p)|
    ensures var below := Below(policy, p, Listing(fs, p)[i]);
            WalkEntry(fs, policy, p, i) == if below.Some? then Walk(fs, policy, below.value) else []
  {
  }

  lemma MoreTasks(fs: FileSystem, policy: Policy, tasks: seq<Task>, more: seq<Task>)
    requires |more| <= 1
    ensures var a, b := TasksLoad(fs, policy, tasks), TasksLoad(fs, policy, tasks + more);
            && b.ids == a.ids + (if more == [] then multiset{} else multiset{more[0].id})
            && b.items == a.items + (if more == [] then multiset{} else multiset(Walk(fs, policy, more[0].place)))
  {
    hide Walk;
    if more == [] {
      assert tasks + more == tasks;
    } else {
      assert (tasks + more)[..|tasks|] == tasks;
    }
  }

  lemma FlushedHolds(fs: FileSystem, policy: Policy, p: Worker, totals: Totals)
    requires p.Processing?
    ensures var lost, gained := WorkerLoad(fs, policy, p),
              WorkerLoad(fs, policy, p.(pending := [], unpublished := totals));
            && lost.items == gained.items + multiset(ItemsOf(p.task.place, p.pending))
            && lost.tasks == gained.tasks && lost.ids == gained.ids && gained.totals == totals
               && lost.totals == p.unpublished
  {
    hide Rest, TasksLoad, Listing;
    assert ItemsOf(p.task.place, []) == [];
  }

  lemma PublishedTotalsHold(fs: FileSystem, policy: Policy, p: Worker)
    requires p.Processing?
    ensures WorkerLoad(fs, policy, p.(unpublished := ZERO)) == WorkerLoad(fs, policy, p).(totals := ZERO)
    ensures WorkerLoad(fs, policy, p).totals == p.unpublished
  {
    hide Rest, TasksLoad, Listing, ItemsOf;
  }

  lemma EndedHolds(fs: FileSystem, policy: Policy, p: Worker)
    requires p.Processing? && p.index == |Listing(fs, p.task.place)| && p.pending == [] && p.unpublished == ZERO
    ensures WorkerLoad(fs, policy, Publishing(p.children)) == WorkerLoad(fs, policy, p)
  {
    hide Rest, TasksLoad, Listing;
    var found := TasksLoad(fs, policy, p.children);
    TasksLoadUnpublished(fs, policy, p.children);
    RestEnds(fs, policy, p.task.place);
    assert ItemsOf(p.task.place, []) == [];
    assert multiset{} + multiset{} + found.items == found.items;
    assert WorkerLoad(fs, policy, p) == Load(1, found.ids, found.items, ZERO);
  }

  lemma CutHolds(fs: FileSystem, policy: Policy, p: Worker)
    requires p.Processing? && p.index <= |Listing(fs, p.task.place)|
    ensures var lost, gained := WorkerLoad(fs, policy, p),
              WorkerLoad(fs, policy, p.(index := |Listing(fs, p.task.place)|));
            && lost.items == gained.items + multiset(WalkFrom(fs, policy, p.task.place, p.index))
            && lost.tasks == gained.tasks && lost.ids == gained.ids && lost.totals == gained.totals
  {
    hide Rest, WalkFrom, TasksLoad, Listing, ItemsOf;
    RestEnds(fs, policy, p.task.place);
    RestIsWalk(fs, policy, p.task.place, p.index);
  }

  lemma RestIsWalk(fs: FileSystem, policy: Policy, p: Place, i: nat)
    requires i <= |Listing(fs, p)|
    ensures Rest(fs, policy, p, i) == multiset(WalkFrom(fs, policy, p, i))
  {
  }

  lemma IdleHolds(fs: FileSystem, policy: Policy, w: Worker)
    requires !w.Processing? && !w.Publishing?
    ensures WorkerLoad(fs, policy, w) == NONE
  {
  }

  // ---------- Each step ----------

  lemma StartBalanced(s: Shared, w: nat, t: Shared, root: Place)
    requires Balanced(s, root) && w < |s.workers| && StartWorker(s, w, t)
    ensures Balanced(t, root)
  {
    hide WorkersLoad, TasksLoad, WorkerLoad, Join, Balanced;
    var next := Deciding(s.workers[w].desired, s.workers[w].seen + 1);
    IdleHolds(s.fs, s.policy, next);
    IdleHolds(s.fs, s.policy, s.workers[w]);
    IdleHolds(s.fs, s.policy, Top);
    var middle := s.(workers := s.workers[w := next]);
    QuietStep(s, middle, root, w, next);
    WorkersLoadMore(s.fs, s.policy, middle.workers, Top);
    JoinLaws(WorkersLoad(s.fs, s.policy, middle.workers), NONE, NONE);
    SameBooks(middle, t, root);
  }

  lemma SameBooks(s: Shared, t: Shared, root: Place)
    requires Balanced(s, root) && AllLoad(t) == AllLoad(s)
    requires t == s.(workers := t.workers, started := t.started)
    ensures Balanced(t, root)
  {
    hide AllLoad, TotalsOf, Walk;
  }

  lemma TakeBalanced(s: Shared, w: nat, t: Shared, root: Place)
    requires Balanced(s, root) && w < |s.workers| && TakeTask(s, w, t)
    ensures Balanced(t, root)
  {
    hide WorkersLoad, TasksLoad, WorkerLoad, AllLoad, Balanced, Walk, TotalsOf, Join, TaskLoad, Shifted;
    var task := s.queue[|s.queue| - 1];
    var p := Processing(task, 0, [], [], ZERO);
    var taken, held := TaskLoad(s.fs, s.policy, task), WorkerLoad(s.fs, s.policy, p);
    QueueEnds(s.fs, s.policy, s.queue);
    TakenHolds(s.fs, s.policy, task);
    IdleHolds(s.fs, s.policy, s.workers[w]);
    OneTaskCounts(s.fs, s.policy, task);
    TakeShift(s, w, t, p, taken);
    BalancedAfter(s, t, root, taken, held);
  }

  lemma QueueEnds(fs: FileSystem, policy: Policy, queue: seq<Task>)
    requires queue != []
    ensures TasksLoad(fs, policy, queue) ==
              Join(TasksLoad(fs, policy, queue[..|queue| - 1]), TaskLoad(fs, policy, queue[|queue| - 1]))
  {
    hide Join, TaskLoad;
  }

  lemma TakeShift(s: Shared, w: nat, t: Shared, p: Worker, taken: Load)
    requires w < |s.workers| && SameTree(s, t) && t.workers == s.workers[w := p]
             && WorkerLoad(s.fs, s.policy, s.workers[w]) == NONE
    requires TasksLoad(s.fs, s.policy, s.queue) == Join(TasksLoad(s.fs, s.policy, t.queue), taken)
    ensures Shifted(AllLoad(s), AllLoad(t), taken, WorkerLoad(s.fs, s.policy, p))
  {
    hide WorkersLoad, TasksLoad, WorkerLoad, Join;
    var ws, ws1 := WorkersLoad(s.fs, s.policy, s.workers), WorkersLoad(s.fs, s.policy, t.workers);
    var rest, held := TasksLoad(s.fs, s.policy, t.queue), WorkerLoad(s.fs, s.policy, p);
    WorkersLoadUpdate(s.fs, s.policy, s.workers, w, p);
    JoinLaws(ws1, NONE, NONE);
    JoinLaws(ws, held, Join(rest, taken));
    JoinLaws(Join(ws, held), rest, taken);
  }

  lemma ReadFileBalanced(s: Shared, w: nat, t: Shared, root: Place)
    requires Balanced(s, root) && w < |s.workers| && ReadFile(s, w, t)
    ensures Balanced(t, root)
  {
    hide WorkersLoad, TasksLoad, WorkerLoad, AllLoad, Balanced, Walk, TotalsOf, Listing;
    var p := s.workers[w];
    FileHolds(s.fs, s.policy, p);
    QuietStep(s, t, root, w, p.(index := p.index + 1, pending := p.pending + [Entries(s, p.task.place)[p.index]]));
  }

  lemma ReadDirectoryBalanced(s: Shared, w: nat, t: Shared, root: Place)
    requires Balanced(s, root) && w < |s.workers| && ReadDirectory(s, w, t)
    ensures Balanced(t, root)
  {
    hide WorkersLoad, TasksLoad, WorkerLoad, AllLoad, Balanced, Walk, TotalsOf, Listing, Below, Shifted, ItemOf;
    var p := s.workers[w];
    var place, entry := p.task.place, Entries(s, p.task.place)[p.index];
    var below := Below(s.policy, place, entry);
    var more := if below.Some? then [Task(below.value, s.nextDirectory)] else [];
    var q := p.(index := p.index + 1, children := p.children + more);
    assert t.workers == s.workers[w := q] by {
      assert p.children + [] == p.children;
    }
    DirectoryHolds(s.fs, s.policy, p, s.nextDirectory);
    DirectoryIsNoFile(place, entry, s.emitted);
    OneWorkerShift(s, t, w, q);
    BalancedAfter(s, t, root, WorkerLoad(s.fs, s.policy, p), WorkerLoad(s.fs, s.policy, q));
  }

  lemma DirectoryIsNoFile(place: Place, entry: Entry, emitted: seq<Item>)
    requires !entry.FileEntry?
    ensures TotalsOf(emitted + [ItemOf(place, entry)]) == TotalsOf(emitted)
  {
    assert (emitted + [ItemOf(place, entry)])[..|emitted|] == emitted;
    PlusNothing(TotalsOf(emitted));
  }

  lemma FlushBalanced(s: Shared, w: nat, t: Shared, root: Place)
    requires Balanced(s, root) && w < |s.workers| && Flush(s, w, t)
    ensures Balanced(t, root)
  {
    hide WorkersLoad, TasksLoad, WorkerLoad, AllLoad, Balanced, Walk, TotalsOf, Listing, ItemsOf, Shifted, FlushDue;
    var p := s.workers[w];
    var items := ItemsOf(p.task.place, p.pending);
    var q := p.(pending := [], unpublished := Plus(p.unpublished, TotalsOf(items)));
    FlushedHolds(s.fs, s.policy, p, q.unpublished);
    TotalsConcat(s.emitted, items);
    OneWorkerShift(s, t, w, q);
    BalancedAfter(s, t, root, WorkerLoad(s.fs, s.policy, p), WorkerLoad(s.fs, s.policy, q));
  }

  lemma PublishTotalsBalanced(s: Shared, w: nat, t: Shared, root: Place)
    requires Balanced(s, root) && w < |s.workers| && PublishTotals(s, w, t)
    ensures Balanced(t, root)
  {
    var p := s.workers[w];
    var q := p.(unpublished := ZERO);
    var lost, gained := WorkerLoad(s.fs, s.policy, p), WorkerLoad(s.fs, s.policy, q);
    hide WorkersLoad, TasksLoad, WorkerLoad, AllLoad, Balanced, Walk, TotalsOf, Listing, ItemsOf, Shifted, Plus;
    PublishedTotalsHold(s.fs, s.policy, p);
    PlusNothing(t.published);
    OneWorkerShift(s, t, w, q);
    BalancedAfter(s, t, root, lost, gained);
  }

  lemma EndBalanced(s: Shared, w: nat, t: Shared, root: Place)
    requires Balanced(s, root) && w < |s.workers| && EndDirectory(s, w, t) && InPlace(s.fs, s.workers[w])
    ensures Balanced(t, root)
  {
    hide WorkersLoad, TasksLoad, WorkerLoad, AllLoad, Balanced, Walk, TotalsOf, Listing;
    EndedHolds(s.fs, s.policy, s.workers[w]);
    QuietStep(s, t, root, w, Publishing(s.workers[w].children));
  }

  lemma CutBalanced(s: Shared, w: nat, t: Shared, root: Place)
    requires Balanced(s, root) && w < |s.workers| && CutShort(s, w, t)
    ensures Balanced(t, root)
  {
    hide WorkersLoad, TasksLoad, WorkerLoad, AllLoad, Balanced, WalkFrom, TotalsOf, Listing, Shifted;
    var p := s.workers[w];
    var q := p.(index := |Entries(s, p.task.place)|);
    CutHolds(s.fs, s.policy, p);
    OneWorkerShift(s, t, w, q);
    BalancedAfter(s, t, root, WorkerLoad(s.fs, s.policy, p), WorkerLoad(s.fs, s.policy, q));
  }

  lemma PublishedHolds(fs: FileSystem, policy: Policy, children: seq<Task>)
    ensures WorkerLoad(fs, policy, Publishing(children)) == TasksLoad(fs, policy, children).(tasks := 1)
  {
  }

  lemma PublishBalanced(s: Shared, w: nat, t: Shared, root: Place)
    requires Balanced(s, root) && w < |s.workers| && Publish(s, w, t)
    ensures Balanced(t, root)
  {
    hide WorkersLoad, TasksLoad, WorkerLoad, Balanced, Walk, TotalsOf, Woken, Join, Shifted;
    var children := s.workers[w].children;
    var found := TasksLoad(s.fs, s.policy, children);
    TasksLoadCounts(s.fs, s.policy, children);
    TasksLoadConcat(s.fs, s.policy, s.queue, children);
    WorkersLoadWoken(s.fs, s.policy, s.workers);
    var base := if s.outstanding + |children| - 1 == 0 || children != [] then Woken(s.workers) else s.workers;
    WorkersLoadUpdate(s.fs, s.policy, base, w, Top);
    PublishedHolds(s.fs, s.policy, children);
    IdleHolds(s.fs, s.policy, Top);
    PublishShift(WorkersLoad(s.fs, s.policy, s.workers), WorkersLoad(s.fs, s.policy, t.workers),
                 TasksLoad(s.fs, s.policy, s.queue), found);
    BalancedAfter(s, t, root, found.(tasks := 1), found);
  }

  lemma PublishShift(ws: Load, ws1: Load, queue: Load, found: Load)
    requires Join(ws1, found.(tasks := 1)) == Join(ws, NONE)
    ensures Shifted(Join(ws, queue), Join(ws1, Join(queue, found)), found.(tasks := 1), found)
  {
    JoinLaws(ws, NONE, NONE);
    hide Join;
    var mine := found.(tasks := 1);
    JoinLaws(ws1, Join(queue, found), mine);
    JoinLaws(ws, queue, found);
  }
}
