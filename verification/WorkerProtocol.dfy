/**
 The walk shared by several threads. Workers take directory tasks from the end of one locked queue, put the tasks
 they find behind the others, wait on a condition variable while there is nothing to take but somebody still works,
 and start further workers by compare-and-exchange on a counter. Each step below is atomic; between two steps of a
 worker any other worker may take any number of steps.
 */
module WorkerProtocol {
  import opened Basics
  import opened DirectoryWalk

  datatype Task = Task(place: Place, id: nat)

  /** Files and bytes. */
  datatype Totals = Totals(files: nat, bytes: nat)

  function Plus(a: Totals, b: Totals): Totals {
    Totals(a.files + b.files, a.bytes + b.bytes)
  }

  const ZERO := Totals(0, 0)

  /** Where a worker is in its loop. */
  datatype Worker =
    | Top
    | Sized(desired: nat)
    | Deciding(desired: nat, seen: nat)
    | WantTask
    | Waiting
    | Processing(task: Task, index: nat, pending: seq<Entry>, children: seq<Task>, unpublished: Totals)
    | Publishing(children: seq<Task>)
    | Finished

  /** What the workers share; `emitted`, `skipped`, `pushed` and `popped` record what has happened so far. */
  datatype Shared = Shared(
    fs: FileSystem, policy: Policy, limit: nat, cancelled: bool,
    queue: seq<Task>, outstanding: nat, started: nat, workers: seq<Worker>,
    nextDirectory: nat, nextFile: nat, blocks: seq<(nat, nat)>, published: Totals,
    emitted: seq<Item>, skipped: multiset<Item>, pushed: multiset<nat>, popped: multiset<nat>)

  // ---------- The steps of a worker ----------

  const BATCH := 64

  function WorkersFor(limit: nat, available: nat): nat {
    Min(Max(limit, 1), Max(available, 1))
  }

  ghost predicate MeasureQueue(s: Shared, w: nat, t: Shared)
    requires w < |s.workers|
  {
    s.workers[w].Top? && t == s.(workers := s.workers[w := Sized(WorkersFor(s.limit, s.outstanding))])
  }

  ghost predicate LoadStarted(s: Shared, w: nat, t: Shared)
    requires w < |s.workers|
  {
    s.workers[w].Sized? && t == s.(workers := s.workers[w := Deciding(s.workers[w].desired, s.started)])
  }

  /** The exchange succeeds only on the value that was seen. */
  ghost predicate StartWorker(s: Shared, w: nat, t: Shared)
    requires w < |s.workers|
  {
    && s.workers[w].Deciding? && s.workers[w].seen < s.workers[w].desired && s.workers[w].seen == s.started
    && t == s.(started := s.started + 1,
               workers := s.workers[w := Deciding(s.workers[w].desired, s.workers[w].seen + 1)] + [Top])
  }

  /** A weak exchange may also fail for no reason; it returns the current value. */
  ghost predicate FailToStart(s: Shared, w: nat, t: Shared)
    requires w < |s.workers|
  {
    && s.workers[w].Deciding? && s.workers[w].seen < s.workers[w].desired
    && t == s.(workers := s.workers[w := Deciding(s.workers[w].desired, s.started)])
  }

  ghost predicate EnoughWorkers(s: Shared, w: nat, t: Shared)
    requires w < |s.workers|
  {
    s.workers[w].Deciding? && s.workers[w].seen >= s.workers[w].desired && t == s.(workers := s.workers[w := WantTask])
  }

  ghost predicate TakeTask(s: Shared, w: nat, t: Shared)
    requires w < |s.workers|
  {
    && s.workers[w].WantTask? && s.queue != []
    && var task := s.queue[|s.queue| - 1];
       t == s.(queue := s.queue[..|s.queue| - 1], popped := s.popped + multiset{task.id},
               workers := s.workers[w := Processing(task, 0, [], [], ZERO)])
  }

  ghost predicate Leave(s: Shared, w: nat, t: Shared)
    requires w < |s.workers|
  {
    s.workers[w].WantTask? && s.queue == [] && s.outstanding == 0 && t == s.(workers := s.workers[w := Finished])
  }

  ghost predicate Wait(s: Shared, w: nat, t: Shared)
    requires w < |s.workers|
  {
    s.workers[w].WantTask? && s.queue == [] && s.outstanding != 0 && t == s.(workers := s.workers[w := Waiting])
  }

  /** A condition variable may wake a waiter that nobody notified. */
  ghost predicate WakeAlone(s: Shared, w: nat, t: Shared)
    requires w < |s.workers|
  {
    s.workers[w].Waiting? && t == s.(workers := s.workers[w := WantTask])
  }

  function Entries(s: Shared, p: Place): seq<Entry> {
    Listing(s.fs, p)
  }

  /** Files collect until there are sixty-four. */
  ghost predicate ReadFile(s: Shared, w: nat, t: Shared)
    requires w < |s.workers|
  {
    && s.workers[w].Processing?
    && var p := s.workers[w];
       && p.index < |Entries(s, p.task.place)| && Entries(s, p.task.place)[p.index].FileEntry? && |p.pending| < BATCH
       && t == s.(workers := s.workers[w := p.(index := p.index + 1,
                                               pending := p.pending + [Entries(s, p.task.place)[p.index]])])
  }

  /** A directory takes the next id, is reported, and becomes a task if the walk descends into it. */
  ghost predicate ReadDirectory(s: Shared, w: nat, t: Shared)
    requires w < |s.workers|
  {
    && s.workers[w].Processing?
    && var p := s.workers[w];
       && p.index < |Entries(s, p.task.place)| && !Entries(s, p.task.place)[p.index].FileEntry? && p.pending == []
       && var entry := Entries(s, p.task.place)[p.index];
          var reported := s.(nextDirectory := s.nextDirectory + 1,
                             emitted := s.emitted + [ItemOf(p.task.place, entry)]);
          match Below(s.policy, p.task.place, entry)
          case None => t == reported.(workers := s.workers[w := p.(index := p.index + 1)])
          case Some(place) =>
            t == reported.(workers := s.workers[w := p.(index := p.index + 1,
                                                        children := p.children + [Task(place, s.nextDirectory)])],
                           pushed := s.pushed + multiset{s.nextDirectory})
  }

  /** The collected files are flushed when there are sixty-four, before a directory, and at the end. */
  predicate FlushDue(s: Shared, p: Worker)
    requires p.Processing?
  {
    && p.pending != []
    && (|p.pending| == BATCH || p.index >= |Entries(s, p.task.place)| || !Entries(s, p.task.place)[p.index].FileEntry?)
  }

  function ItemsOf(p: Place, entries: seq<Entry>): (items: seq<Item>)
    ensures |items| == |entries| && forall i :: 0 <= i < |items| ==> items[i] == ItemOf(p, entries[i])
  {
    seq(|entries|, i requires 0 <= i < |entries| => ItemOf(p, entries[i]))
  }

  /** The files among what was reported, and their bytes. */
  function TotalsOf(items: seq<Item>): Totals {
    if items == [] then ZERO else Plus(TotalsOf(items[..|items| - 1]), ItemTotals(items[|items| - 1]))
  }

  function ItemTotals(item: Item): Totals {
    if item.FileAt? then Totals(1, item.size) else ZERO
  }

  /** One addition to the counter reserves a block of ids for all of them. */
  ghost predicate Flush(s: Shared, w: nat, t: Shared)
    requires w < |s.workers|
  {
    && s.workers[w].Processing? && FlushDue(s, s.workers[w])
    && var p := s.workers[w];
       var items := ItemsOf(p.task.place, p.pending);
       t == s.(nextFile := s.nextFile + |p.pending|, blocks := s.blocks + [(s.nextFile, |p.pending|)],
               emitted := s.emitted + items,
               workers := s.workers[w := p.(pending := [], unpublished := Plus(p.unpublished, TotalsOf(items)))])
  }

  ghost predicate PublishTotals(s: Shared, w: nat, t: Shared)
    requires w < |s.workers|
  {
    && s.workers[w].Processing? && s.workers[w].unpublished.files > 0
    && t == s.(published := Plus(s.published, s.workers[w].unpublished),
               workers := s.workers[w := s.workers[w].(unpublished := ZERO)])
  }

  ghost predicate EndDirectory(s: Shared, w: nat, t: Shared)
    requires w < |s.workers|
  {
    && s.workers[w].Processing?
    && var p := s.workers[w];
       && p.index == |Entries(s, p.task.place)| && p.pending == [] && p.unpublished.files == 0
       && t == s.(workers := s.workers[w := Publishing(p.children)])
  }

  /** A worker that sees the request to stop leaves out the rest of its directory. */
  ghost predicate CutShort(s: Shared, w: nat, t: Shared)
    requires w < |s.workers|
  {
    && s.cancelled && s.workers[w].Processing?
    && var p := s.workers[w];
       && p.index < |Entries(s, p.task.place)|
       && t == s.(skipped := s.skipped + multiset(WalkFrom(s.fs, s.policy, p.task.place, p.index)),
                  workers := s.workers[w := p.(index := |Entries(s, p.task.place)|)])
  }

  function Woken(workers: seq<Worker>): (r: seq<Worker>)
    ensures |r| == |workers|
    ensures forall i :: 0 <= i < |r| ==> r[i] == if workers[i].Waiting? then WantTask else workers[i]
  {
    seq(|workers|, i requires 0 <= i < |workers| => if workers[i].Waiting? then WantTask else workers[i])
  }

  /** New work wakes everybody, and so does the end of all work. */
  ghost predicate Publish(s: Shared, w: nat, t: Shared)
    requires w < |s.workers|
  {
    && s.workers[w].Publishing? && s.outstanding > 0
    && var children := s.workers[w].children;
       var left := s.outstanding + |children| - 1;
       t == s.(queue := s.queue + children, outstanding := left,
               workers := (if left == 0 || children != [] then Woken(s.workers) else s.workers)[w := Top])
  }

  datatype Action =
    | Measuring | Loading | Starting | Failing | Enough | Taking | Leaving | GoingToSleep | Waking
    | AtFile | AtDirectory | Flushing | PublishingTotals | Ending | Cutting | Returning

  ghost predicate Does(s: Shared, w: nat, a: Action, t: Shared) {
    && w < |s.workers|
    && match a
       case Measuring => MeasureQueue(s, w, t)
       case Loading => LoadStarted(s, w, t)
       case Starting => StartWorker(s, w, t)
       case Failing => FailToStart(s, w, t)
       case Enough => EnoughWorkers(s, w, t)
       case Taking => TakeTask(s, w, t)
       case Leaving => Leave(s, w, t)
       case GoingToSleep => Wait(s, w, t)
       case Waking => WakeAlone(s, w, t)
       case AtFile => ReadFile(s, w, t)
       case AtDirectory => ReadDirectory(s, w, t)
       case Flushing => Flush(s, w, t)
       case PublishingTotals => PublishTotals(s, w, t)
       case Ending => EndDirectory(s, w, t)
       case Cutting => CutShort(s, w, t)
       case Returning => Publish(s, w, t)
  }

  ghost predicate Next(s: Shared, t: Shared) {
    (exists w: nat, a: Action :: Does(s, w, a, t)) || t == s.(cancelled := true)
  }

  /** One worker and the task of the root; while there is only one task, no second worker is started. */
  ghost predicate Init(s: Shared, root: Place) {
    && s.workers == [Top] && s.started == 1 && s.queue == [Task(root, 5)] && s.outstanding == 1
    && s.nextDirectory == 6 && s.nextFile == 1 && s.blocks == [] && s.published == ZERO
    && s.emitted == [] && s.skipped == multiset{} && s.pushed == multiset{5} && s.popped == multiset{}
  }
}
