/**
 Replacing the snapshot file. A new snapshot is written beside the old one, the old one is moved aside, the new one
 takes its name, and the one moved aside is deleted. Any of these steps may be the last one before the process ends.
 */
module CrashSafety {
  import opened Basics
  import opened Bytes
  import opened Fields
  import opened Snapshot
  import opened SnapshotLaws

  /** A snapshot that can be written and read back. */
  predicate Storable(s: State) {
    Sized(BodyOf(s)) && ShortFields(Body(VERSION), BodyOf(s))
  }

  ghost predicate Whole(s: State) {
    Keyed(s) && Storable(s)
  }

  const EMPTY := State(map[], map[], map[], map[], [], [], false)

  // ---------- The files ----------

  datatype Disk = Disk(primary: Option<Data>, backup: Option<Data>, temp: Option<Data>)

  function Load(file: Option<Data>): Option<State> {
    match file
    case None => None
    case Some(d) => match Decode(d) case Ok((s, _)) => Some(s) case Err(_) => None
  }

  /** What opening the index finds: the snapshot, else the one moved aside, else nothing. */
  function Recover(d: Disk): State {
    match Load(d.primary)
    case Some(s) => s
    case None => match Load(d.backup) case Some(s) => s case None => EMPTY
  }

  /** A file under the snapshot's name is a complete snapshot. */
  predicate Good(d: Disk) {
    d.primary.Some? ==> Load(d.primary).Some?
  }

  function MovedAside(d: Disk): Disk
    requires d.primary.Some?
  {
    Disk(None, d.primary, d.temp)
  }

  function Installed(d: Disk): Disk
    requires d.temp.Some?
  {
    Disk(d.temp, d.backup, None)
  }

  lemma WrittenLoads(s: State)
    requires Whole(s)
    ensures Load(Some(Encode(s))) == Some(s.(committed := false))
  {
    hide Decode, Encode;
    SnapshotRoundTrip(s, []);
    assert Encode(s) + [] == Encode(s);
  }

  /** A snapshot that was not written to its end is no snapshot. */
  lemma CutOffNeverLoads(s: State, length: nat)
    requires Whole(s) && length < |Encode(s)|
    ensures Load(Some(Encode(s)[..length])) == None
  {
    hide Decode, Encode;
    CutOffSnapshotFails(s, length);
  }

  /** A snapshot with a text that is too long can be written, but never loads: where its file has taken the name and
      nothing is kept beside it, opening the index finds nothing. */
  lemma OverlongNeverLoads(s: State, d: Disk)
    requires Keyed(s) && Sized(BodyOf(s)) && !ShortFields(Body(VERSION), BodyOf(s)) && d.primary == Some(Encode(s))
    ensures Load(d.primary) == None && (d.backup.None? ==> Recover(d) == EMPTY)
  {
    hide Decode, Encode;
    SnapshotRoundTrip(s, []);
    assert Encode(s) + [] == Encode(s);
  }

  class SnapshotFiles {
    var disk: Disk

    constructor (found: Disk)
      ensures disk == found
    {
      disk := found;
    }

    /** Any step may fail or be the last one; what fails to be deleted stays where it is. */
    method Persist(s: State) returns (returned: bool)
      requires Keyed(s) && Sized(BodyOf(s))
      modifies this
      ensures InOneOfThreePlaces(old(disk), disk, Encode(s))
      ensures returned ==> disk.primary == Some(Encode(s)) && disk.temp.None?
      ensures Storable(s) && Good(old(disk)) ==>
                && Good(disk) && Recover(disk) in {Recover(old(disk)), s.(committed := false)}
                && (returned ==> Recover(disk) == s.(committed := false))
    {
      if Storable(s) && Good(disk) {
        forall after | InOneOfThreePlaces(disk, after, Encode(s)) {
          ReplacedRecovers(disk, after, s);
        }
      }
      hide Decode, Encode, Storable, Keyed, Recover;
      disk := disk.(temp := Some([]));
      var bytes, written: nat := Encode(s), 0;
      while written < |bytes|
        invariant written <= |bytes| && disk == old(disk).(temp := Some(bytes[..written]))
      {
        if * {
          return false;
        }
        var more: nat :| written < more <= |bytes|;
        disk := disk.(temp := Some(bytes[..more]));
        written := more;
      }
      assert bytes[..written] == bytes;
      if * {
        return false;
      }
      if disk.primary.Some? {
        if disk.backup.Some? {
          if * {
            disk := disk.(backup := None);
          }
          if * {
            return false;
          }
        }
        disk := MovedAside(disk);
        if * {
          return false;
        }
      }
      disk := Installed(disk);
      if * {
        return false;
      }
      if disk.backup.Some? {
        if * {
          disk := disk.(backup := None);
        }
      }
      returned := true;
    }
  }

  /** The snapshot's name is taken by the new file, by the old one, or by neither while the old one is kept aside. */
  predicate InOneOfThreePlaces(before: Disk, after: Disk, bytes: Data) {
    || after.primary == Some(bytes)
    || (after.primary == before.primary && (before.primary.None? ==> after.backup == before.backup))
    || (after.primary.None? && before.primary.Some? && after.backup == before.primary)
  }

  lemma ReplacedRecovers(before: Disk, after: Disk, s: State)
    requires Whole(s) && Good(before) && InOneOfThreePlaces(before, after, Encode(s))
    ensures Good(after) && Recover(after) in {Recover(before), s.(committed := false)}
    ensures after.primary == Some(Encode(s)) ==> Recover(after) == s.(committed := false)
  {
    WrittenLoads(s);
    hide Decode, Encode, Storable, Keyed;
  }

  // ---------- Runs of persists ----------

  /** The complete file of a snapshot. */
  ghost function WholeFile(s: State): Data {
    if Whole(s) then Encode(s) else []
  }

  lemma WholeFileLoads(s: State)
    requires Whole(s)
    ensures Load(Some(WholeFile(s))) == Some(s.(committed := false))
  {
    hide Decode, Encode;
    WrittenLoads(s);
  }

  datatype Pc = Idle | Filling(length: nat) | Filled | Moving | Ready | Done

  /** `begun`, `committed` and `returned` number the persists that last began, last took the snapshot's name, and
      last returned. */
  datatype Config = Config(disk: Disk, pc: Pc, wanted: State, begun: nat, committed: nat, returned: nat)

  datatype Action =
    | Begin(s: State) | Write(length: nat) | Flush | SkipBackup | RemoveBackup | MoveAside | SkipMove | Install
    | Finish(remove: bool) | Cut

  ghost predicate Next(c: Config, a: Action, e: Config) {
    match a
    case Begin(s) => c.pc.Idle? && Whole(s)
                     && e == c.(pc := Filling(0), wanted := s, begun := c.begun + 1, disk := c.disk.(temp := Some([])))
    case Write(length) => c.pc.Filling? && c.pc.length < length <= |WholeFile(c.wanted)|
                          && e == c.(pc := Filling(length),
                                     disk := c.disk.(temp := Some(WholeFile(c.wanted)[..length])))
    case Flush => c.pc.Filling? && c.pc.length == |WholeFile(c.wanted)| && e == c.(pc := Filled)
    case SkipBackup => c.pc.Filled? && c.disk.primary.Some? && e == c.(pc := Moving)
    case RemoveBackup => c.pc.Filled? && c.disk.primary.Some? && c.disk.backup.Some?
                         && e == c.(pc := Moving, disk := c.disk.(backup := None))
    case MoveAside => c.pc.Moving? && c.disk.primary.Some? && e == c.(pc := Ready, disk := MovedAside(c.disk))
    case SkipMove => c.pc.Filled? && c.disk.primary.None? && e == c.(pc := Ready)
    case Install => c.pc.Ready? && c.disk.temp.Some?
                    && e == c.(pc := Done, disk := Installed(c.disk), committed := c.begun)
    case Finish(remove) => c.pc.Done? && (remove ==> c.disk.backup.Some?)
                           && e == c.(pc := Idle, returned := c.begun,
                                      disk := if remove then c.disk.(backup := None) else c.disk)
    case Cut => !c.pc.Idle? && e == c.(pc := Idle)
  }

  datatype Run = Start(first: Config) | Step(before: Run, action: Action, last: Config)

  function Last(r: Run): Config {
    match r case Start(c) => c case Step(_, _, c) => c
  }

  ghost predicate IsRun(r: Run) {
    match r
    case Start(c) => c.pc.Idle? && c.begun == c.committed == c.returned == 0 && Good(c.disk)
    case Step(before, a, c) => IsRun(before) && Next(Last(before), a, c)
  }

  function First(r: Run): Config {
    match r case Start(c) => c case Step(before, _, _) => First(before)
  }

  /** The snapshot of the persist that last took the name; before any did, what was found at the start. */
  ghost function Committed(r: Run): State {
    match r
    case Start(c) => Recover(c.disk)
    case Step(before, a, c) => if a.Install? then c.wanted.(committed := false) else Committed(before)
  }

  /** What holds at every step of a run. */
  ghost predicate Sound(c: Config) {
    && Good(c.disk)
    && (!c.pc.Idle? ==> Whole(c.wanted))
    && (c.pc.Filling? ==>
          c.pc.length <= |WholeFile(c.wanted)| && c.disk.temp == Some(WholeFile(c.wanted)[..c.pc.length]))
    && (c.pc.Filled? || c.pc.Moving? || c.pc.Ready? ==> c.disk.temp == Some(WholeFile(c.wanted)))
    && (c.pc.Ready? ==> c.disk.primary.None?)
    && (c.pc.Done? ==> c.disk.primary.Some? && c.returned < c.committed == c.begun)
    && (c.pc.Filling? || c.pc.Filled? || c.pc.Moving? || c.pc.Ready? ==> c.committed < c.begun)
    && c.returned <= c.committed <= c.begun
  }

  lemma StepKeeps(c: Config, a: Action, e: Config)
    requires Sound(c) && Next(c, a, e)
    ensures Sound(e)
  {
    hide Whole, WholeFile, Load;
    if a.Flush? {
      assert WholeFile(c.wanted)[..|WholeFile(c.wanted)|] == WholeFile(c.wanted);
    }
    if a.Install? {
      WholeFileLoads(c.wanted);
    }
  }

  lemma TempIsIgnored(d: Disk, t: Option<Data>)
    ensures Recover(d.(temp := t)) == Recover(d)
  {
    hide Load;
  }

  /** Beside a complete snapshot the one moved aside does not count, and moving it aside loses nothing. */
  lemma BackupIsIgnored(d: Disk)
    requires Good(d) && d.primary.Some?
    ensures Recover(d.(backup := None)) == Recover(d) == Recover(MovedAside(d))
  {
    assert Load(None) == None;
    hide Load;
  }

  lemma InstalledRecovers(d: Disk, s: State)
    requires Whole(s) && d.temp == Some(WholeFile(s))
    ensures Recover(Installed(d)) == s.(committed := false)
  {
    WholeFileLoads(s);
    hide Load, Whole, WholeFile;
  }

  /** Only the step that gives the new snapshot its name changes what is recovered. */
  lemma StepRecovers(c: Config, a: Action, e: Config)
    requires Sound(c) && Next(c, a, e)
    ensures Recover(e.disk) == if a.Install? then e.wanted.(committed := false) else Recover(c.disk)
  {
    hide Whole, WholeFile, Load, Recover, Good;
    match a
    case Begin(s) => TempIsIgnored(c.disk, e.disk.temp);
    case Write(_) => TempIsIgnored(c.disk, e.disk.temp);
    case RemoveBackup => BackupIsIgnored(c.disk);
    case MoveAside => BackupIsIgnored(c.disk);
    case Install => InstalledRecovers(c.disk, c.wanted);
    case Finish(remove) => if remove { BackupIsIgnored(c.disk); }
    case _ =>
  }

  /** At every moment of every run, opening the index finds the snapshot that last took the name. */
  lemma {:induction false} RunRecovers(r: Run)
    requires IsRun(r)
    ensures Sound(Last(r)) && Recover(Last(r).disk) == Committed(r)
  {
    hide Recover, Sound, Next;
    match r
    case Start(c) =>
      StartIsSound(c);
    case Step(before, a, c) =>
      RunRecovers(before);
      StepKeeps(Last(before), a, c);
      StepRecovers(Last(before), a, c);
  }

  lemma StartIsSound(c: Config)
    requires IsRun(Start(c))
    ensures Sound(c)
  {
  }

  // ---------- Which snapshot that is ----------

  /** What was found at the start, then the snapshots of all persists in the order in which they began. */
  ghost function Snapshots(r: Run): seq<State> {
    match r
    case Start(c) => [Recover(c.disk)]
    case Step(before, a, _) => Snapshots(before) + if a.Begin? then [a.s.(committed := false)] else []
  }

  /** The snapshot of the last persist that returned; before any did, what was found at the start. */
  ghost function LastReturned(r: Run): State {
    match r
    case Start(c) => Recover(c.disk)
    case Step(before, a, c) => if a.Finish? then c.wanted.(committed := false) else LastReturned(before)
  }

  /** The snapshot of the last persist that began. */
  ghost function LastBegun(r: Run): State {
    match r
    case Start(c) => Recover(c.disk)
    case Step(before, a, _) => if a.Begin? then a.s.(committed := false) else LastBegun(before)
  }

  /** The persist that last took the name was cut off before it returned. */
  ghost predicate CutAfterNaming(r: Run) {
    match r
    case Start(_) => false
    case Step(before, a, _) => !a.Install? && (CutAfterNaming(before) || (a.Cut? && Last(before).pc.Done?))
  }

  /** After that, and before any other took the name, another persist began. */
  ghost predicate Overtaken(r: Run) {
    match r
    case Start(_) => false
    case Step(before, a, _) => !a.Install? && (Overtaken(before) || (a.Begin? && CutAfterNaming(before)))
  }

  /** The numbers of the persists say what their order in the run says. */
  ghost predicate Counted(r: Run) {
    && (CutAfterNaming(r) <==> Last(r).returned < Last(r).committed && !Last(r).pc.Done?)
    && (Overtaken(r) <==> CutAfterNaming(r) && Last(r).committed < Last(r).begun)
  }

  lemma {:induction false} RunCounts(r: Run)
    requires IsRun(r)
    ensures Counted(r)
  {
    if r.Step? {
      RunCounts(r.before);
      RunRecovers(r.before);
      hide Sound, Counted, Next;
      CountedStep(r);
    }
  }

  lemma CountedStep(r: Run)
    requires r.Step? && Counted(r.before) && Next(Last(r.before), r.action, r.last) && Sound(Last(r.before))
    ensures Counted(r)
  {
    hide Whole, WholeFile, Recover, Good, Load;
  }

  ghost predicate Numbered(r: Run) {
    var c := Last(r);
    && |Snapshots(r)| == c.begun + 1 && c.returned <= c.committed <= c.begun
    && Snapshots(r)[c.returned] == LastReturned(r) && Snapshots(r)[c.committed] == Committed(r)
    && Snapshots(r)[c.begun] == LastBegun(r)
    && (!c.pc.Idle? ==> c.wanted.(committed := false) == LastBegun(r))
  }

  lemma {:induction false} SnapshotsAreNumbered(r: Run)
    requires IsRun(r)
    ensures Numbered(r)
  {
    if r.Step? {
      SnapshotsAreNumbered(r.before);
      RunRecovers(r);
      NumberedStep(r);
    }
  }

  lemma NumberedStep(r: Run)
    requires r.Step? && Numbered(r.before) && Next(Last(r.before), r.action, r.last) && Sound(r.last)
    ensures Numbered(r)
  {
    hide Whole, WholeFile, Recover, Good, Load;
  }

  ghost predicate Different(snapshots: seq<State>) {
    forall i, j :: 0 <= i < j < |snapshots| ==> snapshots[i] != snapshots[j]
  }

  /** What is recovered is the snapshot of the last persist that returned or that of the one that last began, unless a
      persist was cut off after it took the name and another one has begun since; then it is neither of the two, when
      all snapshots differ. */
  lemma ReturnedOrBegunExactly(r: Run)
    requires IsRun(r)
    ensures !Overtaken(r) ==> Recover(Last(r).disk) in {LastReturned(r), LastBegun(r)}
    ensures Overtaken(r) && Different(Snapshots(r)) ==> Recover(Last(r).disk) !in {LastReturned(r), LastBegun(r)}
  {
    RunRecovers(r);
    RunCounts(r);
    SnapshotsAreNumbered(r);
    hide Recover, IsRun, Committed, Snapshots, LastReturned, LastBegun, CutAfterNaming, Overtaken, Whole, WholeFile;
    hide Good;
  }

  // ---------- A run in which neither of the two is recovered ----------

  lemma Extended(r: Run, a: Action, e: Config) returns (q: Run)
    requires IsRun(r) && Next(Last(r), a, e)
    ensures q == Step(r, a, e) && IsRun(q) && Last(q) == e && First(q) == First(r)
    ensures Committed(q) == if a.Install? then e.wanted.(committed := false) else Committed(r)
    ensures LastReturned(q) == if a.Finish? then e.wanted.(committed := false) else LastReturned(r)
    ensures LastBegun(q) == if a.Begin? then a.s.(committed := false) else LastBegun(r)
  {
    q := Step(r, a, e);
  }

  lemma FilledTo(r: Run, s: State) returns (q: Run)
    requires IsRun(r) && Last(r).pc.Idle? && Whole(s)
    ensures IsRun(q) && First(q) == First(r) && LastReturned(q) == LastReturned(r)
    ensures Last(q) == Last(r).(pc := Filled, wanted := s, begun := Last(r).begun + 1,
                                disk := Last(r).disk.(temp := Some(WholeFile(s))))
  {
    FileIsNotEmpty(s);
    hide Whole, WholeFile, Good, Recover, IsRun, First, Last, Committed, LastReturned, LastBegun, Next;
    var file, c := WholeFile(s), Last(r);
    var begun := c.(pc := Filling(0), wanted := s, begun := c.begun + 1, disk := c.disk.(temp := Some([])));
    BeginIsNext(c, s);
    q := Extended(r, Begin(s), begun);
    FillIsNext(begun);
    var full := begun.(pc := Filling(|file|), disk := begun.disk.(temp := Some(file)));
    q := Extended(q, Write(|file|), full);
    q := Extended(q, Flush, full.(pc := Filled));
  }

  lemma FileIsNotEmpty(s: State)
    requires Whole(s)
    ensures WholeFile(s) != []
  {
  }

  lemma BeginIsNext(c: Config, s: State)
    requires c.pc.Idle? && Whole(s)
    ensures Next(c, Begin(s),
                 c.(pc := Filling(0), wanted := s, begun := c.begun + 1, disk := c.disk.(temp := Some([]))))
  {
    hide Whole;
  }

  lemma FillIsNext(c: Config)
    requires c.pc == Filling(0) && WholeFile(c.wanted) != []
    ensures var file := WholeFile(c.wanted);
            var full := c.(pc := Filling(|file|), disk := c.disk.(temp := Some(file)));
            Next(c, Write(|file|), full) && Next(full, Flush, full.(pc := Filled))
  {
    hide WholeFile;
    var file := WholeFile(c.wanted);
    assert file[..|file|] == file;
  }

  /** Extends a run by a persist up to the moment when the snapshot has its name. */
  lemma PersistedTo(r: Run, s: State) returns (q: Run)
    requires IsRun(r) && Last(r).pc.Idle? && Whole(s)
    ensures IsRun(q) && First(q) == First(r) && Last(q).pc.Done? && Committed(q) == s.(committed := false)
    ensures LastReturned(q) == LastReturned(r)
  {
    hide Whole, WholeFile, Good, Recover, IsRun, First, Last, Committed, LastReturned, LastBegun;
    q := FilledTo(r, s);
    var full := Last(q);
    if full.disk.primary.Some? {
      var moving := full.(pc := Moving);
      q := Extended(q, SkipBackup, moving);
      q := Extended(q, MoveAside, moving.(pc := Ready, disk := MovedAside(moving.disk)));
    } else {
      q := Extended(q, SkipMove, full.(pc := Ready));
    }
    var ready := Last(q);
    q := Extended(q, Install, ready.(pc := Done, disk := Installed(ready.disk), committed := ready.begun));
  }

  /** The empty snapshot with some empty lists of changes. */
  function Sample(n: nat): State {
    EMPTY.(fileChanges := seq(n, _ => []))
  }

  lemma NoRowsFit(layout: Layout, minimum: nat)
    ensures Has(KindList(layout, minimum), Rows([])) && Short(KindList(layout, minimum), Rows([]))
  {
  }

  lemma EmptyListsFit(n: nat)
    requires n < 3
    ensures var rows := Rows(seq(n, _ => ChangeSetRow([])));
            Has(KindList(CHANGES, 8), rows) && Short(KindList(CHANGES, 8), rows)
  {
    NoRowsFit(CHANGE, 10);
    FitsIsHasFields(CHANGES, ChangeSetRow([]));
    ShortWhenEach(CHANGES, ChangeSetRow([]));
    SameRowsFit(CHANGES, ChangeSetRow([]), n);
  }

  lemma SampleIsWhole(n: nat)
    requires n < 3
    ensures Whole(Sample(n))
  {
    var body := BodyOf(Sample(n));
    assert body[5].rows == seq(n, _ => ChangeSetRow([]));
    NoRowsFit(VOLUME, 34);
    NoRowsFit(SESSION, 41);
    NoRowsFit(DIRECTORY, 41);
    NoRowsFit(FileLayout(VERSION), 48);
    NoRowsFit(LINEAGE, 34);
    EmptyListsFit(n);
    hide Has, Short, HasFields, ShortFields, FileLayout;
    FitsIsHasFields(Body(VERSION), body);
    ShortWhenEach(Body(VERSION), body);
  }

  lemma SamplesDiffer(a: nat, b: nat)
    requires a != b
    ensures Sample(a).(committed := false) != Sample(b).(committed := false)
  {
    assert |Sample(a).fileChanges| == a && |Sample(b).fileChanges| == b;
  }

  /** One persist returns, the next is cut off after its snapshot has the name, a third is cut off at once: what is
      recovered is the second snapshot, neither the last one whose persist returned nor the one last begun. */
  lemma NeitherReturnedNorBegun(start: Config) returns (r: Run)
    requires IsRun(Start(start))
    ensures IsRun(r) && First(r) == start && Recover(Last(r).disk) == Sample(1)
    ensures LastReturned(r) == Sample(0) != Sample(1) && LastBegun(r) == Sample(2) != Sample(1)
  {
    r := Start(start);
    assert First(r) == start;
    SampleIsWhole(0);
    SampleIsWhole(1);
    SampleIsWhole(2);
    SamplesDiffer(0, 1);
    SamplesDiffer(1, 2);
    assert forall n :: Sample(n).(committed := false) == Sample(n);
    hide Whole, Good, Recover, WholeFile, IsRun, First, Last, Committed, Sample, Snapshots, LastReturned, LastBegun;
    r := PersistedTo(r, Sample(0));
    r := Returned(r, Sample(0));
    r := PersistedTo(r, Sample(1));
    r := CutTwice(r, Sample(2));
    RunRecovers(r);
  }

  lemma Returned(r: Run, s: State) returns (q: Run)
    requires IsRun(r) && Last(r).pc.Done? && Committed(r) == s.(committed := false)
    ensures IsRun(q) && First(q) == First(r) && Last(q).pc.Idle? && LastReturned(q) == s.(committed := false)
  {
    q := Extended(r, Finish(false), Last(r).(pc := Idle, returned := Last(r).begun));
    SnapshotsAreNumbered(q);
    SnapshotsAreNumbered(r);
    RunCounts(r);
    hide Whole, Good, Recover, WholeFile, IsRun, First, Committed, Snapshots, LastReturned, LastBegun;
  }

  /** Cut off after taking the name, and again as soon as another persist has begun. */
  lemma CutTwice(r: Run, s: State) returns (q: Run)
    requires IsRun(r) && Last(r).pc.Done? && Whole(s)
    ensures IsRun(q) && First(q) == First(r) && Committed(q) == Committed(r)
    ensures LastReturned(q) == LastReturned(r) && LastBegun(q) == s.(committed := false)
  {
    hide Whole, Good, Recover, WholeFile, IsRun, First, Last, Committed, LastReturned, LastBegun;
    var cut := Last(r).(pc := Idle);
    q := Extended(r, Cut, cut);
    var next := cut.(pc := Filling(0), wanted := s, begun := cut.begun + 1, disk := cut.disk.(temp := Some([])));
    q := Extended(q, Begin(s), next);
    q := Extended(q, Cut, next.(pc := Idle));
  }
}
