/** How many workers there are: as many as the limit and the waiting tasks call for, before anybody takes a task. */
module WorkerCount {
  import opened Basics
  import opened DirectoryWalk
  import opened WorkerProtocol
  import opened WorkerInvariants
  import opened WorkerSteps
  import opened WorkerLaws

  /** How many workers a worker wants, as long as it starts others. */
  function Wanted(w: Worker): Option<nat> {
    match w
    case Sized(desired) => Some(desired)
    case Deciding(desired, _) => Some(desired)
    case _ => None
  }

  /** No worker believes that there are more than there are. */
  ghost predicate SeenBefore(s: Shared) {
    forall v :: 0 <= v < |s.workers| && s.workers[v].Deciding? ==> s.workers[v].seen <= s.started
  }

  ghost predicate SameWants(s: Shared, t: Shared) {
    && |s.workers| <= |t.workers|
    && forall v :: 0 <= v < |s.workers| && Wanted(s.workers[v]).Some? && Wanted(t.workers[v]).Some? ==>
         Wanted(t.workers[v]) == Wanted(s.workers[v])
  }

  lemma IdleKeepsWants(s: Shared, w: nat, a: Action, t: Shared)
    requires Does(s, w, a, t) && !Stirs(a) && !AtWork(a) && SeenBefore(s)
    ensures SeenBefore(t) && SameWants(s, t) && t.started == s.started && t.limit == s.limit
  {
  }

  lemma StirKeepsWants(s: Shared, w: nat, a: Action, t: Shared)
    requires Does(s, w, a, t) && Stirs(a) && SeenBefore(s)
    ensures SeenBefore(t) && SameWants(s, t) && t.started >= s.started && t.limit == s.limit
  {
    match a
    case Starting =>
    case Taking =>
    case Returning =>
  }

  lemma StepKeepsWants(s: Shared, t: Shared)
    requires Next(s, t) && SeenBefore(s)
    ensures SeenBefore(t) && SameWants(s, t) && t.started >= s.started && t.limit == s.limit
  {
    hide Does;
    if t != s.(cancelled := true) {
      var w: nat, a: Action :| Does(s, w, a, t);
      if AtWork(a) {
        WorkStep(s, w, a, t);
      } else if Stirs(a) {
        StirKeepsWants(s, w, a, t);
      } else {
        IdleKeepsWants(s, w, a, t);
      }
    }
  }

  lemma {:induction false} RunKeepsSeen(states: seq<Shared>, root: Place, i: nat)
    requires IsRun(states, root) && i < |states|
    ensures SeenBefore(states[i]) && states[i].limit == states[0].limit
  {
    hide Next;
    if i > 0 {
      RunKeepsSeen(states, root, i - 1);
      assert Next(states[i - 1], states[i - 1 + 1]);
      StepKeepsWants(states[i - 1], states[i]);
    } else {
      assert states[0].workers == [Top];
    }
  }

  /** From moment `i` to moment `j` worker `w` is starting others. */
  ghost predicate Recruits(states: seq<Shared>, w: nat, i: nat, j: nat) {
    i <= j < |states| && forall k :: i <= k <= j ==> w < |states[k].workers| && Wanted(states[k].workers[w]).Some?
  }

  lemma {:induction false} WantsStay(states: seq<Shared>, root: Place, w: nat, i: nat, j: nat)
    requires IsRun(states, root) && Recruits(states, w, i, j)
    ensures Wanted(states[j].workers[w]) == Wanted(states[i].workers[w])
    decreases j
  {
    hide Next, Init, SeenBefore;
    if i < j {
      WantsStay(states, root, w, i, j - 1);
      RunKeepsSeen(states, root, j - 1);
      assert Next(states[j - 1], states[j - 1 + 1]);
      StepKeepsWants(states[j - 1], states[j]);
      assert Recruits(states, w, i, j);
    }
  }

  /** A worker that measures the waiting tasks stops starting others only when there are as many workers as there are
      tasks, or as the limit allows, and never starts more than that. */
  lemma EnoughAreStarted(states: seq<Shared>, root: Place, w: nat, i: nat, j: nat)
    requires IsRun(states, root) && i < j < |states| - 1 && Recruits(states, w, i + 1, j)
    requires Does(states[i], w, Measuring, states[i + 1]) && Does(states[j], w, Enough, states[j + 1])
    ensures states[j].started >= Min(Max(states[0].limit, 1), Max(states[i].outstanding, 1))
  {
    hide Next, Init;
    WantsStay(states, root, w, i + 1, j);
    RunKeepsSeen(states, root, j);
    RunKeepsSeen(states, root, i);
  }

  /** A worker starts another one only while there are fewer than the tasks it measured and the limit call for. */
  lemma NoneTooMany(states: seq<Shared>, root: Place, w: nat, i: nat, j: nat)
    requires IsRun(states, root) && i < j < |states| - 1 && Recruits(states, w, i + 1, j)
    requires Does(states[i], w, Measuring, states[i + 1]) && Does(states[j], w, Starting, states[j + 1])
    ensures states[j].started < Min(Max(states[0].limit, 1), Max(states[i].outstanding, 1))
  {
    hide Next, Init;
    WantsStay(states, root, w, i + 1, j);
    RunKeepsSeen(states, root, i);
  }
}
