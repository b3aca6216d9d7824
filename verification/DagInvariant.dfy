/** What every step of the parallel builder keeps. */
module DagInvariant {
  import opened Wrappers
  import opened Graphs
  import opened DagBuild
  import B = Bitmap

  /** What the builder's set-up loop leaves: every index in range, every node listed with the nodes it waits for. */
  ghost predicate ValidConfig(c: Config) {
    && InRange(c.g) && |c.dependents| == |c.g|
    && forall d :: 0 <= d < |c.g| ==> ListsDependents(c.g, d, c.dependents[d])
  }

  ghost predicate NeedsBuilt(c: Config, built: set<int>, x: int) {
    0 <= x < |c.g| && forall d {:trigger d in c.g[x]} :: d in c.g[x] ==> d in built
  }

  // ---------------------------------------------------------------- counters

  /** The dependents whose counter the lock holder has lowered so far. */
  ghost function Seen(c: Config, s: State): seq<int> {
    if s.lock.None? || !TaskAt(s, s.lock.value) then []
    else SeenBy(c, s.tasks[s.lock.value])
  }

  ghost function SeenBy(c: Config, t: Task): seq<int> {
    match t.pc
    case Lowering(k) => if k <= |Row(c, t.node)| then Row(c, t.node)[..k] else []
    case Marking(k) => if k < |Row(c, t.node)| then Row(c, t.node)[..k + 1] else []
    case _ => []
  }

  /** How many entries of the dependency list of `i` are not yet taken off its counter. */
  ghost function OpenCount(c: Config, s: State, i: nat): int
    requires i < |c.g|
  {
    Open(c.g[i], s.settled) - Times(Seen(c, s), i)
  }

  // ---------------------------------------------------------------- who will start a ready node

  ghost predicate StarterWillCheck(s: State, i: nat) {
    || (s.starter.Checking? && s.starter.i <= i)
    || (s.starter.Calling? && s.starter.k < i)
    || AboutToStart(s.starter, i)
  }

  /** In a call of `schedule(i)`, before its compare-and-swap. */
  ghost predicate AboutToStart(pc: Pc, i: nat) {
    pc.Calling? && pc.child == i && (pc.phase.Load? || pc.phase.Swap?)
  }

  /** The task still has to look at node `i` in the loop over its dependents. */
  ghost predicate StillToVisit(c: Config, t: Task, i: nat) {
    match t.pc
    case Lowering(_) => i in Row(c, t.node)
    case Marking(_) => i in Row(c, t.node)
    case Claiming(k) => k <= |Row(c, t.node)| && i in Row(c, t.node)[k..]
    case Calling(k, _, _) => k < |Row(c, t.node)| && i in Row(c, t.node)[k + 1..]
    case _ => false
  }

  ghost predicate BeingMarked(c: Config, s: State, i: nat) {
    && s.lock.Some? && TaskAt(s, s.lock.value)
    && s.tasks[s.lock.value].pc.Marking?
    && s.tasks[s.lock.value].pc.k < |Row(c, s.tasks[s.lock.value].node)|
    && Row(c, s.tasks[s.lock.value].node)[s.tasks[s.lock.value].pc.k] == i
  }

  /** A node with nothing open has its task, or someone on the way to create it. */
  ghost predicate SomeoneStarts(c: Config, s: State, i: nat)
    requires i < |c.g| && |s.pending| == |s.owner| == |s.agent| == |c.g|
  {
    if s.pending[i] == 0 then
      if c.g[i] == [] then s.owner[i] >= 0 || StarterWillCheck(s, i) else BeingMarked(c, s, i)
    else if s.pending[i] == READY then
      TaskAt(s, s.agent[i]) && StillToVisit(c, s.tasks[s.agent[i]], i)
    else
      && s.pending[i] == CLAIMED
      && (s.owner[i] >= 0 || (TaskAt(s, s.agent[i]) && AboutToStart(s.tasks[s.agent[i]].pc, i)))
  }

  ghost predicate NodeOk(c: Config, s: State, i: nat)
    requires i < |c.g| && |s.pending| == |s.owner| == |s.agent| == |c.g|
  {
    && (s.owner[i] >= 0 <==> B.Has(s.words, i))
    && (s.owner[i] >= 0 ==> s.owner[i] < |s.tasks| && s.tasks[s.owner[i]].node == i)
    && OpenCount(c, s, i) >= 0
    && (if OpenCount(c, s, i) > 0 then s.pending[i] == OpenCount(c, s, i) else SomeoneStarts(c, s, i))
  }

  // ---------------------------------------------------------------- tasks

  ghost predicate CallOk(c: Config, s: State, who: Actor, child: nat, phase: Phase) {
    && child < |c.g| && NeedsBuilt(c, s.built, child)
    && (match phase
        case Load => true
        case Swap(_) => true
        case Announce(x) => Spawned(s, who, child, x) && s.tasks[x].pc.Born?
        case Submit(x) => Spawned(s, who, child, x) && s.tasks[x].pc.Announced?
        case Inline(x) => Spawned(s, who, child, x) && !s.tasks[x].pc.Born? && !s.tasks[x].pc.Announced?)
  }

  ghost predicate Spawned(s: State, who: Actor, child: nat, x: nat) {
    TaskAt(s, x) && s.tasks[x].caller == who && s.tasks[x].node == child
  }

  ghost predicate SpawnedBy(s: State, a: nat) {
    && TaskAt(s, a) && Present(s, s.tasks[a].caller)
    && PcOf(s, s.tasks[a].caller).Calling?
    && PcOf(s, s.tasks[a].caller).phase ==
       (if s.tasks[a].pc.Born? then Announce(a) else Submit(a))
  }

  ghost predicate HasBegun(pc: Pc) {
    !pc.Born? && !pc.Announced? && !pc.Ready?
  }

  ghost predicate Reported(s: State, node: nat) {
    node in s.settled || s.err.Some?
  }

  ghost predicate TaskOk(c: Config, s: State, a: nat)
    requires a < |s.tasks|
  {
    var t := s.tasks[a];
    && t.node < |c.g| && NeedsBuilt(c, s.built, t.node)
    && t.node < |s.owner| && s.owner[t.node] == a
    && (t.caller.Worker? ==> t.caller.task < a)
    && (HasBegun(t.pc) <==> t.node in s.started)
    && PcOk(c, s, a)
  }

  ghost predicate PcOk(c: Config, s: State, a: nat)
    requires a < |s.tasks|
  {
    var t := s.tasks[a];
    match t.pc
    case Born => SpawnedBy(s, a) && t.node !in s.built + s.failed
    case Announced => SpawnedBy(s, a) && t.node !in s.built + s.failed
    case Ready => t.node !in s.built + s.failed
    case Building => t.node !in s.built + s.failed
    case Failing => t.node in s.failed
    case Finishing => t.node in s.built && t.node !in s.settled
    case Lowering(k) => t.node in s.built && t.node !in s.settled && s.lock == Some(a) && k <= |Row(c, t.node)|
    case Marking(k) => t.node in s.built && t.node !in s.settled && s.lock == Some(a) && k < |Row(c, t.node)|
    case Claiming(k) => t.node in s.built && Reported(s, t.node) && k <= |Row(c, t.node)|
    case Calling(k, child, phase) =>
      && t.node in s.built && Reported(s, t.node) && k < |Row(c, t.node)| && Row(c, t.node)[k] == child
      && CallOk(c, s, Worker(a), child, phase)
    case Leaving => (t.node in s.built && Reported(s, t.node)) || (t.node in s.failed && s.err.Some?)
    case Finished => (t.node in s.built && Reported(s, t.node)) || (t.node in s.failed && s.err.Some?)
    case _ => false
  }

  ghost predicate StarterOk(c: Config, s: State) {
    match s.starter
    case Checking(i) => i <= |c.g|
    case Calling(k, child, phase) => k == child && CallOk(c, s, Starter, child, phase)
    case Waiting => true
    case Returned(_) => true
    case _ => false
  }

  /** The number of tasks that have been added to the wait group and have not left it. */
  ghost function Live(tasks: seq<Task>): nat {
    if tasks == [] then 0
    else Live(tasks[..|tasks| - 1]) + if Counts(tasks[|tasks| - 1].pc) then 1 else 0
  }

  ghost predicate Counts(pc: Pc) {
    !pc.Born? && !pc.Finished?
  }

  ghost predicate HistoryOk(c: Config, s: State) {
    && (forall i :: 0 <= i < |s.started| ==> 0 <= s.started[i] < |c.g|)
    && (forall i, j :: 0 <= i < j < |s.started| ==> s.started[i] != s.started[j])
    && (forall i {:trigger NeedsOnly(c.g, s.started[i], s.started[..i])} :: 0 <= i < |s.started| ==>
          NeedsOnly(c.g, s.started[i], s.started[..i]))
    && (forall x :: x in s.started ==> 0 <= x < |s.owner| && s.owner[x] >= 0)
    && (forall x :: x in s.built ==> x in s.started && x !in s.failed)
    && (forall x :: x in s.failed ==> x in s.started)
    && s.settled <= s.built
  }

  ghost predicate SharedOk(c: Config, s: State) {
    && |s.pending| == |c.g| && |s.owner| == |c.g| && |s.agent| == |c.g| && |s.words| == B.WordCount(|c.g|)
    && (s.lock.Some? ==> TaskAt(s, s.lock.value) &&
                         (s.tasks[s.lock.value].pc.Lowering? || s.tasks[s.lock.value].pc.Marking?))
    && (s.err.Some? ==> s.err.value in s.failed)
    && s.completed == |s.settled| + (if s.lock.Some? then 1 else 0)
    && s.wg == Live(s.tasks)
  }

  ghost predicate Invariant(c: Config, s: State) {
    && ValidConfig(c)
    && SharedOk(c, s)
    && HistoryOk(c, s)
    && StarterOk(c, s)
    && (forall a {:trigger TaskOk(c, s, a)} :: 0 <= a < |s.tasks| ==> TaskOk(c, s, a))
    && (forall i {:trigger NodeOk(c, s, i)} :: 0 <= i < |c.g| ==> NodeOk(c, s, i))
  }

  // ---------------------------------------------------------------- the start

  lemma InitNode(c: Config, i: nat)
    requires ValidConfig(c) && i < |c.g|
    ensures NodeOk(c, Init(c), i)
  {
    OpenNothingDone(c.g[i]);
  }

  lemma InitHolds(c: Config)
    requires ValidConfig(c)
    ensures Invariant(c, Init(c))
  {
    forall i | 0 <= i < |c.g|
      ensures NodeOk(c, Init(c), i)
    {
      InitNode(c, i);
    }
  }
}
