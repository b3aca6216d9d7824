/** The parallel builder as a state machine. Its steps are the atomic actions of the start loop, of the tasks and
    of `schedule`, which both of them call; any order of steps is a run. A task may run in the pool or inside its
    caller, who then waits for it. The start loop reads the counters without the lock. */
module DagBuild {
  import opened Wrappers
  import opened Graphs
  import B = Bitmap

  /** The graph and, for each node, the nodes that wait for it. */
  datatype Config = Config(g: Graph, dependents: seq<seq<int>>)

  datatype Actor = Starter | Worker(task: nat)

  /** Where a call of `schedule` stands. */
  datatype Phase =
    | Load                      // about to read the word of the bitmap
    | Swap(seen: B.Word)        // about to compare-and-swap it
    | Announce(task: nat)       // the bit is won: about to add the task to the wait group
    | Submit(task: nat)         // about to offer the task to the pool
    | Inline(task: nat)         // the pool refused: the task runs here

  datatype Pc =
    // the start loop and what follows it
    | Checking(i: nat)
    | Waiting
    | Returned(result: Outcome)
    // a call of schedule(child) at position k of the caller's loop
    | Calling(k: nat, child: nat, phase: Phase)
    // a task
    | Born | Announced | Ready
    | Building | Failing
    | Finishing                 // built, about to take the lock
    | Lowering(k: nat)          // holds the lock, about to lower the counter of dependent k
    | Marking(k: nat)           // holds the lock, has lowered it, about to mark it ready if it is zero
    | Claiming(k: nat)          // about to look whether dependent k is marked ready
    | Leaving | Finished

  datatype Outcome = Success | BuildFailed(node: nat) | DependencyCycle
  datatype Task = Task(node: nat, caller: Actor, pc: Pc)

  /** The variables of the builder, then what the statements need to remember of the run: the order of build
      starts, the nodes built, failed and fully reported to their dependents, the task of each node (or -1), and
      the task last seen to mark or to claim a node. */
  datatype State = State(
    pending: seq<int>, words: seq<B.Word>, completed: nat, err: Option<nat>, lock: Option<nat>, wg: int,
    starter: Pc, tasks: seq<Task>,
    started: seq<int>, built: set<int>, failed: set<int>, settled: set<int>, owner: seq<int>, agent: seq<nat>)

  const READY := -1
  const CLAIMED := -2

  datatype Label =
    | Check | StartWaiting | Return
    | LoadWord(who: Actor) | SwapWord(who: Actor) | AnnounceTask(who: Actor)
    | PoolAccepts(who: Actor) | PoolRefuses(who: Actor) | InlineDone(who: Actor)
    | Begin(a: nat) | BuildSucceeds(a: nat) | BuildFails(a: nat) | RecordFailure(a: nat)
    | TakeLock(a: nat) | Lower(a: nat) | Mark(a: nat) | ReleaseLock(a: nat)
    | Claim(a: nat) | PassBy(a: nat) | LoopEnds(a: nat) | Leave(a: nat)

  function Row(c: Config, node: nat): seq<int> {
    if node < |c.dependents| then c.dependents[node] else []
  }

  function Init(c: Config): State {
    var n := |c.g|;
    State(seq(n, i requires 0 <= i < n => |c.g[i]|), B.NewWords(n), 0, None, None, 0, Checking(0), [],
          [], {}, {}, {}, seq(n, _ => -1), seq(n, _ => 0))
  }

  predicate Present(s: State, who: Actor) {
    who.Worker? ==> who.task < |s.tasks|
  }

  function PcOf(s: State, who: Actor): Pc
    requires Present(s, who)
  {
    if who.Starter? then s.starter else s.tasks[who.task].pc
  }

  function SetPc(s: State, who: Actor, pc: Pc): (t: State)
    requires Present(s, who)
  {
    if who.Starter? then s.(starter := pc) else s.(tasks := s.tasks[who.task := s.tasks[who.task].(pc := pc)])
  }

  /** The caller's loop goes on after a call of `schedule`. */
  function Back(who: Actor, k: nat): Pc {
    if who.Starter? then Checking(k + 1) else Claiming(k + 1)
  }

  predicate CallIn(s: State, who: Actor) {
    Present(s, who) && PcOf(s, who).Calling?
  }

  predicate TaskAt(s: State, a: nat) {
    a < |s.tasks|
  }

  predicate WordInRange(s: State, child: nat) {
    child / 64 < |s.words|
  }

  predicate Enabled(c: Config, s: State, l: Label) {
    match l
    case Check => s.starter.Checking? && s.starter.i < |c.g| && s.starter.i < |s.pending|
    case StartWaiting => s.starter.Checking? && s.starter.i >= |c.g|
    case Return => s.starter.Waiting? && s.wg == 0 && s.lock.None?
    case LoadWord(who) => CallIn(s, who) && PcOf(s, who).phase.Load? && WordInRange(s, PcOf(s, who).child)
    case SwapWord(who) => CallIn(s, who) && PcOf(s, who).phase.Swap? && WordInRange(s, PcOf(s, who).child)
    case AnnounceTask(who) =>
      CallIn(s, who) && PcOf(s, who).phase.Announce? && TaskAt(s, PcOf(s, who).phase.task)
    case PoolAccepts(who) => CallIn(s, who) && PcOf(s, who).phase.Submit? && TaskAt(s, PcOf(s, who).phase.task)
    case PoolRefuses(who) => CallIn(s, who) && PcOf(s, who).phase.Submit? && TaskAt(s, PcOf(s, who).phase.task)
    case InlineDone(who) =>
      CallIn(s, who) && PcOf(s, who).phase.Inline? && TaskAt(s, PcOf(s, who).phase.task) &&
      s.tasks[PcOf(s, who).phase.task].pc.Finished? && s.lock.None?
    case Begin(a) => TaskAt(s, a) && s.tasks[a].pc.Ready?
    case BuildSucceeds(a) => TaskAt(s, a) && s.tasks[a].pc.Building?
    case BuildFails(a) => TaskAt(s, a) && s.tasks[a].pc.Building?
    case RecordFailure(a) => TaskAt(s, a) && s.tasks[a].pc.Failing? && s.lock.None?
    case TakeLock(a) => TaskAt(s, a) && s.tasks[a].pc.Finishing? && s.lock.None?
    case Lower(a) => TaskAt(s, a) && s.tasks[a].pc.Lowering? && HasDependent(c, s, a, s.tasks[a].pc.k)
    case Mark(a) => TaskAt(s, a) && s.tasks[a].pc.Marking? && HasDependent(c, s, a, s.tasks[a].pc.k)
    case ReleaseLock(a) =>
      TaskAt(s, a) && s.tasks[a].pc.Lowering? && s.tasks[a].pc.k >= |Row(c, s.tasks[a].node)|
    case Claim(a) =>
      TaskAt(s, a) && s.tasks[a].pc.Claiming? && HasDependent(c, s, a, s.tasks[a].pc.k) && s.lock.None? &&
      s.pending[Dependent(c, s, a, s.tasks[a].pc.k)] == READY
    case PassBy(a) =>
      TaskAt(s, a) && s.tasks[a].pc.Claiming? && HasDependent(c, s, a, s.tasks[a].pc.k) && s.lock.None? &&
      s.pending[Dependent(c, s, a, s.tasks[a].pc.k)] != READY
    case LoopEnds(a) => TaskAt(s, a) && s.tasks[a].pc.Claiming? && s.tasks[a].pc.k >= |Row(c, s.tasks[a].node)|
    case Leave(a) => TaskAt(s, a) && s.tasks[a].pc.Leaving?
  }

  predicate HasDependent(c: Config, s: State, a: nat, k: nat) {
    && TaskAt(s, a) && k < |Row(c, s.tasks[a].node)|
    && 0 <= Row(c, s.tasks[a].node)[k] < |s.pending|
  }

  function Dependent(c: Config, s: State, a: nat, k: nat): nat
    requires HasDependent(c, s, a, k)
  {
    Row(c, s.tasks[a].node)[k]
  }

  function Next(c: Config, s: State, l: Label): State
    requires Enabled(c, s, l)
  {
    match l
    case Check =>
      var i := s.starter.i;
      s.(starter := if s.pending[i] == 0 then Calling(i, i, Load) else Checking(i + 1))
    case StartWaiting => s.(starter := Waiting)
    case Return =>
      s.(starter := Returned(
           if s.err.Some? then BuildFailed(s.err.value)
           else if s.completed != |c.g| then DependencyCycle
           else Success))
    case LoadWord(who) =>
      var pc := PcOf(s, who);
      SetPc(s, who, pc.(phase := Swap(s.words[pc.child / 64])))
    case SwapWord(who) => NextSwap(s, who)
    case AnnounceTask(who) =>
      var pc := PcOf(s, who);
      var a := pc.phase.task;
      SetPc(SetTask(s, a, Announced).(wg := s.wg + 1), who, pc.(phase := Submit(a)))
    case PoolAccepts(who) =>
      var pc := PcOf(s, who);
      SetPc(SetTask(s, pc.phase.task, Ready), who, Back(who, pc.k))
    case PoolRefuses(who) =>
      var pc := PcOf(s, who);
      SetPc(SetTask(s, pc.phase.task, Ready), who, pc.(phase := Inline(pc.phase.task)))
    case InlineDone(who) =>
      var pc := PcOf(s, who);
      var t := s.tasks[pc.phase.task];
      SetPc(s.(err := if t.node in s.failed && s.err.None? then Some(t.node) else s.err), who, Back(who, pc.k))
    case Begin(a) => SetTask(s, a, Building).(started := s.started + [s.tasks[a].node])
    case BuildSucceeds(a) => SetTask(s, a, Finishing).(built := s.built + {s.tasks[a].node})
    case BuildFails(a) => SetTask(s, a, Failing).(failed := s.failed + {s.tasks[a].node})
    case RecordFailure(a) =>
      SetTask(s, a, Leaving).(err := if s.err.None? then Some(s.tasks[a].node) else s.err)
    case TakeLock(a) =>
      if s.err.None? then SetTask(s, a, Lowering(0)).(completed := s.completed + 1, lock := Some(a))
      else SetTask(s, a, Claiming(0))
    case Lower(a) =>
      var k := s.tasks[a].pc.k;
      var child := Dependent(c, s, a, k);
      SetTask(s, a, Marking(k)).(pending := s.pending[child := s.pending[child] - 1])
    case Mark(a) =>
      var k := s.tasks[a].pc.k;
      var child := Dependent(c, s, a, k);
      if s.pending[child] == 0 then
        SetTask(s, a, Lowering(k + 1)).(pending := s.pending[child := READY],
                                        agent := if child < |s.agent| then s.agent[child := a] else s.agent)
      else SetTask(s, a, Lowering(k + 1))
    case ReleaseLock(a) => SetTask(s, a, Claiming(0)).(lock := None, settled := s.settled + {s.tasks[a].node})
    case Claim(a) =>
      var k := s.tasks[a].pc.k;
      var child := Dependent(c, s, a, k);
      SetTask(s, a, Calling(k, child, Load)).(
        pending := s.pending[child := CLAIMED],
        agent := if child < |s.agent| then s.agent[child := a] else s.agent)
    case PassBy(a) => SetTask(s, a, Claiming(s.tasks[a].pc.k + 1))
    case LoopEnds(a) => SetTask(s, a, Leaving)
    case Leave(a) => SetTask(s, a, Finished).(wg := s.wg - 1)
  }

  function SetTask(s: State, a: nat, pc: Pc): State
    requires TaskAt(s, a)
  {
    s.(tasks := s.tasks[a := s.tasks[a].(pc := pc)])
  }

  /** The compare-and-swap of `TestAndSet`: try again, find the bit set, or win it and create the task. */
  function NextSwap(s: State, who: Actor): State
    requires Enabled(Config([], []), s, SwapWord(who))
  {
    var pc := PcOf(s, who);
    var w := pc.child / 64;
    if s.words[w] != pc.phase.seen then
      SetPc(s, who, pc.(phase := Load))
    else
      var s1 := s.(words := s.words[w := B.SetBit(pc.phase.seen, pc.child)]);
      if B.BitSet(pc.phase.seen, pc.child) then
        SetPc(s1, who, Back(who, pc.k))
      else
        var a := |s.tasks|;
        var s2 := SetPc(s1, who, pc.(phase := Announce(a)));
        s2.(tasks := s2.tasks + [Task(pc.child, who, Born)],
            owner := if pc.child < |s.owner| then s.owner[pc.child := a] else s.owner)
  }

  /** A run: a list of states, each reached from the one before by one step. */
  ghost predicate IsRun(c: Config, run: seq<State>) {
    && run != [] && run[0] == Init(c)
    && forall i :: 0 <= i < |run| - 1 ==> IsStep(c, run[i], run[i + 1])
  }

  ghost predicate IsStep(c: Config, s: State, t: State) {
    exists l :: Enabled(c, s, l) && t == Next(c, s, l)
  }
}
