/** What the first failure of a build stops: nothing is counted and no counter lowered any more, so no node starts
    unless all it needs had been reported before, and the failure is the one returned. And what it does not stop: a
    task that was built still looks at all its dependents. */
module DagFailure {
  import opened Wrappers
  import opened Graphs
  import opened DagBuild
  import opened DagInvariant
  import opened DagSteps
  import opened DagTheorems

  // ---------------------------------------------------------------- counters of nodes on their way

  /** Nothing is left on the counter, however it is marked. */
  ghost predicate Released(s: State, x: int) {
    0 <= x < |s.pending| && s.pending[x] <= 0
  }

  ghost predicate CallReleased(s: State, pc: Pc) {
    pc.Calling? ==> Released(s, pc.child)
  }

  ghost predicate TaskReleased(s: State, t: Task) {
    Released(s, t.node) && CallReleased(s, t.pc)
  }

  ghost predicate AllReleased(s: State) {
    CallReleased(s, s.starter) && forall a {:trigger s.tasks[a]} :: 0 <= a < |s.tasks| ==> TaskReleased(s, s.tasks[a])
  }

  ghost predicate StaysReleased(s: State, t: State) {
    forall x {:trigger Released(t, x)} :: Released(s, x) ==> Released(t, x)
  }

  lemma StepReleases(c: Config, s: State, l: Label)
    requires Enabled(c, s, l)
    ensures StaysReleased(s, Next(c, s, l))
  {
  }

  lemma SwapKeepsReleased(c: Config, s: State, who: Actor)
    requires Enabled(c, s, SwapWord(who)) && AllReleased(s)
    ensures AllReleased(Next(c, s, SwapWord(who)))
  {
    var t := Next(c, s, SwapWord(who));
    assert t.pending == s.pending;
    assert CallReleased(s, PcOf(s, who));
    forall a | 0 <= a < |t.tasks|
      ensures TaskReleased(t, t.tasks[a])
    {
      assert a < |s.tasks| ==> TaskReleased(s, s.tasks[a]);
    }
  }

  lemma CallKeepsReleased(c: Config, s: State, l: Label)
    requires Enabled(c, s, l) && AllReleased(s)
    requires l.LoadWord? || l.AnnounceTask? || l.PoolAccepts? || l.PoolRefuses? || l.InlineDone?
    ensures AllReleased(Next(c, s, l))
  {
    var t := Next(c, s, l);
    assert t.pending == s.pending;
    forall a | 0 <= a < |t.tasks|
      ensures TaskReleased(t, t.tasks[a])
    {
      assert TaskReleased(s, s.tasks[a]);
    }
  }

  /** Every task and every call of `schedule` is for a node with nothing left on its counter. */
  lemma StepKeepsReleased(c: Config, s: State, l: Label)
    requires Enabled(c, s, l) && AllReleased(s)
    ensures AllReleased(Next(c, s, l))
  {
    if l.SwapWord? {
      SwapKeepsReleased(c, s, l.who);
    } else if l.LoadWord? || l.AnnounceTask? || l.PoolAccepts? || l.PoolRefuses? || l.InlineDone? {
      CallKeepsReleased(c, s, l);
    } else {
      var t := Next(c, s, l);
      StepReleases(c, s, l);
      forall a | 0 <= a < |t.tasks|
        ensures TaskReleased(t, t.tasks[a])
      {
        assert TaskReleased(s, s.tasks[a]);
      }
    }
  }

  // ---------------------------------------------------------------- one step

  /** The same nodes are counted and reported, and counters are at most claimed. */
  ghost predicate Frozen(s: State, t: State) {
    && t.err == s.err && t.completed == s.completed && t.settled == s.settled && t.lock.None?
    && |t.pending| == |s.pending|
    && forall x {:trigger t.pending[x]} :: 0 <= x < |s.pending| ==>
         t.pending[x] == s.pending[x] || (s.pending[x] == READY && t.pending[x] == CLAIMED)
  }

  lemma NobodyLowers(c: Config, s: State, a: nat)
    requires Invariant(c, s) && s.lock.None? && a < |s.tasks|
    ensures !s.tasks[a].pc.Lowering? && !s.tasks[a].pc.Marking?
  {
    assert TaskOk(c, s, a);
  }

  lemma FailureStops(c: Config, s: State, l: Label)
    requires Invariant(c, s) && Enabled(c, s, l) && s.err.Some? && s.lock.None?
    ensures Frozen(s, Next(c, s, l))
  {
    forall a | 0 <= a < |s.tasks|
      ensures !s.tasks[a].pc.Lowering? && !s.tasks[a].pc.Marking?
    {
      NobodyLowers(c, s, a);
    }
  }

  lemma FrozenOn(s: State, t: State, u: State)
    requires Frozen(s, t) && Frozen(t, u)
    ensures Frozen(s, u)
  {
    forall x {:trigger u.pending[x]} | 0 <= x < |s.pending|
      ensures u.pending[x] == s.pending[x] || (s.pending[x] == READY && u.pending[x] == CLAIMED)
    {
      assert t.pending[x] == s.pending[x] || t.pending[x] == CLAIMED;
    }
  }

  /** While a task lowers counters there is no failure: it can be recorded only after the lock is free. */
  ghost predicate LockIsFree(s: State) {
    s.err.Some? ==> s.lock.None?
  }

  lemma StepKeepsLockFree(c: Config, s: State, l: Label)
    requires Invariant(c, s) && Enabled(c, s, l) && LockIsFree(s)
    ensures LockIsFree(Next(c, s, l))
  {
    if s.err.Some? {
      FailureStops(c, s, l);
    }
  }

  /** The failure recorded first is that of the task that takes the lock with it. */
  ghost predicate RecordsOwn(s: State, t: State) {
    s.err.None? && t.err.Some? ==>
      exists a :: 0 <= a < |s.tasks| == |t.tasks| && s.tasks[a].pc.Failing? && t.tasks[a].pc.Leaving? &&
        s.tasks[a].node == t.tasks[a].node == t.err.value
  }

  lemma StepRecordsOwn(c: Config, s: State, l: Label)
    requires Invariant(c, s) && Enabled(c, s, l)
    ensures RecordsOwn(s, Next(c, s, l))
  {
    if l.InlineDone? {
      assert TaskOk(c, s, PcOf(s, l.who).phase.task);
    } else if l.RecordFailure? {
      var t := Next(c, s, l);
      assert s.tasks[l.a].pc.Failing? && t.tasks[l.a].pc.Leaving?;
    }
  }

  /** What was returned is the failure recorded, if there is one. */
  ghost predicate ReturnedIsErr(s: State) {
    s.starter.Returned? ==>
      (s.starter.result.BuildFailed? <==> s.err.Some?) &&
      (s.err.Some? ==> s.starter.result == BuildFailed(s.err.value))
  }

  lemma StepKeepsReturned(c: Config, s: State, l: Label)
    requires Invariant(c, s) && Enabled(c, s, l) && ReturnedRight(c, s) && ReturnedIsErr(s)
    ensures ReturnedIsErr(Next(c, s, l))
  {
    if s.starter.Returned? {
      NothingAfterReturn(c, s, l);
    }
  }

  // ---------------------------------------------------------------- runs

  ghost predicate Reached(c: Config, s: State) {
    Invariant(c, s) && AllReleased(s) && LockIsFree(s) && ReturnedRight(c, s) && ReturnedIsErr(s)
  }

  lemma StepOf(c: Config, run: seq<State>, n: nat) returns (l: Label)
    requires IsRun(c, run) && n + 1 < |run|
    ensures Enabled(c, run[n], l) && run[n + 1] == Next(c, run[n], l)
  {
    assert IsStep(c, run[n], run[n + 1]);
    l :| Enabled(c, run[n], l) && run[n + 1] == Next(c, run[n], l);
  }

  lemma {:induction false} RunReaches(c: Config, run: seq<State>, n: nat)
    requires ValidConfig(c) && IsRun(c, run) && n < |run|
    ensures Reached(c, run[n])
  {
    if n == 0 {
      InitHolds(c);
    } else {
      RunReaches(c, run, n - 1);
      var l := StepOf(c, run, n - 1);
      StepKeeps(c, run[n - 1], l);
      StepKeepsReleased(c, run[n - 1], l);
      StepKeepsLockFree(c, run[n - 1], l);
      StepKeepsResult(c, run[n - 1], l);
      StepKeepsReturned(c, run[n - 1], l);
    }
  }

  lemma FailureStopsIn(c: Config, run: seq<State>, n: nat)
    requires ValidConfig(c) && IsRun(c, run) && n + 1 < |run| && run[n].err.Some?
    ensures Frozen(run[n], run[n + 1])
  {
    RunReaches(c, run, n);
    var l := StepOf(c, run, n);
    FailureStops(c, run[n], l);
  }

  lemma FrozenAtFailure(c: Config, run: seq<State>, i: nat)
    requires ValidConfig(c) && IsRun(c, run) && i < |run| && run[i].err.Some?
    ensures Frozen(run[i], run[i])
  {
    RunReaches(c, run, i);
  }

  lemma {:induction false} FrozenSince(c: Config, run: seq<State>, i: nat, j: nat)
    requires ValidConfig(c) && IsRun(c, run) && i <= j < |run| && run[i].err.Some?
    ensures Frozen(run[i], run[j])
  {
    if i < j {
      FrozenSince(c, run, i, j - 1);
      FailureStopsIn(c, run, j - 1);
      FrozenOn(run[i], run[j - 1], run[j]);
    } else {
      FrozenAtFailure(c, run, i);
    }
  }

  /** With the lock free, everything a started node needs has been reported. */
  lemma StartedNeedsSettled(c: Config, s: State, x: int)
    requires Invariant(c, s) && AllReleased(s) && s.lock.None? && x in s.started
    ensures 0 <= x < |c.g| && forall d {:trigger d in c.g[x]} :: d in c.g[x] ==> d in s.settled
  {
    assert NodeOk(c, s, x);
    assert TaskReleased(s, s.tasks[s.owner[x]]);
    assert OpenCount(c, s, x) == 0;
    OpenIsZero(c.g[x], s.settled);
  }

  /** In every run, from the moment a failure is recorded: no more node is counted, no counter is lowered, and a node
      started before or after had all it needs built and counted at that moment. */
  lemma FailureFreezes(c: Config, run: seq<State>, i: nat, j: nat)
    requires ValidConfig(c) && IsRun(c, run) && i <= j < |run| && run[i].err.Some?
    ensures Frozen(run[i], run[j])
    ensures run[i].settled <= run[i].built && |run[i].settled| == run[i].completed
    ensures forall x :: x in run[j].started ==>
      0 <= x < |c.g| && forall d {:trigger d in c.g[x]} :: d in c.g[x] ==> d in run[i].settled
  {
    FrozenSince(c, run, i, j);
    RunReaches(c, run, i);
    RunReaches(c, run, j);
    forall x | x in run[j].started
      ensures 0 <= x < |c.g| && forall d {:trigger d in c.g[x]} :: d in c.g[x] ==> d in run[i].settled
    {
      StartedNeedsSettled(c, run[j], x);
    }
  }

  /** In every run the failure recorded first, that of the task that then takes the lock, is never replaced, and it is
      what the builder returns. */
  lemma FirstFailureIsReturned(c: Config, run: seq<State>, i: nat, j: nat)
    requires ValidConfig(c) && IsRun(c, run) && i < j < |run| && run[i].err.None? && run[i + 1].err.Some?
    ensures RecordsOwn(run[i], run[i + 1])
    ensures run[j].err == run[i + 1].err
    ensures run[j].starter.Returned? ==> run[j].starter.result == BuildFailed(run[i + 1].err.value)
  {
    RunReaches(c, run, i);
    var l := StepOf(c, run, i);
    StepRecordsOwn(c, run[i], l);
    FrozenSince(c, run, i + 1, j);
    RunReaches(c, run, j);
  }

  // ---------------------------------------------------------------- what a success is told

  /** How many of its dependents a task that was built has looked at. */
  ghost function Told(c: Config, t: Task, built: set<int>): nat {
    match t.pc
    case Claiming(k) => k
    case Calling(k, _, _) => k + 1
    case Leaving => if t.node in built then |Row(c, t.node)| else 0
    case Finished => if t.node in built then |Row(c, t.node)| else 0
    case _ => 0
  }

  /** The task is about to look, under the lock, whether its dependent `k` is ready. */
  ghost predicate LooksAt(s: State, a: nat, k: nat) {
    a < |s.tasks| && s.tasks[a].pc == Claiming(k)
  }

  /** A step tells a task at most of the dependent it looks at. */
  ghost predicate TellsOne(c: Config, s: State, t: State, a: nat)
    requires a < |s.tasks|
  {
    && a < |t.tasks|
    && var before, after := Told(c, s.tasks[a], s.built), Told(c, t.tasks[a], t.built);
       after <= before || (after == before + 1 && LooksAt(s, a, before))
  }

  lemma BuildTells(c: Config, s: State, l: Label, a: nat)
    requires Invariant(c, s) && Enabled(c, s, l) && a < |s.tasks|
    requires l.Begin? || l.BuildSucceeds? || l.BuildFails? || l.RecordFailure? || l.TakeLock?
    ensures TellsOne(c, s, Next(c, s, l), a)
  {
    assert TaskOk(c, s, a) && TaskOk(c, s, l.a);
  }

  lemma LoopTells(c: Config, s: State, l: Label, a: nat)
    requires Invariant(c, s) && Enabled(c, s, l) && a < |s.tasks|
    requires l.Claim? || l.PassBy? || l.LoopEnds? || l.Leave?
    ensures TellsOne(c, s, Next(c, s, l), a)
  {
    assert TaskOk(c, s, a) && TaskOk(c, s, l.a);
  }

  lemma LockTells(c: Config, s: State, l: Label, a: nat)
    requires Invariant(c, s) && Enabled(c, s, l) && a < |s.tasks| && (l.Lower? || l.Mark? || l.ReleaseLock?)
    ensures TellsOne(c, s, Next(c, s, l), a)
  {
    assert TaskOk(c, s, a) && TaskOk(c, s, l.a);
  }

  lemma SwapTells(c: Config, s: State, who: Actor, a: nat)
    requires Invariant(c, s) && Enabled(c, s, SwapWord(who)) && a < |s.tasks|
    ensures TellsOne(c, s, Next(c, s, SwapWord(who)), a)
  {
    CallerOk(c, s, who);
  }

  lemma CallTells(c: Config, s: State, l: Label, a: nat)
    requires Invariant(c, s) && Enabled(c, s, l) && a < |s.tasks|
    requires l.LoadWord? || l.AnnounceTask? || l.PoolAccepts? || l.PoolRefuses? || l.InlineDone?
    ensures TellsOne(c, s, Next(c, s, l), a)
  {
    CallerOk(c, s, l.who);
  }

  lemma StepTells(c: Config, s: State, l: Label, a: nat)
    requires Invariant(c, s) && Enabled(c, s, l) && a < |s.tasks|
    ensures TellsOne(c, s, Next(c, s, l), a)
  {
    match l
    case Check =>
    case StartWaiting =>
    case Return =>
    case LoadWord(_) => CallTells(c, s, l, a);
    case SwapWord(who) => SwapTells(c, s, who, a);
    case AnnounceTask(_) => CallTells(c, s, l, a);
    case PoolAccepts(_) => CallTells(c, s, l, a);
    case PoolRefuses(_) => CallTells(c, s, l, a);
    case InlineDone(_) => CallTells(c, s, l, a);
    case Begin(_) => BuildTells(c, s, l, a);
    case BuildSucceeds(_) => BuildTells(c, s, l, a);
    case BuildFails(_) => BuildTells(c, s, l, a);
    case RecordFailure(_) => BuildTells(c, s, l, a);
    case TakeLock(_) => BuildTells(c, s, l, a);
    case Lower(_) => LockTells(c, s, l, a);
    case Mark(_) => LockTells(c, s, l, a);
    case ReleaseLock(_) => LockTells(c, s, l, a);
    case _ => LoopTells(c, s, l, a);
  }

  ghost predicate Looked(run: seq<State>, a: nat, k: nat, n: nat)
    requires n <= |run|
  {
    exists i: nat {:trigger LooksAt(run[i], a, k)} :: i < n && LooksAt(run[i], a, k)
  }

  /** A task begins with nothing told. */
  lemma NewTells(c: Config, s: State, l: Label, a: nat)
    requires Enabled(c, s, l) && |s.tasks| <= a < |Next(c, s, l).tasks|
    ensures Told(c, Next(c, s, l).tasks[a], Next(c, s, l).built) == 0
  {
  }

  lemma TellsIn(c: Config, run: seq<State>, n: nat, a: nat)
    requires ValidConfig(c) && IsRun(c, run) && n + 1 < |run|
    ensures a < |run[n].tasks| ==> TellsOne(c, run[n], run[n + 1], a)
    ensures |run[n].tasks| <= a < |run[n + 1].tasks| ==> Told(c, run[n + 1].tasks[a], run[n + 1].built) == 0
  {
    RunReaches(c, run, n);
    var l := StepOf(c, run, n);
    if a < |run[n].tasks| {
      StepTells(c, run[n], l, a);
    } else if a < |run[n + 1].tasks| {
      NewTells(c, run[n], l, a);
    }
  }

  lemma {:induction false} ToldIsLooked(c: Config, run: seq<State>, n: nat, a: nat, k: nat)
    requires ValidConfig(c) && IsRun(c, run) && n < |run| && a < |run[n].tasks|
    requires k < Told(c, run[n].tasks[a], run[n].built)
    ensures Looked(run, a, k, n)
    decreases n
  {
    if n > 0 {
      TellsIn(c, run, n - 1, a);
      if k < Told(c, run[n - 1].tasks[a], run[n - 1].built) {
        ToldIsLooked(c, run, n - 1, a, k);
      } else {
        assert LooksAt(run[n - 1], a, k);
      }
    }
  }

  /** In every run: a task that was built and has ended has looked at every dependent of its node, whether a failure
      was recorded or not; so no dependent that was ready then is left behind. */
  lemma EveryDependentIsVisited(c: Config, run: seq<State>, n: nat, a: nat, k: nat)
    requires ValidConfig(c) && IsRun(c, run) && n < |run| && a < |run[n].tasks| && run[n].tasks[a].pc.Finished?
    requires run[n].tasks[a].node in run[n].built && k < |Row(c, run[n].tasks[a].node)|
    ensures Looked(run, a, k, n)
  {
    ToldIsLooked(c, run, n, a, k);
  }
}
