/** What the parallel builder promises: starts in dependency order and at most once, the right result, no deadlock,
    an end to every run. */
module DagTheorems {
  import opened Graphs
  import opened DagBuild
  import opened DagInvariant
  import opened DagSteps

  // ---------------------------------------------------------------- starts

  /** A build starts only when it has not started before and everything it needs is built. */
  lemma StartsOnceAndInOrder(c: Config, run: seq<State>, a: nat)
    requires ValidConfig(c) && IsRun(c, run) && Enabled(c, run[|run| - 1], Begin(a))
    ensures var s := run[|run| - 1];
            && s.tasks[a].node !in s.started
            && NeedsBuilt(c, s.built, s.tasks[a].node)
  {
    RunKeeps(c, run);
    assert TaskOk(c, run[|run| - 1], a);
  }

  /** The order of starts repeats no node and lists each after everything it needs. */
  lemma StartOrder(c: Config, run: seq<State>)
    requires ValidConfig(c) && IsRun(c, run)
    ensures var started := run[|run| - 1].started;
            && (forall i, j :: 0 <= i < j < |started| ==> started[i] != started[j])
            && (forall i :: 0 <= i < |started| ==> NeedsOnly(c.g, started[i], started[..i]))
  {
    RunKeeps(c, run);
  }

  lemma StartedNeedsBuilt(c: Config, s: State, x: int)
    requires Invariant(c, s) && x in s.started
    ensures NeedsBuilt(c, s.built, x)
  {
    assert NodeOk(c, s, x);
    assert TaskOk(c, s, s.owner[x]);
  }

  /** Everything a started node needs, directly or through others, is built. */
  lemma {:induction false} AlongPathBuilt(c: Config, s: State, p: seq<int>, k: nat)
    requires Invariant(c, s) && IsPath(c.g, p) && p[0] in s.started && 0 < k < |p|
    ensures p[k] in s.built
  {
    if k > 1 {
      AlongPathBuilt(c, s, p, k - 1);
    }
    StartedNeedsBuilt(c, s, p[k - 1]);
    assert p[(k - 1) + 1] in c.g[p[k - 1]];
  }

  /** Nothing that needs a failed node, directly or through others, is ever started. */
  lemma DependentsOfFailedNeverStart(c: Config, run: seq<State>, p: seq<int>)
    requires ValidConfig(c) && IsRun(c, run) && IsPath(c.g, p) && |p| > 1
    requires p[|p| - 1] in run[|run| - 1].failed
    ensures p[0] !in run[|run| - 1].started
  {
    RunKeeps(c, run);
    if p[0] in run[|run| - 1].started {
      AlongPathBuilt(c, run[|run| - 1], p, |p| - 1);
    }
  }

  // ---------------------------------------------------------------- the result

  ghost predicate AllFinished(s: State) {
    forall a :: 0 <= a < |s.tasks| ==> s.tasks[a].pc.Finished?
  }

  lemma {:induction false} NobodyLive(tasks: seq<Task>, a: nat)
    requires Live(tasks) == 0 && a < |tasks|
    ensures !Counts(tasks[a].pc)
  {
    if a < |tasks| - 1 {
      NobodyLive(tasks[..|tasks| - 1], a);
    }
  }

  lemma {:induction false} AllFinishedNobodyLive(tasks: seq<Task>)
    requires forall a :: 0 <= a < |tasks| ==> tasks[a].pc.Finished?
    ensures Live(tasks) == 0
  {
    if tasks != [] {
      AllFinishedNobodyLive(tasks[..|tasks| - 1]);
    }
  }

  /** The wait group is empty only when every task is finished. */
  lemma WaitIsLongEnough(c: Config, s: State)
    requires Invariant(c, s) && Enabled(c, s, Return)
    ensures AllFinished(s)
  {
    forall a | 0 <= a < |s.tasks|
      ensures s.tasks[a].pc.Finished?
    {
      assert TaskOk(c, s, a);
      NobodyLive(s.tasks, a);
      if s.tasks[a].pc.Born? {
        NobodyLive(s.tasks, s.tasks[a].caller.task);
      }
    }
  }

  ghost function Below(n: nat): set<int> {
    if n == 0 then {} else Below(n - 1) + {n - 1}
  }

  lemma {:induction false} BelowMembers(n: nat)
    ensures |Below(n)| == n
    ensures forall x :: x in Below(n) <==> 0 <= x < n
  {
    if n > 0 {
      BelowMembers(n - 1);
    }
  }

  ghost function AllNodes(c: Config): (all: set<int>)
    ensures |all| == |c.g|
    ensures forall x :: x in all <==> 0 <= x < |c.g|
  {
    BelowMembers(|c.g|);
    Below(|c.g|)
  }

  lemma SomeMember(s: set<int>) returns (x: int)
    requires s != {}
    ensures x in s
  {
    assert (forall y :: y !in s) ==> s == {};
    x :| x in s;
  }

  lemma EqualSizes(a: set<int>, b: set<int>)
    requires a <= b && |a| == |b|
    ensures a == b
  {
    var rest := b - a;
    assert b == a + rest;
    assert rest == {};
  }

  lemma AllCounted(c: Config, s: State)
    requires Invariant(c, s) && s.lock.None?
    ensures s.completed == |c.g| <==> s.settled == AllNodes(c)
  {
    assert s.settled <= AllNodes(c);
    if s.completed == |c.g| {
      EqualSizes(s.settled, AllNodes(c));
    }
  }

  /** At the end, without a failure, a node that was not built waits for another one. */
  lemma UnbuiltWaits(c: Config, s: State, x: int)
    requires Invariant(c, s) && Enabled(c, s, Return) && s.err.None?
    requires 0 <= x < |c.g| && x !in s.settled
    ensures WaitsFor(c.g, AllNodes(c) - s.settled, x)
  {
    WaitIsLongEnough(c, s);
    assert NodeOk(c, s, x);
    assert s.owner[x] >= 0 ==> TaskOk(c, s, s.owner[x]);
    if OpenCount(c, s, x) > 0 {
      OpenIsZero(c.g[x], s.settled);
      var d :| d in c.g[x] && d !in s.settled;
      assert InBounds(c.g[x], |c.g|);
    }
  }

  /** With every node built, the order of starts is a topological order. */
  lemma AllBuiltIsAcyclic(c: Config, s: State)
    requires Invariant(c, s) && s.built == AllNodes(c)
    ensures !Cyclic(c.g)
  {
    forall x | 0 <= x < |c.g|
      ensures x in s.started
    {
      assert x in AllNodes(c);
    }
    CoveringLength(s.started, |c.g|);
    DistinctIntoBound(s.started, |c.g|);
    OrderedIsAcyclic(c.g, s.started);
  }

  ghost predicate ResultRight(c: Config, s: State, result: Outcome) {
    && AllFinished(s)
    && (result.Success? <==> s.built == AllNodes(c))
    && (result.BuildFailed? <==> s.failed != {})
    && (result.BuildFailed? ==> result.node in s.failed)
    && (result.DependencyCycle? <==> s.failed == {} && Cyclic(c.g))
  }

  lemma FailureIsRecorded(c: Config, s: State)
    requires Invariant(c, s) && Enabled(c, s, Return)
    ensures s.err.Some? <==> s.failed != {}
  {
    WaitIsLongEnough(c, s);
    if s.failed != {} {
      var x := SomeMember(s.failed);
      assert NodeOk(c, s, x);
      assert TaskOk(c, s, s.owner[x]);
    }
  }

  lemma BuiltIsSettled(c: Config, s: State)
    requires Invariant(c, s) && Enabled(c, s, Return) && s.err.None?
    ensures s.built == s.settled
  {
    WaitIsLongEnough(c, s);
    forall x | x in s.built
      ensures x in s.settled
    {
      assert NodeOk(c, s, x);
      assert TaskOk(c, s, s.owner[x]);
    }
  }

  lemma ReturnIsRight(c: Config, s: State)
    requires Invariant(c, s) && Enabled(c, s, Return)
    ensures ResultRight(c, s, Next(c, s, Return).starter.result)
  {
    WaitIsLongEnough(c, s);
    FailureIsRecorded(c, s);
    AllCounted(c, s);
    if s.err.Some? {
      assert s.err.value in s.failed && s.err.value !in s.built;
      assert 0 <= s.err.value < |c.g| && s.err.value in AllNodes(c);
    } else {
      BuiltIsSettled(c, s);
      if s.completed == |c.g| {
        AllBuiltIsAcyclic(c, s);
      } else {
        var waiting := AllNodes(c) - s.settled;
        assert s.settled <= AllNodes(c);
        var x := SomeMember(waiting);
        forall y | y in waiting
          ensures WaitsFor(c.g, waiting, y)
        {
          UnbuiltWaits(c, s, y);
        }
        UnfinishedNodesHaveCycle(c.g, waiting, x);
      }
    }
  }

  ghost predicate ReturnedRight(c: Config, s: State) {
    s.starter.Returned? ==> ResultRight(c, s, s.starter.result)
  }

  /** After the return nothing moves any more. */
  lemma NothingAfterReturn(c: Config, s: State, l: Label)
    requires s.starter.Returned? && AllFinished(s)
    ensures !Enabled(c, s, l)
  {
  }

  lemma StepKeepsResult(c: Config, s: State, l: Label)
    requires Invariant(c, s) && ReturnedRight(c, s) && Enabled(c, s, l)
    ensures ReturnedRight(c, Next(c, s, l))
  {
    if s.starter.Returned? {
      NothingAfterReturn(c, s, l);
    } else if l.Return? {
      ReturnIsRight(c, s);
    }
  }

  /** In every run, once the builder has returned: it returned nil exactly when all nodes were built, an error of a
      failed build exactly when some build failed, and otherwise the cycle error exactly for a cyclic graph. */
  lemma {:induction false} ResultIsRight(c: Config, run: seq<State>)
    requires ValidConfig(c) && IsRun(c, run)
    ensures ReturnedRight(c, run[|run| - 1])
  {
    if |run| > 1 {
      var last := |run| - 2;
      assert IsStep(c, run[last], run[last + 1]);
      var before := run[..last + 1];
      forall i | 0 <= i < |before| - 1
        ensures IsStep(c, before[i], before[i + 1])
      {
        assert IsStep(c, run[i], run[i + 1]);
      }
      RunKeeps(c, before);
      ResultIsRight(c, before);
      var l :| Enabled(c, run[last], l) && run[last + 1] == Next(c, run[last], l);
      StepKeepsResult(c, run[last], l);
    }
  }

  // ---------------------------------------------------------------- no deadlock

  ghost predicate CanStep(c: Config, s: State) {
    exists l :: Enabled(c, s, l)
  }

  lemma {:induction false} LastUnfinished(tasks: seq<Task>) returns (a: int)
    ensures a < |tasks|
    ensures a >= 0 ==> !tasks[a].pc.Finished?
    ensures forall b :: 0 <= b < |tasks| && b > a ==> tasks[b].pc.Finished?
  {
    a := |tasks| - 1;
    while a >= 0 && tasks[a].pc.Finished?
      invariant a < |tasks|
      invariant forall b :: 0 <= b < |tasks| && b > a ==> tasks[b].pc.Finished?
    {
      a := a - 1;
    }
  }

  lemma HolderMoves(c: Config, s: State)
    requires Invariant(c, s) && s.lock.Some?
    ensures CanStep(c, s)
  {
    var a := s.lock.value;
    assert TaskOk(c, s, a);
    var row := Row(c, s.tasks[a].node);
    assert ListsDependents(c.g, s.tasks[a].node, row);
    if s.tasks[a].pc.Marking? {
      assert row[s.tasks[a].pc.k] in row;
      assert Enabled(c, s, Mark(a));
    } else if s.tasks[a].pc.k < |row| {
      assert row[s.tasks[a].pc.k] in row;
      assert Enabled(c, s, Lower(a));
    } else {
      assert Enabled(c, s, ReleaseLock(a));
    }
  }

  lemma CallerMoves(c: Config, s: State, who: Actor)
    requires Invariant(c, s) && s.lock.None? && CallIn(s, who)
    requires PcOf(s, who).phase.Inline? ==>
      TaskAt(s, PcOf(s, who).phase.task) && s.tasks[PcOf(s, who).phase.task].pc.Finished?
    ensures CanStep(c, s)
  {
    CallerOk(c, s, who);
    match PcOf(s, who).phase
    case Load => assert Enabled(c, s, LoadWord(who));
    case Swap(_) => assert Enabled(c, s, SwapWord(who));
    case Announce(_) => assert Enabled(c, s, AnnounceTask(who));
    case Submit(_) => assert Enabled(c, s, PoolAccepts(who));
    case Inline(_) => assert Enabled(c, s, InlineDone(who));
  }

  lemma LoopMoves(c: Config, s: State, a: nat)
    requires Invariant(c, s) && s.lock.None? && TaskAt(s, a) && s.tasks[a].pc.Claiming?
    ensures CanStep(c, s)
  {
    assert TaskOk(c, s, a);
    var k, row := s.tasks[a].pc.k, Row(c, s.tasks[a].node);
    assert ListsDependents(c.g, s.tasks[a].node, row);
    if k >= |row| {
      assert Enabled(c, s, LoopEnds(a));
    } else {
      assert row[k] in row;
      assert HasDependent(c, s, a, k);
      assert Enabled(c, s, Claim(a)) || Enabled(c, s, PassBy(a));
    }
  }

  lemma TaskMoves(c: Config, s: State, a: nat)
    requires Invariant(c, s) && s.lock.None? && TaskAt(s, a) && !s.tasks[a].pc.Finished?
    requires forall b :: a < b < |s.tasks| ==> s.tasks[b].pc.Finished?
    ensures CanStep(c, s)
  {
    assert TaskOk(c, s, a);
    match s.tasks[a].pc
    case Born => CallerMoves(c, s, s.tasks[a].caller);
    case Announced => CallerMoves(c, s, s.tasks[a].caller);
    case Ready => assert Enabled(c, s, Begin(a));
    case Building => assert Enabled(c, s, BuildSucceeds(a));
    case Failing => assert Enabled(c, s, RecordFailure(a));
    case Finishing => assert Enabled(c, s, TakeLock(a));
    case Claiming(_) => LoopMoves(c, s, a);
    case Leaving => assert Enabled(c, s, Leave(a));
    case Calling(_, _, phase) =>
      if phase.Inline? {
        assert TaskOk(c, s, phase.task);
      }
      CallerMoves(c, s, Worker(a));
    case _ =>
  }

  lemma StarterMoves(c: Config, s: State)
    requires Invariant(c, s) && s.lock.None? && AllFinished(s) && !s.starter.Returned?
    ensures CanStep(c, s)
  {
    AllFinishedNobodyLive(s.tasks);
    match s.starter
    case Checking(i) => assert Enabled(c, s, Check) || Enabled(c, s, StartWaiting);
    case Waiting => assert Enabled(c, s, Return);
    case Calling(_, _, _) => CallerMoves(c, s, Starter);
    case _ =>
  }

  /** Until the builder returns, some step is possible. */
  lemma NoDeadlock(c: Config, run: seq<State>)
    requires ValidConfig(c) && IsRun(c, run) && !run[|run| - 1].starter.Returned?
    ensures CanStep(c, run[|run| - 1])
  {
    var s := run[|run| - 1];
    RunKeeps(c, run);
    if s.lock.Some? {
      HolderMoves(c, s);
    } else {
      var a := LastUnfinished(s.tasks);
      if a >= 0 {
        TaskMoves(c, s, a);
      } else {
        StarterMoves(c, s);
      }
    }
  }
}
