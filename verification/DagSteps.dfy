/** Each step keeps the invariant: first what a step of one actor leaves alone, then the steps. */
module DagSteps {
  import opened Wrappers
  import opened Graphs
  import opened DagBuild
  import opened DagInvariant
  import B = Bitmap

  // ---------------------------------------------------------------- what a move of one actor leaves alone

  /** No other task is waiting for this actor to add it to the wait group or to submit it. */
  ghost predicate Unattached(pc: Pc) {
    && !pc.Born? && !pc.Announced?
    && (pc.Calling? ==> !pc.phase.Announce? && !pc.phase.Submit?)
  }

  /** `t` follows from `s` by a move of `who` that may add to the history of its own node only. */
  ghost predicate Moves(s: State, t: State, who: Actor, pc: Pc) {
    && Present(s, who) && Unattached(PcOf(s, who))
    && (who.Worker? ==> !pc.Born? && !pc.Announced?)
    && t.starter == SetPc(s, who, pc).starter && t.tasks == SetPc(s, who, pc).tasks
    && t.owner == s.owner
    && (forall x {:trigger x in t.started} {:trigger x in s.started} :: x != OwnNode(s, who) ==>
          (x in t.started <==> x in s.started))
    && s.built <= t.built <= s.built + {OwnNode(s, who)}
    && s.failed <= t.failed <= s.failed + {OwnNode(s, who)}
    && s.settled <= t.settled <= s.settled + {OwnNode(s, who)}
    && (s.err.Some? ==> t.err == s.err)
  }

  ghost function OwnNode(s: State, who: Actor): int
    requires Present(s, who)
  {
    if who.Worker? then s.tasks[who.task].node else -1
  }

  lemma CallKept(c: Config, s: State, t: State, who: Actor, pc: Pc, caller: Actor, child: nat, phase: Phase)
    requires Moves(s, t, who, pc) && caller != who
    requires CallOk(c, s, caller, child, phase)
    ensures CallOk(c, t, caller, child, phase)
  {
  }

  lemma OtherTaskKept(c: Config, s: State, t: State, who: Actor, pc: Pc, b: nat)
    requires Moves(s, t, who, pc) && b < |s.tasks| && who != Worker(b)
    requires TaskOk(c, s, b) && (who.Worker? ==> TaskOk(c, s, who.task))
    requires s.tasks[b].pc.Lowering? || s.tasks[b].pc.Marking? ==> t.lock == s.lock
    ensures TaskOk(c, t, b)
  {
    var u := s.tasks[b];
    assert u.node != OwnNode(s, who);
    if u.pc.Calling? {
      CallKept(c, s, t, who, pc, Worker(b), u.pc.child, u.pc.phase);
    }
  }

  lemma StarterKept(c: Config, s: State, t: State, a: nat, pc: Pc)
    requires Moves(s, t, Worker(a), pc) && StarterOk(c, s)
    ensures StarterOk(c, t)
  {
    if s.starter.Calling? {
      CallKept(c, s, t, Worker(a), pc, Starter, s.starter.child, s.starter.phase);
    }
  }

  /** Who will start node `i` is not affected by a move of `who`. */
  ghost predicate KeepsDuty(c: Config, s: State, t: State, who: Actor, i: nat)
    requires i < |c.g| && |s.pending| == |s.owner| == |s.agent| == |c.g| && |t.owner| == |c.g|
    requires Present(s, who) && Present(t, who)
  {
    if who.Starter? then StarterWillCheck(s, i) && s.pending[i] == 0 ==> StarterWillCheck(t, i) || t.owner[i] >= 0
    else
      && (AboutToStart(PcOf(s, who), i) ==> AboutToStart(PcOf(t, who), i) || t.owner[i] >= 0)
      && (s.pending[i] == READY && StillToVisit(c, s.tasks[who.task], i) ==> StillToVisit(c, t.tasks[who.task], i))
  }

  lemma NodeKept(c: Config, s: State, t: State, who: Actor, pc: Pc, i: nat)
    requires i < |c.g| && |s.pending| == |s.owner| == |s.agent| == |c.g| && |t.pending| == |t.agent| == |c.g|
    requires Moves(s, t, who, pc)
    requires t.pending[i] == s.pending[i] && t.words == s.words && t.agent[i] == s.agent[i]
    requires OpenCount(c, t, i) == OpenCount(c, s, i)
    requires BeingMarked(c, s, i) ==> BeingMarked(c, t, i)
    requires Present(t, who) && KeepsDuty(c, s, t, who, i)
    requires NodeOk(c, s, i)
    ensures NodeOk(c, t, i)
  {
  }

  lemma SeenKept(c: Config, s: State, t: State, who: Actor, pc: Pc)
    requires Moves(s, t, who, pc) && t.lock == s.lock
    requires s.lock.Some? ==> who != Worker(s.lock.value)
    ensures Seen(c, t) == Seen(c, s)
  {
  }

  lemma {:induction false} LiveUpdate(tasks: seq<Task>, a: nat, u: Task)
    requires a < |tasks|
    ensures Live(tasks[a := u]) == Live(tasks) + (if Counts(u.pc) then 1 else 0) - if Counts(tasks[a].pc) then 1 else 0
  {
    var last := |tasks| - 1;
    if a < last {
      LiveUpdate(tasks[..last], a, u);
      assert tasks[a := u][..last] == tasks[..last][a := u];
    } else {
      assert tasks[a := u][..last] == tasks[..last];
    }
  }

  lemma OtherTasksKept(c: Config, s: State, t: State, who: Actor, pc: Pc)
    requires Invariant(c, s) && Moves(s, t, who, pc)
    requires if who.Starter? then StarterOk(c, t) else TaskOk(c, t, who.task)
    requires t.lock == s.lock || s.lock.None? || (who.Worker? && s.lock == Some(who.task))
    ensures StarterOk(c, t)
    ensures forall b {:trigger TaskOk(c, t, b)} :: 0 <= b < |t.tasks| ==> TaskOk(c, t, b)
  {
    if who.Worker? {
      assert TaskOk(c, s, who.task);
      StarterKept(c, s, t, who.task, pc);
    }
    forall b | 0 <= b < |t.tasks|
      ensures TaskOk(c, t, b)
    {
      if who != Worker(b) {
        assert TaskOk(c, s, b);
        OtherTaskKept(c, s, t, who, pc, b);
      }
    }
  }

  /** A move that leaves the counters alone. */
  lemma MoveKeeps(c: Config, s: State, t: State, who: Actor, pc: Pc)
    requires Invariant(c, s) && Moves(s, t, who, pc)
    requires SharedOk(c, t) && HistoryOk(c, t)
    requires if who.Starter? then StarterOk(c, t) else TaskOk(c, t, who.task)
    requires t.pending == s.pending && t.words == s.words && t.agent == s.agent && t.settled == s.settled
    requires t.lock == s.lock || (s.lock.None? && who.Worker? && t.lock == Some(who.task))
    requires Seen(c, t) == Seen(c, s)
    requires s.lock.Some? ==> who != Worker(s.lock.value)
    requires forall i {:trigger KeepsDuty(c, s, t, who, i)} :: 0 <= i < |c.g| ==> KeepsDuty(c, s, t, who, i)
    ensures Invariant(c, t)
  {
    OtherTasksKept(c, s, t, who, pc);
    forall i | 0 <= i < |c.g|
      ensures NodeOk(c, t, i)
    {
      assert NodeOk(c, s, i) && KeepsDuty(c, s, t, who, i);
      NodeKept(c, s, t, who, pc, i);
    }
  }

  // ---------------------------------------------------------------- a task on its own

  lemma BeginKeepsHistory(c: Config, s: State, a: nat)
    requires Invariant(c, s) && Enabled(c, s, Begin(a))
    ensures HistoryOk(c, Next(c, s, Begin(a)))
  {
    var t := Next(c, s, Begin(a));
    assert TaskOk(c, s, a);
    var node := s.tasks[a].node;
    forall i | 0 <= i < |t.started|
      ensures NeedsOnly(c.g, t.started[i], t.started[..i])
    {
      if i < |s.started| {
        assert NeedsOnly(c.g, s.started[i], s.started[..i]);
        assert t.started[..i] == s.started[..i];
      } else {
        assert t.started[..i] == s.started;
      }
    }
  }

  lemma BeginKeeps(c: Config, s: State, a: nat)
    requires Invariant(c, s) && Enabled(c, s, Begin(a))
    ensures Invariant(c, Next(c, s, Begin(a)))
  {
    var t := Next(c, s, Begin(a));
    assert TaskOk(c, s, a);
    LiveUpdate(s.tasks, a, t.tasks[a]);
    SeenKept(c, s, t, Worker(a), Building);
    BeginKeepsHistory(c, s, a);
    MoveKeeps(c, s, t, Worker(a), Building);
  }

  lemma BuildSucceedsKeeps(c: Config, s: State, a: nat)
    requires Invariant(c, s) && Enabled(c, s, BuildSucceeds(a))
    ensures Invariant(c, Next(c, s, BuildSucceeds(a)))
  {
    var t := Next(c, s, BuildSucceeds(a));
    assert TaskOk(c, s, a);
    LiveUpdate(s.tasks, a, t.tasks[a]);
    SeenKept(c, s, t, Worker(a), Finishing);
    MoveKeeps(c, s, t, Worker(a), Finishing);
  }

  lemma BuildFailsKeeps(c: Config, s: State, a: nat)
    requires Invariant(c, s) && Enabled(c, s, BuildFails(a))
    ensures Invariant(c, Next(c, s, BuildFails(a)))
  {
    var t := Next(c, s, BuildFails(a));
    assert TaskOk(c, s, a);
    LiveUpdate(s.tasks, a, t.tasks[a]);
    SeenKept(c, s, t, Worker(a), Failing);
    MoveKeeps(c, s, t, Worker(a), Failing);
  }

  lemma RecordFailureKeeps(c: Config, s: State, a: nat)
    requires Invariant(c, s) && Enabled(c, s, RecordFailure(a))
    ensures Invariant(c, Next(c, s, RecordFailure(a)))
  {
    var t := Next(c, s, RecordFailure(a));
    assert TaskOk(c, s, a);
    LiveUpdate(s.tasks, a, t.tasks[a]);
    SeenKept(c, s, t, Worker(a), Leaving);
    MoveKeeps(c, s, t, Worker(a), Leaving);
  }

  lemma TakeLockKeeps(c: Config, s: State, a: nat)
    requires Invariant(c, s) && Enabled(c, s, TakeLock(a))
    ensures Invariant(c, Next(c, s, TakeLock(a)))
  {
    var t := Next(c, s, TakeLock(a));
    assert TaskOk(c, s, a);
    LiveUpdate(s.tasks, a, t.tasks[a]);
    MoveKeeps(c, s, t, Worker(a), t.tasks[a].pc);
  }

  lemma PassByKeeps(c: Config, s: State, a: nat)
    requires Invariant(c, s) && Enabled(c, s, PassBy(a))
    ensures Invariant(c, Next(c, s, PassBy(a)))
  {
    var t := Next(c, s, PassBy(a));
    assert TaskOk(c, s, a);
    LiveUpdate(s.tasks, a, t.tasks[a]);
    var pc := t.tasks[a].pc;
    SeenKept(c, s, t, Worker(a), pc);
    forall i | 0 <= i < |c.g|
      ensures KeepsDuty(c, s, t, Worker(a), i)
    {
      NotHere(Row(c, s.tasks[a].node), s.tasks[a].pc.k, i);
    }
    MoveKeeps(c, s, t, Worker(a), pc);
  }

  lemma NotHere(row: seq<int>, k: nat, i: int)
    requires k < |row|
    ensures row[k] != i && i in row[k..] ==> i in row[k + 1..]
  {
    assert row[k..] == [row[k]] + row[k + 1..];
  }

  lemma LoopEndsKeeps(c: Config, s: State, a: nat)
    requires Invariant(c, s) && Enabled(c, s, LoopEnds(a))
    ensures Invariant(c, Next(c, s, LoopEnds(a)))
  {
    var t := Next(c, s, LoopEnds(a));
    assert TaskOk(c, s, a);
    LiveUpdate(s.tasks, a, t.tasks[a]);
    SeenKept(c, s, t, Worker(a), Leaving);
    MoveKeeps(c, s, t, Worker(a), Leaving);
  }

  lemma LeaveKeeps(c: Config, s: State, a: nat)
    requires Invariant(c, s) && Enabled(c, s, Leave(a))
    ensures Invariant(c, Next(c, s, Leave(a)))
  {
    var t := Next(c, s, Leave(a));
    assert TaskOk(c, s, a);
    LiveUpdate(s.tasks, a, t.tasks[a]);
    SeenKept(c, s, t, Worker(a), Finished);
    MoveKeeps(c, s, t, Worker(a), Finished);
  }

  // ---------------------------------------------------------------- a task and the counters

  /** The lock holder has seen one dependent more. */
  lemma SeenLowered(c: Config, s: State, a: nat)
    requires Invariant(c, s) && Enabled(c, s, Lower(a))
    ensures var row, k := Row(c, s.tasks[a].node), s.tasks[a].pc.k;
            && Seen(c, s) == row[..k] && Seen(c, Next(c, s, Lower(a))) == row[..k + 1]
            && Next(c, s, Lower(a)).settled == s.settled
  {
    assert TaskOk(c, s, a);
  }

  lemma LoweredCount(c: Config, s: State, a: nat)
    requires Invariant(c, s) && Enabled(c, s, Lower(a))
    ensures var i := Dependent(c, s, a, s.tasks[a].pc.k);
            && c.g[i] != [] && OpenCount(c, s, i) > 0
            && OpenCount(c, Next(c, s, Lower(a)), i) == OpenCount(c, s, i) - 1
  {
    var k, node := s.tasks[a].pc.k, s.tasks[a].node;
    var row := Row(c, node);
    assert TaskOk(c, s, a) && ListsDependents(c.g, node, row);
    SeenLowered(c, s, a);
    RowLowered(c.g, s.settled, node, row, k);
  }

  lemma RowLowered(g: Graph, settled: set<int>, node: int, row: seq<int>, k: nat)
    requires k < |row| && 0 <= row[k] < |g| && node !in settled && ListsDependents(g, node, row)
    ensures g[row[k]] != [] && Open(g[row[k]], settled) - Times(row[..k], row[k]) > 0
    ensures Times(row[..k + 1], row[k]) == Times(row[..k], row[k]) + 1
  {
    TimesPrefix(row, k, row[k]);
    SeenRoom(g, settled, node, row, k + 1, row[k]);
    TimesPositive(g[row[k]], node);
  }

  lemma LoweredNode(c: Config, s: State, a: nat)
    requires Invariant(c, s) && Enabled(c, s, Lower(a))
    ensures NodeOk(c, Next(c, s, Lower(a)), Dependent(c, s, a, s.tasks[a].pc.k))
  {
    assert TaskOk(c, s, a) && NodeOk(c, s, Dependent(c, s, a, s.tasks[a].pc.k));
    LoweredCount(c, s, a);
  }

  lemma LowerNode(c: Config, s: State, a: nat, i: nat)
    requires Invariant(c, s) && Enabled(c, s, Lower(a)) && i < |c.g|
    requires i != Dependent(c, s, a, s.tasks[a].pc.k)
    requires Moves(s, Next(c, s, Lower(a)), Worker(a), Marking(s.tasks[a].pc.k))
    ensures NodeOk(c, Next(c, s, Lower(a)), i)
  {
    var t := Next(c, s, Lower(a));
    var k := s.tasks[a].pc.k;
    assert TaskOk(c, s, a) && NodeOk(c, s, i);
    SeenLowered(c, s, a);
    TimesPrefix(Row(c, s.tasks[a].node), k, i);
    NodeKept(c, s, t, Worker(a), Marking(k), i);
  }

  lemma LowerKeeps(c: Config, s: State, a: nat)
    requires Invariant(c, s) && Enabled(c, s, Lower(a))
    ensures Invariant(c, Next(c, s, Lower(a)))
  {
    var t := Next(c, s, Lower(a));
    assert TaskOk(c, s, a);
    LiveUpdate(s.tasks, a, t.tasks[a]);
    OtherTasksKept(c, s, t, Worker(a), Marking(s.tasks[a].pc.k));
    forall i | 0 <= i < |c.g|
      ensures NodeOk(c, t, i)
    {
      if i == Dependent(c, s, a, s.tasks[a].pc.k) {
        LoweredNode(c, s, a);
      } else {
        LowerNode(c, s, a, i);
      }
    }
  }

  lemma MarkNode(c: Config, s: State, a: nat, i: nat)
    requires Invariant(c, s) && Enabled(c, s, Mark(a)) && i < |c.g|
    requires Moves(s, Next(c, s, Mark(a)), Worker(a), Lowering(s.tasks[a].pc.k + 1))
    ensures NodeOk(c, Next(c, s, Mark(a)), i)
  {
    var t := Next(c, s, Mark(a));
    var k, row := s.tasks[a].pc.k, Row(c, s.tasks[a].node);
    assert TaskOk(c, s, a) && NodeOk(c, s, i);
    assert Seen(c, t) == Seen(c, s) == row[..k + 1];
    if i != row[k] {
      NodeKept(c, s, t, Worker(a), Lowering(k + 1), i);
    }
  }

  lemma MarkOwn(c: Config, s: State, a: nat)
    requires Invariant(c, s) && Enabled(c, s, Mark(a))
    ensures var t := Next(c, s, Mark(a));
            Moves(s, t, Worker(a), Lowering(s.tasks[a].pc.k + 1)) && TaskOk(c, t, a)
  {
    assert TaskOk(c, s, a);
  }

  lemma MarkShared(c: Config, s: State, a: nat)
    requires Invariant(c, s) && Enabled(c, s, Mark(a))
    ensures SharedOk(c, Next(c, s, Mark(a))) && HistoryOk(c, Next(c, s, Mark(a)))
  {
    assert TaskOk(c, s, a);
    LiveUpdate(s.tasks, a, Next(c, s, Mark(a)).tasks[a]);
  }

  lemma MarkKeeps(c: Config, s: State, a: nat)
    requires Invariant(c, s) && Enabled(c, s, Mark(a))
    ensures Invariant(c, Next(c, s, Mark(a)))
  {
    var t := Next(c, s, Mark(a));
    assert TaskOk(c, s, a);
    MarkOwn(c, s, a);
    MarkShared(c, s, a);
    OtherTasksKept(c, s, t, Worker(a), Lowering(s.tasks[a].pc.k + 1));
    forall i | 0 <= i < |c.g|
      ensures NodeOk(c, t, i)
    {
      MarkNode(c, s, a, i);
    }
  }

  /** What counts as taken off is the same before and after the whole list is done. */
  lemma ReleaseCount(c: Config, s: State, a: nat, i: nat)
    requires Invariant(c, s) && Enabled(c, s, ReleaseLock(a)) && i < |c.g|
    ensures OpenCount(c, Next(c, s, ReleaseLock(a)), i) == OpenCount(c, s, i)
  {
    var node := s.tasks[a].node;
    var row := Row(c, node);
    assert TaskOk(c, s, a) && ListsDependents(c.g, node, row);
    assert row[..|row|] == row;
    assert Times(row, i) == Times(c.g[i], node);
    OpenAfter(c.g[i], s.settled, node);
  }

  lemma ReleaseNode(c: Config, s: State, a: nat, i: nat)
    requires Invariant(c, s) && Enabled(c, s, ReleaseLock(a)) && i < |c.g|
    requires Moves(s, Next(c, s, ReleaseLock(a)), Worker(a), Claiming(0))
    ensures NodeOk(c, Next(c, s, ReleaseLock(a)), i)
  {
    assert TaskOk(c, s, a) && NodeOk(c, s, i);
    ReleaseCount(c, s, a, i);
    assert Row(c, s.tasks[a].node)[0..] == Row(c, s.tasks[a].node);
    NodeKept(c, s, Next(c, s, ReleaseLock(a)), Worker(a), Claiming(0), i);
  }

  lemma ReleaseLockKeeps(c: Config, s: State, a: nat)
    requires Invariant(c, s) && Enabled(c, s, ReleaseLock(a))
    ensures Invariant(c, Next(c, s, ReleaseLock(a)))
  {
    var t := Next(c, s, ReleaseLock(a));
    assert TaskOk(c, s, a);
    LiveUpdate(s.tasks, a, t.tasks[a]);
    OtherTasksKept(c, s, t, Worker(a), Claiming(0));
    forall i | 0 <= i < |c.g|
      ensures NodeOk(c, t, i)
    {
      ReleaseNode(c, s, a, i);
    }
  }

  /** With nothing open, everything the node needs is built. */
  lemma NothingOpenAllBuilt(c: Config, s: State, i: nat)
    requires Invariant(c, s) && i < |c.g| && OpenCount(c, s, i) == 0
    ensures NeedsBuilt(c, s.built, i)
  {
    if s.lock.None? {
      OpenIsZero(c.g[i], s.settled);
    } else {
      var a := s.lock.value;
      assert TaskOk(c, s, a);
      var node := s.tasks[a].node;
      assert ListsDependents(c.g, node, Row(c, node));
      SeenRoom(c.g, s.settled, node, Row(c, node), |Seen(c, s)|, i);
      OpenIsZero(c.g[i], s.settled + {node});
    }
  }

  lemma ClaimNode(c: Config, s: State, a: nat, i: nat)
    requires Invariant(c, s) && Enabled(c, s, Claim(a)) && i < |c.g|
    requires Moves(s, Next(c, s, Claim(a)), Worker(a), Next(c, s, Claim(a)).tasks[a].pc)
    ensures NodeOk(c, Next(c, s, Claim(a)), i)
  {
    var t := Next(c, s, Claim(a));
    var k, row := s.tasks[a].pc.k, Row(c, s.tasks[a].node);
    assert TaskOk(c, s, a) && NodeOk(c, s, i);
    if i != row[k] {
      NotHere(row, k, i);
      NodeKept(c, s, t, Worker(a), t.tasks[a].pc, i);
    }
  }

  lemma ClaimKeeps(c: Config, s: State, a: nat)
    requires Invariant(c, s) && Enabled(c, s, Claim(a))
    ensures Invariant(c, Next(c, s, Claim(a)))
  {
    var t := Next(c, s, Claim(a));
    assert TaskOk(c, s, a);
    var child := Dependent(c, s, a, s.tasks[a].pc.k);
    assert NodeOk(c, s, child);
    NothingOpenAllBuilt(c, s, child);
    LiveUpdate(s.tasks, a, t.tasks[a]);
    OtherTasksKept(c, s, t, Worker(a), t.tasks[a].pc);
    forall i | 0 <= i < |c.g|
      ensures NodeOk(c, t, i)
    {
      ClaimNode(c, s, a, i);
    }
  }

  // ---------------------------------------------------------------- the start loop

  lemma CheckKeeps(c: Config, s: State)
    requires Invariant(c, s) && Enabled(c, s, Check)
    ensures Invariant(c, Next(c, s, Check))
  {
    var t := Next(c, s, Check);
    assert NodeOk(c, s, s.starter.i);
    if s.pending[s.starter.i] == 0 {
      NothingOpenAllBuilt(c, s, s.starter.i);
    }
    SeenKept(c, s, t, Starter, t.starter);
    MoveKeeps(c, s, t, Starter, t.starter);
  }

  lemma StartWaitingKeeps(c: Config, s: State)
    requires Invariant(c, s) && Enabled(c, s, StartWaiting)
    ensures Invariant(c, Next(c, s, StartWaiting))
  {
    var t := Next(c, s, StartWaiting);
    SeenKept(c, s, t, Starter, t.starter);
    MoveKeeps(c, s, t, Starter, t.starter);
  }

  lemma ReturnKeeps(c: Config, s: State)
    requires Invariant(c, s) && Enabled(c, s, Return)
    ensures Invariant(c, Next(c, s, Return))
  {
    var t := Next(c, s, Return);
    SeenKept(c, s, t, Starter, t.starter);
    MoveKeeps(c, s, t, Starter, t.starter);
  }

  // ---------------------------------------------------------------- schedule

  /** What holds of a caller of `schedule`, be it the start loop or a task. */
  lemma CallerOk(c: Config, s: State, who: Actor)
    requires Invariant(c, s) && CallIn(s, who)
    ensures CallOk(c, s, who, PcOf(s, who).child, PcOf(s, who).phase)
    ensures NodeOk(c, s, PcOf(s, who).child)
    ensures who.Worker? ==> TaskOk(c, s, who.task)
    ensures who.Worker? && s.lock.Some? ==> s.lock.value != who.task
  {
    if who.Worker? {
      assert TaskOk(c, s, who.task);
    }
    assert NodeOk(c, s, PcOf(s, who).child);
  }

  lemma LiveAfterSetPc(s: State, who: Actor, pc: Pc)
    requires Present(s, who)
    requires who.Worker? ==> Counts(pc) && Counts(PcOf(s, who))
    ensures Live(SetPc(s, who, pc).tasks) == Live(s.tasks)
  {
    if who.Worker? {
      LiveUpdate(s.tasks, who.task, s.tasks[who.task].(pc := pc));
    }
  }

  /** A move within a call, or back from it, as far as the caller itself is concerned. */
  lemma CallOwn(c: Config, s: State, t: State, who: Actor, pc: Pc)
    requires Invariant(c, s) && CallIn(s, who) && Unattached(PcOf(s, who)) && t == SetPc(s, who, pc)
    requires || pc == Back(who, PcOf(s, who).k) || pc == PcOf(s, who).(phase := Load)
             || (pc.Calling? && pc.phase.Swap? && pc == PcOf(s, who).(phase := pc.phase))
    ensures Moves(s, t, who, pc) && SharedOk(c, t) && HistoryOk(c, t) && Seen(c, t) == Seen(c, s)
    ensures if who.Starter? then StarterOk(c, t) else TaskOk(c, t, who.task)
    ensures s.lock.Some? ==> who != Worker(s.lock.value)
  {
    CallerOk(c, s, who);
    LiveAfterSetPc(s, who, pc);
    SeenKept(c, s, t, who, pc);
  }

  lemma CallMoves(c: Config, s: State, t: State, who: Actor, pc: Pc)
    requires Invariant(c, s) && CallIn(s, who) && Unattached(PcOf(s, who)) && t == SetPc(s, who, pc)
    requires || pc == PcOf(s, who).(phase := Load)
             || (pc.Calling? && pc.phase.Swap? && pc == PcOf(s, who).(phase := pc.phase))
    ensures Invariant(c, t)
  {
    CallOwn(c, s, t, who, pc);
    MoveKeeps(c, s, t, who, pc);
  }

  lemma CallReturns(c: Config, s: State, t: State, who: Actor)
    requires Invariant(c, s) && CallIn(s, who) && Unattached(PcOf(s, who))
    requires t == SetPc(s, who, Back(who, PcOf(s, who).k))
    requires PcOf(s, who).child < |s.owner| && s.owner[PcOf(s, who).child] >= 0
    ensures Invariant(c, t)
  {
    var pc := Back(who, PcOf(s, who).k);
    CallOwn(c, s, t, who, pc);
    MoveKeeps(c, s, t, who, pc);
  }

  lemma LoadWordKeeps(c: Config, s: State, who: Actor)
    requires Invariant(c, s) && Enabled(c, s, LoadWord(who))
    ensures Invariant(c, Next(c, s, LoadWord(who)))
  {
    var pc := PcOf(s, who);
    CallMoves(c, s, Next(c, s, LoadWord(who)), who, pc.(phase := Swap(s.words[pc.child / 64])));
  }

  lemma InlineDoneKeeps(c: Config, s: State, who: Actor)
    requires Invariant(c, s) && Enabled(c, s, InlineDone(who))
    ensures Invariant(c, Next(c, s, InlineDone(who)))
  {
    CallerOk(c, s, who);
    var x := PcOf(s, who).phase.task;
    assert TaskOk(c, s, x);
    assert s.tasks[x].node in s.failed ==> s.err.Some?;
    CallReturns(c, s, Next(c, s, InlineDone(who)), who);
  }

  // ---------------------------------------------------------------- creating and handing over a task

  lemma {:induction false} LiveAppend(tasks: seq<Task>, u: Task)
    ensures Live(tasks + [u]) == Live(tasks) + if Counts(u.pc) then 1 else 0
  {
    assert (tasks + [u])[..|tasks|] == tasks;
  }

  /** The state after winning the bit of `child`. */
  ghost predicate Wins(c: Config, s: State, t: State, who: Actor) {
    && Enabled(c, s, SwapWord(who)) && t == Next(c, s, SwapWord(who))
    && s.words[PcOf(s, who).child / 64] == PcOf(s, who).phase.seen
    && !B.Has(s.words, PcOf(s, who).child)
  }

  lemma WinTask(c: Config, s: State, t: State, who: Actor, b: nat)
    requires Invariant(c, s) && Wins(c, s, t, who) && b < |s.tasks| && who != Worker(b)
    ensures TaskOk(c, t, b)
  {
    CallerOk(c, s, who);
    assert TaskOk(c, s, b);
    assert s.tasks[b].node != PcOf(s, who).child;
  }

  lemma WinTasks(c: Config, s: State, t: State, who: Actor)
    requires Invariant(c, s) && Wins(c, s, t, who)
    ensures StarterOk(c, t)
    ensures forall b {:trigger TaskOk(c, t, b)} :: 0 <= b < |t.tasks| ==> TaskOk(c, t, b)
  {
    CallerOk(c, s, who);
    forall b | 0 <= b < |t.tasks|
      ensures TaskOk(c, t, b)
    {
      if b < |s.tasks| && who != Worker(b) {
        WinTask(c, s, t, who, b);
      }
    }
  }

  lemma WinNode(c: Config, s: State, t: State, who: Actor, i: nat)
    requires Invariant(c, s) && Wins(c, s, t, who) && i < |c.g|
    ensures NodeOk(c, t, i)
  {
    CallerOk(c, s, who);
    assert NodeOk(c, s, i);
    B.SetAddsOne(s.words, PcOf(s, who).child, i);
    assert Seen(c, t) == Seen(c, s);
  }

  /** What changes when the bit of `child` is won. */
  lemma WinChanges(c: Config, s: State, t: State, who: Actor)
    requires Invariant(c, s) && Wins(c, s, t, who)
    ensures var pc := PcOf(s, who);
      && t.tasks == SetPc(s, who, pc.(phase := Announce(|s.tasks|))).tasks + [Task(pc.child, who, Born)]
      && pc.child < |s.owner| && t.owner == s.owner[pc.child := |s.tasks|] && |t.words| == |s.words|
    ensures t.pending == s.pending && t.agent == s.agent && t.lock == s.lock && t.err == s.err && t.wg == s.wg
    ensures t.completed == s.completed && t.started == s.started && t.built == s.built && t.failed == s.failed
    ensures t.settled == s.settled
  {
    CallerOk(c, s, who);
  }

  lemma SameHistory(c: Config, s: State, t: State)
    requires HistoryOk(c, s) && |t.owner| == |s.owner|
    requires t.started == s.started && t.built == s.built && t.failed == s.failed && t.settled == s.settled
    requires forall x {:trigger t.owner[x]} :: 0 <= x < |s.owner| && s.owner[x] >= 0 ==> t.owner[x] >= 0
    ensures HistoryOk(c, t)
  {
    forall i {:trigger NeedsOnly(c.g, t.started[i], t.started[..i])} | 0 <= i < |t.started|
      ensures NeedsOnly(c.g, t.started[i], t.started[..i])
    {
      assert NeedsOnly(c.g, s.started[i], s.started[..i]);
    }
  }

  lemma WinHistory(c: Config, s: State, t: State, who: Actor)
    requires Invariant(c, s) && Wins(c, s, t, who)
    ensures HistoryOk(c, t)
  {
    WinChanges(c, s, t, who);
    SameHistory(c, s, t);
  }

  lemma WinLive(c: Config, s: State, t: State, who: Actor)
    requires Invariant(c, s) && Wins(c, s, t, who)
    ensures Live(t.tasks) == Live(s.tasks)
  {
    WinChanges(c, s, t, who);
    var pc := PcOf(s, who).(phase := Announce(|s.tasks|));
    LiveAfterSetPc(s, who, pc);
    LiveAppend(SetPc(s, who, pc).tasks, t.tasks[|s.tasks|]);
  }

  lemma WinLock(c: Config, s: State, t: State, who: Actor)
    requires Invariant(c, s) && Wins(c, s, t, who) && s.lock.Some?
    ensures TaskAt(t, s.lock.value)
    ensures t.tasks[s.lock.value].pc.Lowering? || t.tasks[s.lock.value].pc.Marking?
  {
    WinChanges(c, s, t, who);
    assert who != Worker(s.lock.value);
  }

  lemma WinShared(c: Config, s: State, t: State, who: Actor)
    requires Invariant(c, s) && Wins(c, s, t, who)
    ensures SharedOk(c, t)
  {
    WinChanges(c, s, t, who);
    WinLive(c, s, t, who);
    if s.lock.Some? {
      WinLock(c, s, t, who);
    }
  }

  lemma SwapWordKeeps(c: Config, s: State, who: Actor)
    requires Invariant(c, s) && Enabled(c, s, SwapWord(who))
    ensures Invariant(c, Next(c, s, SwapWord(who)))
  {
    CallerOk(c, s, who);
    var t := Next(c, s, SwapWord(who));
    var pc := PcOf(s, who);
    var w := pc.child / 64;
    if s.words[w] != pc.phase.seen {
      CallMoves(c, s, t, who, pc.(phase := Load));
    } else if B.Has(s.words, pc.child) {
      B.SetTwice(s.words[w], pc.child);
      assert s.words[w := s.words[w]] == s.words;
      CallReturns(c, s, t, who);
    } else {
      WinShared(c, s, t, who);
      WinHistory(c, s, t, who);
      WinTasks(c, s, t, who);
      forall i | 0 <= i < |c.g|
        ensures NodeOk(c, t, i)
      {
        WinNode(c, s, t, who, i);
      }
    }
  }

  /** The caller and the task it has created move together. */
  ghost predicate HandsOver(s: State, t: State, who: Actor, x: nat, p: Pc, q: Pc) {
    && CallIn(s, who) && TaskAt(s, x) && who != Worker(x)
    && s.tasks[x].caller == who && PcOf(s, who).phase == (if s.tasks[x].pc.Born? then Announce(x) else Submit(x))
    && (s.tasks[x].pc.Born? || s.tasks[x].pc.Announced?)
    && (if s.tasks[x].pc.Born? then q.Announced? else q.Ready?)
    && !p.Born? && !p.Announced?
    && t == SetPc(SetTask(s, x, q), who, p).(wg := t.wg)
  }

  lemma HandOverTask(c: Config, s: State, t: State, who: Actor, x: nat, p: Pc, q: Pc, b: nat)
    requires HandsOver(s, t, who, x, p, q) && b < |s.tasks| && b != x && who != Worker(b)
    requires TaskOk(c, s, b)
    ensures TaskOk(c, t, b)
  {
  }

  lemma HandOverNode(c: Config, s: State, t: State, who: Actor, x: nat, p: Pc, q: Pc, i: nat)
    requires Invariant(c, s) && HandsOver(s, t, who, x, p, q) && i < |c.g|
    requires p == Back(who, PcOf(s, who).k) || (p.Calling? && p.k == PcOf(s, who).k)
    ensures NodeOk(c, t, i)
  {
    CallerOk(c, s, who);
    assert NodeOk(c, s, i) && TaskOk(c, s, x);
    assert Seen(c, t) == Seen(c, s);
  }

  lemma HandOverKeeps(c: Config, s: State, t: State, who: Actor, x: nat, p: Pc, q: Pc)
    requires Invariant(c, s) && HandsOver(s, t, who, x, p, q)
    requires p == Back(who, PcOf(s, who).k) || (p.Calling? && p.k == PcOf(s, who).k)
    requires SharedOk(c, t) && TaskOk(c, t, x)
    requires if who.Starter? then StarterOk(c, t) else TaskOk(c, t, who.task)
    ensures Invariant(c, t)
  {
    forall b | 0 <= b < |t.tasks|
      ensures TaskOk(c, t, b)
    {
      if b != x && who != Worker(b) {
        assert TaskOk(c, s, b);
        HandOverTask(c, s, t, who, x, p, q, b);
      }
    }
    forall i | 0 <= i < |c.g|
      ensures NodeOk(c, t, i)
    {
      HandOverNode(c, s, t, who, x, p, q, i);
    }
    if who.Worker? && s.starter.Calling? {
      assert StarterOk(c, t);
    }
  }

  lemma LiveHandOver(s: State, who: Actor, x: nat, p: Pc, q: Pc)
    requires Present(s, who) && TaskAt(s, x) && who != Worker(x) && Counts(q)
    requires who.Worker? ==> Counts(p) && Counts(PcOf(s, who))
    ensures Live(SetPc(SetTask(s, x, q), who, p).tasks) == Live(s.tasks) + if Counts(s.tasks[x].pc) then 0 else 1
  {
    LiveUpdate(s.tasks, x, s.tasks[x].(pc := q));
    LiveAfterSetPc(SetTask(s, x, q), who, p);
  }

  lemma AnnounceTaskOwn(c: Config, s: State, who: Actor)
    requires Invariant(c, s) && Enabled(c, s, AnnounceTask(who))
    ensures var t := Next(c, s, AnnounceTask(who)); var x := PcOf(s, who).phase.task;
            && HandsOver(s, t, who, x, PcOf(s, who).(phase := Submit(PcOf(s, who).phase.task)), Announced)
            && TaskOk(c, t, x) && (if who.Starter? then StarterOk(c, t) else TaskOk(c, t, who.task))
  {
    CallerOk(c, s, who);
    assert TaskOk(c, s, PcOf(s, who).phase.task);
  }

  lemma AnnounceTaskShared(c: Config, s: State, who: Actor)
    requires Invariant(c, s) && Enabled(c, s, AnnounceTask(who))
    ensures SharedOk(c, Next(c, s, AnnounceTask(who)))
  {
    CallerOk(c, s, who);
    var x := PcOf(s, who).phase.task;
    assert TaskOk(c, s, x);
    LiveHandOver(s, who, x, PcOf(s, who).(phase := Submit(x)), Announced);
  }

  lemma AnnounceTaskKeeps(c: Config, s: State, who: Actor)
    requires Invariant(c, s) && Enabled(c, s, AnnounceTask(who))
    ensures Invariant(c, Next(c, s, AnnounceTask(who)))
  {
    var x := PcOf(s, who).phase.task;
    AnnounceTaskOwn(c, s, who);
    AnnounceTaskShared(c, s, who);
    HandOverKeeps(c, s, Next(c, s, AnnounceTask(who)), who, x, PcOf(s, who).(phase := Submit(x)), Announced);
  }

  lemma PoolAcceptsOwn(c: Config, s: State, who: Actor)
    requires Invariant(c, s) && Enabled(c, s, PoolAccepts(who))
    ensures var t := Next(c, s, PoolAccepts(who)); var x := PcOf(s, who).phase.task;
            && HandsOver(s, t, who, x, Back(who, PcOf(s, who).k), Ready)
            && SharedOk(c, t) && TaskOk(c, t, x)
            && (if who.Starter? then StarterOk(c, t) else TaskOk(c, t, who.task))
  {
    CallerOk(c, s, who);
    var x := PcOf(s, who).phase.task;
    assert TaskOk(c, s, x);
    LiveHandOver(s, who, x, Back(who, PcOf(s, who).k), Ready);
  }

  lemma PoolAcceptsKeeps(c: Config, s: State, who: Actor)
    requires Invariant(c, s) && Enabled(c, s, PoolAccepts(who))
    ensures Invariant(c, Next(c, s, PoolAccepts(who)))
  {
    var x := PcOf(s, who).phase.task;
    PoolAcceptsOwn(c, s, who);
    HandOverKeeps(c, s, Next(c, s, PoolAccepts(who)), who, x, Back(who, PcOf(s, who).k), Ready);
  }

  lemma PoolRefusesOwn(c: Config, s: State, who: Actor)
    requires Invariant(c, s) && Enabled(c, s, PoolRefuses(who))
    ensures var t := Next(c, s, PoolRefuses(who)); var x := PcOf(s, who).phase.task;
            && HandsOver(s, t, who, x, PcOf(s, who).(phase := Inline(PcOf(s, who).phase.task)), Ready)
            && SharedOk(c, t) && TaskOk(c, t, x)
            && (if who.Starter? then StarterOk(c, t) else TaskOk(c, t, who.task))
  {
    CallerOk(c, s, who);
    var x := PcOf(s, who).phase.task;
    assert TaskOk(c, s, x);
    LiveHandOver(s, who, x, PcOf(s, who).(phase := Inline(x)), Ready);
  }

  lemma PoolRefusesKeeps(c: Config, s: State, who: Actor)
    requires Invariant(c, s) && Enabled(c, s, PoolRefuses(who))
    ensures Invariant(c, Next(c, s, PoolRefuses(who)))
  {
    var x := PcOf(s, who).phase.task;
    PoolRefusesOwn(c, s, who);
    HandOverKeeps(c, s, Next(c, s, PoolRefuses(who)), who, x, PcOf(s, who).(phase := Inline(x)), Ready);
  }

  // ---------------------------------------------------------------- every step, every run

  lemma StepKeeps(c: Config, s: State, l: Label)
    requires Invariant(c, s) && Enabled(c, s, l)
    ensures Invariant(c, Next(c, s, l))
  {
    match l
    case Check => CheckKeeps(c, s);
    case StartWaiting => StartWaitingKeeps(c, s);
    case Return => ReturnKeeps(c, s);
    case LoadWord(who) => LoadWordKeeps(c, s, who);
    case SwapWord(who) => SwapWordKeeps(c, s, who);
    case AnnounceTask(who) => AnnounceTaskKeeps(c, s, who);
    case PoolAccepts(who) => PoolAcceptsKeeps(c, s, who);
    case PoolRefuses(who) => PoolRefusesKeeps(c, s, who);
    case InlineDone(who) => InlineDoneKeeps(c, s, who);
    case Begin(a) => BeginKeeps(c, s, a);
    case BuildSucceeds(a) => BuildSucceedsKeeps(c, s, a);
    case BuildFails(a) => BuildFailsKeeps(c, s, a);
    case RecordFailure(a) => RecordFailureKeeps(c, s, a);
    case TakeLock(a) => TakeLockKeeps(c, s, a);
    case Lower(a) => LowerKeeps(c, s, a);
    case Mark(a) => MarkKeeps(c, s, a);
    case ReleaseLock(a) => ReleaseLockKeeps(c, s, a);
    case Claim(a) => ClaimKeeps(c, s, a);
    case PassBy(a) => PassByKeeps(c, s, a);
    case LoopEnds(a) => LoopEndsKeeps(c, s, a);
    case Leave(a) => LeaveKeeps(c, s, a);
  }

  lemma {:induction false} RunKeeps(c: Config, run: seq<State>)
    requires ValidConfig(c) && IsRun(c, run)
    ensures Invariant(c, run[|run| - 1])
  {
    if |run| == 1 {
      InitHolds(c);
    } else {
      var last := |run| - 2;
      assert IsStep(c, run[last], run[last + 1]);
      var before := run[..last + 1];
      forall i | 0 <= i < |before| - 1
        ensures IsStep(c, before[i], before[i + 1])
      {
        assert IsStep(c, run[i], run[i + 1]);
      }
      RunKeeps(c, before);
      var l :| Enabled(c, run[last], l) && run[last + 1] == Next(c, run[last], l);
      StepKeeps(c, run[last], l);
    }
  }
}
