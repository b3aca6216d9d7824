/** Every run of the parallel builder ends: each step creates a task or uses up work. */
module DagTermination {
  import opened Graphs
  import opened DagBuild
  import opened DagInvariant
  import opened DagSteps
  import B = Bitmap

  // ---------------------------------------------------------------- work left

  /** What a call of `schedule` may still cost. A compare-and-swap with a stale word goes back to loading, but
      words change only when a task is created. */
  ghost function CallWork(words: seq<B.Word>, child: nat, phase: Phase): nat {
    match phase
    case Load => 3
    case Swap(seen) => if child / 64 < |words| && words[child / 64] == seen then 2 else 4
    case Announce(_) => 3
    case Submit(_) => 2
    case Inline(_) => 1
  }

  /** What an actor with a loop of `length` may still cost. */
  ghost function PcWork(words: seq<B.Word>, length: nat, pc: Pc): int {
    match pc
    case Checking(i) => 2 + 6 * (length - i)
    case Waiting => 1
    case Returned(_) => 0
    case Calling(k, child, phase) => 3 + 6 * (length - k - 1) + CallWork(words, child, phase)
    case Born => 8 * length + 9
    case Announced => 8 * length + 8
    case Ready => 8 * length + 7
    case Building => 8 * length + 6
    case Finishing => 8 * length + 5
    case Lowering(k) => 6 * length + 4 + 2 * (length - k)
    case Marking(k) => 6 * length + 3 + 2 * (length - k)
    case Claiming(k) => 2 + 6 * (length - k)
    case Failing => 2
    case Leaving => 1
    case Finished => 0
  }

  ghost function TaskWork(c: Config, words: seq<B.Word>, t: Task): int {
    PcWork(words, |Row(c, t.node)|, t.pc)
  }

  ghost function TasksWork(c: Config, words: seq<B.Word>, tasks: seq<Task>): int {
    if tasks == [] then 0
    else TasksWork(c, words, tasks[..|tasks| - 1]) + TaskWork(c, words, tasks[|tasks| - 1])
  }

  ghost function Work(c: Config, s: State): int {
    PcWork(s.words, |c.g|, s.starter) + TasksWork(c, s.words, s.tasks)
  }

  lemma {:induction false} TasksWorkUpdate(c: Config, words: seq<B.Word>, tasks: seq<Task>, a: nat, u: Task)
    requires a < |tasks|
    ensures TasksWork(c, words, tasks[a := u]) ==
            TasksWork(c, words, tasks) + TaskWork(c, words, u) - TaskWork(c, words, tasks[a])
  {
    var last := |tasks| - 1;
    if a < last {
      TasksWorkUpdate(c, words, tasks[..last], a, u);
      assert tasks[a := u][..last] == tasks[..last][a := u];
    } else {
      assert tasks[a := u][..last] == tasks[..last];
    }
  }

  lemma {:induction false} TasksWorkNonNegative(c: Config, words: seq<B.Word>, tasks: seq<Task>)
    requires forall a :: 0 <= a < |tasks| ==> TaskWork(c, words, tasks[a]) >= 0
    ensures TasksWork(c, words, tasks) >= 0
  {
    if tasks != [] {
      TasksWorkNonNegative(c, words, tasks[..|tasks| - 1]);
    }
  }

  lemma WorkNonNegative(c: Config, s: State)
    requires Invariant(c, s)
    ensures Work(c, s) >= 0
  {
    forall a | 0 <= a < |s.tasks|
      ensures TaskWork(c, s.words, s.tasks[a]) >= 0
    {
      assert TaskOk(c, s, a);
    }
    TasksWorkNonNegative(c, s.words, s.tasks);
  }

  lemma FewTasks(c: Config, s: State)
    requires Invariant(c, s)
    ensures |s.tasks| <= |c.g|
  {
    var nodes: seq<int> := seq(|s.tasks|, a requires 0 <= a < |s.tasks| => s.tasks[a].node);
    forall a | 0 <= a < |nodes|
      ensures 0 <= nodes[a] < |c.g| && s.owner[nodes[a]] == a
    {
      assert TaskOk(c, s, a);
    }
    DistinctIntoBound(nodes, |c.g|);
  }

  lemma SetPcWork(c: Config, s: State, who: Actor, pc: Pc)
    requires Present(s, who)
    ensures Work(c, SetPc(s, who, pc)) == Work(c, s) + ActorWork(c, s, who, pc) - ActorWork(c, s, who, PcOf(s, who))
  {
    if who.Worker? {
      TasksWorkUpdate(c, s.words, s.tasks, who.task, s.tasks[who.task].(pc := pc));
    }
  }

  ghost function ActorWork(c: Config, s: State, who: Actor, pc: Pc): int
    requires Present(s, who)
  {
    PcWork(s.words, if who.Starter? then |c.g| else |Row(c, s.tasks[who.task].node)|, pc)
  }

  // ---------------------------------------------------------------- each step makes progress

  ghost predicate Progress(c: Config, s: State, t: State) {
    |t.tasks| > |s.tasks| || (|t.tasks| == |s.tasks| && Work(c, t) < Work(c, s))
  }

  lemma TaskProgress(c: Config, s: State, t: State, a: nat)
    requires TaskAt(s, a) && |t.tasks| == |s.tasks|
    requires t.words == s.words && t.starter == s.starter
    requires t.tasks == SetTask(s, a, t.tasks[a].pc).tasks
    requires TaskWork(c, s.words, t.tasks[a]) < TaskWork(c, s.words, s.tasks[a])
    ensures Progress(c, s, t)
  {
    TasksWorkUpdate(c, s.words, s.tasks, a, t.tasks[a]);
  }

  lemma BuildProgress(c: Config, s: State, l: Label)
    requires Invariant(c, s) && Enabled(c, s, l) && (l.Begin? || l.BuildSucceeds? || l.BuildFails?)
    ensures Progress(c, s, Next(c, s, l))
  {
    assert TaskOk(c, s, l.a);
    TaskProgress(c, s, Next(c, s, l), l.a);
  }

  lemma EndProgress(c: Config, s: State, l: Label)
    requires Invariant(c, s) && Enabled(c, s, l) && (l.RecordFailure? || l.TakeLock? || l.Leave?)
    ensures Progress(c, s, Next(c, s, l))
  {
    assert TaskOk(c, s, l.a);
    TaskProgress(c, s, Next(c, s, l), l.a);
  }

  lemma LowerProgress(c: Config, s: State, l: Label)
    requires Invariant(c, s) && Enabled(c, s, l) && (l.Lower? || l.Mark?)
    ensures Progress(c, s, Next(c, s, l))
  {
    assert TaskOk(c, s, l.a);
    TaskProgress(c, s, Next(c, s, l), l.a);
  }

  lemma ReleaseProgress(c: Config, s: State, l: Label)
    requires Invariant(c, s) && Enabled(c, s, l) && (l.ReleaseLock? || l.LoopEnds?)
    ensures Progress(c, s, Next(c, s, l))
  {
    assert TaskOk(c, s, l.a);
    TaskProgress(c, s, Next(c, s, l), l.a);
  }

  lemma ClaimProgress(c: Config, s: State, l: Label)
    requires Invariant(c, s) && Enabled(c, s, l) && (l.Claim? || l.PassBy?)
    ensures Progress(c, s, Next(c, s, l))
  {
    assert TaskOk(c, s, l.a);
    TaskProgress(c, s, Next(c, s, l), l.a);
  }

  lemma CallStepProgress(c: Config, s: State, who: Actor, pc: Pc)
    requires Present(s, who) && ActorWork(c, s, who, pc) < ActorWork(c, s, who, PcOf(s, who))
    ensures Progress(c, s, SetPc(s, who, pc))
  {
    SetPcWork(c, s, who, pc);
  }

  lemma SwapProgress(c: Config, s: State, who: Actor)
    requires Invariant(c, s) && Enabled(c, s, SwapWord(who))
    ensures Progress(c, s, Next(c, s, SwapWord(who)))
  {
    CallerOk(c, s, who);
    var pc := PcOf(s, who);
    var w := pc.child / 64;
    if s.words[w] != pc.phase.seen {
      CallStepProgress(c, s, who, pc.(phase := Load));
    } else if B.Has(s.words, pc.child) {
      B.SetTwice(s.words[w], pc.child);
      assert s.words[w := s.words[w]] == s.words;
      CallStepProgress(c, s, who, Back(who, pc.k));
    }
  }

  lemma HandOverProgress(c: Config, s: State, t: State, who: Actor, x: nat, p: Pc, q: Pc)
    requires Present(s, who) && TaskAt(s, x) && who != Worker(x)
    requires t == SetPc(SetTask(s, x, q), who, p).(wg := t.wg)
    requires ActorWork(c, s, who, p) < ActorWork(c, s, who, PcOf(s, who))
    requires ActorWork(c, s, Worker(x), q) < ActorWork(c, s, Worker(x), s.tasks[x].pc)
    ensures Progress(c, s, t)
  {
    SetPcWork(c, s, Worker(x), q);
    SetPcWork(c, SetTask(s, x, q), who, p);
  }

  lemma CallProgress(c: Config, s: State, l: Label)
    requires Invariant(c, s) && Enabled(c, s, l) && (l.LoadWord? || l.InlineDone?)
    ensures Progress(c, s, Next(c, s, l))
  {
    var who, pc := l.who, PcOf(s, l.who);
    CallerOk(c, s, who);
    if l.LoadWord? {
      CallStepProgress(c, s, who, pc.(phase := Swap(s.words[pc.child / 64])));
    } else {
      CallStepProgress(c, s, who, Back(who, pc.k));
    }
  }

  lemma AnnounceProgress(c: Config, s: State, who: Actor)
    requires Invariant(c, s) && Enabled(c, s, AnnounceTask(who))
    ensures Progress(c, s, Next(c, s, AnnounceTask(who)))
  {
    CallerOk(c, s, who);
    var pc := PcOf(s, who);
    var x := pc.phase.task;
    HandOverProgress(c, s, Next(c, s, AnnounceTask(who)), who, x, pc.(phase := Submit(x)), Announced);
  }

  lemma SubmitProgress(c: Config, s: State, l: Label)
    requires Invariant(c, s) && Enabled(c, s, l) && (l.PoolAccepts? || l.PoolRefuses?)
    ensures Progress(c, s, Next(c, s, l))
  {
    var who, pc := l.who, PcOf(s, l.who);
    CallerOk(c, s, who);
    var x := pc.phase.task;
    HandOverProgress(c, s, Next(c, s, l), who, x,
                     if l.PoolAccepts? then Back(who, pc.k) else pc.(phase := Inline(x)), Ready);
  }

  lemma StarterProgress(c: Config, s: State, l: Label)
    requires Invariant(c, s) && Enabled(c, s, l) && (l.Check? || l.StartWaiting? || l.Return?)
    ensures Progress(c, s, Next(c, s, l))
  {
  }

  lemma StepProgress(c: Config, s: State, l: Label)
    requires Invariant(c, s) && Enabled(c, s, l)
    ensures Progress(c, s, Next(c, s, l))
  {
    match l
    case Check => StarterProgress(c, s, l);
    case StartWaiting => StarterProgress(c, s, l);
    case Return => StarterProgress(c, s, l);
    case SwapWord(who) => SwapProgress(c, s, who);
    case LoadWord(_) => CallProgress(c, s, l);
    case InlineDone(_) => CallProgress(c, s, l);
    case AnnounceTask(who) => AnnounceProgress(c, s, who);
    case PoolAccepts(_) => SubmitProgress(c, s, l);
    case PoolRefuses(_) => SubmitProgress(c, s, l);
    case Lower(_) => LowerProgress(c, s, l);
    case Mark(_) => LowerProgress(c, s, l);
    case ReleaseLock(_) => ReleaseProgress(c, s, l);
    case LoopEnds(_) => ReleaseProgress(c, s, l);
    case Claim(_) => ClaimProgress(c, s, l);
    case PassBy(_) => ClaimProgress(c, s, l);
    case Begin(_) => BuildProgress(c, s, l);
    case BuildSucceeds(_) => BuildProgress(c, s, l);
    case BuildFails(_) => BuildProgress(c, s, l);
    case _ => EndProgress(c, s, l);
  }

  // ---------------------------------------------------------------- no infinite run

  /** The room for tasks and the work left, compared in that order. */
  lemma StepShrinks(c: Config, s: State, t: State)
    requires Invariant(c, s) && IsStep(c, s, t)
    ensures Invariant(c, t)
    ensures |c.g| - |t.tasks| >= 0 && Work(c, s) >= 0
    ensures |t.tasks| > |s.tasks| || (|t.tasks| == |s.tasks| && Work(c, t) < Work(c, s))
  {
    var l :| Enabled(c, s, l) && t == Next(c, s, l);
    StepKeeps(c, s, l);
    StepProgress(c, s, l);
    FewTasks(c, t);
    WorkNonNegative(c, s);
  }

  lemma {:induction false} StopsFrom(c: Config, run: nat -> State, k: nat) returns (stop: nat)
    requires Invariant(c, run(k))
    ensures !IsStep(c, run(stop), run(stop + 1))
    decreases |c.g| - |run(k).tasks|, Work(c, run(k))
  {
    if IsStep(c, run(k), run(k + 1)) {
      StepShrinks(c, run(k), run(k + 1));
      stop := StopsFrom(c, run, k + 1);
    } else {
      stop := k;
    }
  }

  /** No infinite sequence of states is a run. */
  lemma EveryRunEnds(c: Config, run: nat -> State) returns (stop: nat)
    requires ValidConfig(c) && run(0) == Init(c)
    ensures !IsStep(c, run(stop), run(stop + 1))
  {
    InitHolds(c);
    stop := StopsFrom(c, run, 0);
  }
}
