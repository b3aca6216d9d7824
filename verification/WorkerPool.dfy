/** The worker pool that hashes the changed chunks of one text: a caller and any number of workers that share a mutex
    and a condition variable. Every section under the mutex is one step. What happens outside it, writing the job list
    and writing a digest, are steps of their own, so they interleave with everything else. */
module WorkerPool {

  /** The text is a parameter, and so is the hash of its chunk at an index. */
  datatype Config<!T, !D> = Config(workers: nat, leaf: (T, nat) -> D)

  datatype Job<T> = Job(text: T, index: nat)

  datatype Pc<T> =
    | Top
    | Asleep
    | Taking
    | Hashing(position: nat, job: Job<T>)
    | Finishing(position: nat)

  /** `seen` is the batch the worker last woke up for. */
  datatype Worker<T> = Worker(pc: Pc<T>, seen: nat)

  datatype Caller = Idle | Filling(i: nat) | Sleeping | Woken

  datatype State<T, D> = State(
    workers: seq<Worker<T>>,
    caller: Caller,
    jobs: seq<Job<T>>,
    next: nat,
    done: nat,
    count: nat,
    batch: nat,
    text: T,
    indexes: seq<nat>,
    before: seq<D>,
    digests: seq<D>)

  datatype Label = Begin | Call | Work(w: nat)

  // ---------------------------------------------------------------- steps

  function Wake<T>(w: Worker<T>): Worker<T> {
    if w.pc.Asleep? then w.(pc := Top) else w
  }

  function Broadcast<T>(workers: seq<Worker<T>>): (r: seq<Worker<T>>)
    ensures |r| == |workers| && forall w {:trigger r[w]} :: 0 <= w < |r| ==> r[w] == Wake(workers[w])
  {
    seq(|workers|, w requires 0 <= w < |workers| => Wake(workers[w]))
  }

  /** The wait loop of the caller: it looks at the counters and sleeps or returns. */
  function Look(done: nat, count: nat): Caller {
    if done != count then Sleeping else Idle
  }

  predicate CallerCan<T, D>(s: State<T, D>) {
    match s.caller
    case Idle => false
    case Filling(i) => i < |s.indexes| ==> i < |s.jobs|
    case Sleeping => false
    case Woken => true
  }

  function CallerStep<T, D>(s: State<T, D>): State<T, D>
    requires CallerCan(s)
  {
    match s.caller
    case Filling(i) =>
      if i < |s.indexes| then
        s.(jobs := s.jobs[i := Job(s.text, s.indexes[i])], caller := Filling(i + 1))
      else
        s.(next := 0, done := 0, count := |s.indexes|, batch := s.batch + 1,
           workers := Broadcast(s.workers), caller := Look(0, |s.indexes|))
    case Woken => s.(caller := Look(s.done, s.count))
  }

  /** A job or a digest outside its list would be a panic. */
  predicate WorkerCan<T, D>(s: State<T, D>, w: nat) {
    w < |s.workers| &&
    match s.workers[w].pc
    case Top => true
    case Asleep => false
    case Taking => s.next < s.count ==> s.next < |s.jobs|
    case Hashing(_, job) => job.index < |s.digests|
    case Finishing(_) => true
  }

  function WorkerStep<T, D>(c: Config<T, D>, s: State<T, D>, w: nat): State<T, D>
    requires WorkerCan(s, w)
  {
    var me := s.workers[w];
    match me.pc
    case Top =>
      s.(workers := s.workers[w := if me.seen == s.batch then me.(pc := Asleep) else Worker(Taking, s.batch)])
    case Taking =>
      if s.next >= s.count then s.(workers := s.workers[w := me.(pc := Top)])
      else s.(next := s.next + 1, workers := s.workers[w := me.(pc := Hashing(s.next, s.jobs[s.next]))])
    case Hashing(position, job) =>
      s.(digests := s.digests[job.index := c.leaf(job.text, job.index)],
         workers := s.workers[w := me.(pc := Finishing(position))])
    case Finishing(_) =>
      var moved := s.workers[w := me.(pc := Taking)];
      if s.done + 1 == s.count then
        s.(done := s.done + 1, workers := Broadcast(moved),
           caller := if s.caller.Sleeping? then Woken else s.caller)
      else
        s.(done := s.done + 1, workers := moved)
  }

  ghost predicate Distinct(s: seq<nat>) {
    forall k, l :: 0 <= k < l < |s| ==> s[k] != s[l]
  }

  /** A call with something to hash. The job list has the right length and whatever was in it before. */
  ghost predicate BeginStep<T, D>(s: State<T, D>, t: State<T, D>) {
    && s.caller.Idle?
    && t == s.(caller := Filling(0), jobs := t.jobs, text := t.text, indexes := t.indexes,
               before := t.before, digests := t.before)
    && |t.jobs| == |t.indexes| > 0 && Distinct(t.indexes)
    && forall k {:trigger t.indexes[k]} :: 0 <= k < |t.indexes| ==> t.indexes[k] < |t.before|
  }

  ghost predicate Next<T, D>(c: Config<T, D>, s: State<T, D>, l: Label, t: State<T, D>) {
    match l
    case Begin => BeginStep(s, t)
    case Call => CallerCan(s) && t == CallerStep(s)
    case Work(w) => WorkerCan(s, w) && t == WorkerStep(c, s, w)
  }

  ghost predicate Init<T, D>(c: Config<T, D>, s: State<T, D>) {
    && |s.workers| == c.workers > 0
    && (forall w {:trigger s.workers[w]} :: 0 <= w < c.workers ==> s.workers[w] == Worker(Top, 0))
    && s.caller.Idle? && s.next == s.done == s.count == s.batch == 0
  }

  ghost predicate IsRun<T, D>(c: Config<T, D>, states: seq<State<T, D>>, labels: seq<Label>) {
    && |states| == |labels| + 1 && Init(c, states[0])
    && forall i {:trigger labels[i]} :: 0 <= i < |labels| ==> Next(c, states[i], labels[i], states[i + 1])
  }

  // ---------------------------------------------------------------- the invariant

  predicate IsBusy<T>(w: Worker<T>) {
    w.pc.Hashing? || w.pc.Finishing?
  }

  function Busy<T>(workers: seq<Worker<T>>): nat {
    if workers == [] then 0
    else Busy(workers[..|workers| - 1]) + if IsBusy(workers[|workers| - 1]) then 1 else 0
  }

  /** A worker that has looked at the present batch and gone to sleep left nothing to take. */
  ghost predicate WorkerOk<T, D>(s: State<T, D>, w: Worker<T>) {
    && w.seen <= s.batch
    && (w.pc.Asleep? ==> w.seen == s.batch)
    && ((w.pc.Top? || w.pc.Asleep?) && w.seen == s.batch ==> s.next == s.count)
    && (w.pc.Hashing? ==>
          && s.caller.Sleeping? && w.pc.position < s.next <= |s.indexes|
          && w.pc.job == Job(s.text, s.indexes[w.pc.position]))
    && (w.pc.Finishing? ==> s.caller.Sleeping?)
  }

  ghost predicate Counts<T, D>(s: State<T, D>) {
    && s.done + Busy(s.workers) == s.next <= s.count
    && (!s.caller.Sleeping? ==> s.done == s.count)
    && (s.caller.Sleeping? ==> s.done < s.count)
  }

  ghost predicate Filled<T, D>(s: State<T, D>, n: nat) {
    && n <= |s.jobs| == |s.indexes|
    && forall k {:trigger s.jobs[k]} :: 0 <= k < n ==> s.jobs[k] == Job(s.text, s.indexes[k])
  }

  ghost predicate CallOk<T, D>(s: State<T, D>) {
    !s.caller.Idle? ==>
      && |s.digests| == |s.before| && |s.indexes| > 0 && Distinct(s.indexes)
      && (forall k {:trigger s.indexes[k]} :: 0 <= k < |s.indexes| ==> s.indexes[k] < |s.before|)
      && Filled(s, if s.caller.Filling? then s.caller.i else |s.indexes|)
      && (if s.caller.Filling? then s.digests == s.before else s.count == |s.indexes|)
  }

  ghost predicate IsHashing<T, D>(s: State<T, D>, k: nat) {
    exists w {:trigger s.workers[w]} ::
      0 <= w < |s.workers| && s.workers[w].pc.Hashing? && s.workers[w].pc.position == k
  }

  ghost predicate Written<T, D>(c: Config<T, D>, s: State<T, D>, k: nat) {
    k < |s.indexes| && s.indexes[k] < |s.digests| && s.digests[s.indexes[k]] == c.leaf(s.text, s.indexes[k])
  }

  /** Every job taken is in the hands of a worker or has its digest written, and nothing else is written. */
  ghost predicate DigestsOk<T, D>(c: Config<T, D>, s: State<T, D>) {
    s.caller.Sleeping? || s.caller.Woken? ==>
      && |s.digests| == |s.before|
      && (forall k {:trigger Written(c, s, k)} :: 0 <= k < s.next ==> Written(c, s, k) || IsHashing(s, k))
      && (forall i {:trigger s.digests[i]} :: 0 <= i < |s.digests| && i !in s.indexes ==> s.digests[i] == s.before[i])
  }

  ghost predicate Inv<T, D>(c: Config<T, D>, s: State<T, D>) {
    && |s.workers| == c.workers > 0
    && (forall w {:trigger s.workers[w]} :: 0 <= w < |s.workers| ==> WorkerOk(s, s.workers[w]))
    && Counts(s) && CallOk(s) && DigestsOk(c, s)
  }

  // ---------------------------------------------------------------- counting

  lemma {:induction false} BusyUpdate<T>(workers: seq<Worker<T>>, w: nat, x: Worker<T>)
    requires w < |workers|
    ensures Busy(workers[w := x]) ==
            Busy(workers) - (if IsBusy(workers[w]) then 1 else 0) + (if IsBusy(x) then 1 else 0)
  {
    var n := |workers| - 1;
    if w < n {
      BusyUpdate(workers[..n], w, x);
      assert workers[w := x][..n] == workers[..n][w := x];
    } else {
      assert workers[w := x][..n] == workers[..n];
    }
  }

  lemma {:induction false} BusyAwake<T>(workers: seq<Worker<T>>)
    ensures Busy(Broadcast(workers)) == Busy(workers)
  {
    if workers != [] {
      var n := |workers| - 1;
      BusyAwake(workers[..n]);
      assert Broadcast(workers)[..n] == Broadcast(workers[..n]);
    }
  }

  lemma {:induction false} NoneBusy<T>(workers: seq<Worker<T>>)
    ensures Busy(workers) == 0 <==> forall w {:trigger workers[w]} :: 0 <= w < |workers| ==> !IsBusy(workers[w])
  {
    if workers != [] {
      var n := |workers| - 1;
      NoneBusy(workers[..n]);
      assert forall w :: 0 <= w < n ==> workers[..n][w] == workers[w];
      if Busy(workers) == 0 {
        forall w | 0 <= w < |workers|
          ensures !IsBusy(workers[w])
        {
          if w < n {
            assert !IsBusy(workers[..n][w]);
          }
        }
      }
    }
  }

  // ---------------------------------------------------------------- every step keeps the invariant

  lemma InitHolds<T, D>(c: Config<T, D>, s: State<T, D>)
    requires Init(c, s)
    ensures Inv(c, s)
  {
    NoneBusy(s.workers);
  }

  lemma BeginKeeps<T, D>(c: Config<T, D>, s: State<T, D>, t: State<T, D>)
    requires Inv(c, s) && BeginStep(s, t)
    ensures Inv(c, t)
  {
    forall w | 0 <= w < |t.workers|
      ensures WorkerOk(t, t.workers[w])
    {
      assert WorkerOk(s, s.workers[w]);
    }
  }

  lemma CallKeeps<T, D>(c: Config<T, D>, s: State<T, D>)
    requires Inv(c, s) && CallerCan(s)
    ensures Inv(c, CallerStep(s))
  {
    var t := CallerStep(s);
    BusyAwake(s.workers);
    NoneBusy(s.workers);
    forall w | 0 <= w < |t.workers|
      ensures WorkerOk(t, t.workers[w])
    {
      assert WorkerOk(s, s.workers[w]);
    }
    if s.caller.Woken? {
      forall k {:trigger Written(c, t, k)} | 0 <= k < t.next
        ensures Written(c, t, k) || IsHashing(t, k)
      {
        assert Written(c, s, k) || IsHashing(s, k);
      }
    }
  }

  /** Every job of the first `n` is in the hands of a worker or has its digest written. */
  ghost predicate Accounted<T, D>(c: Config<T, D>, s: State<T, D>, n: nat) {
    forall k {:trigger Written(c, s, k)} :: 0 <= k < n ==> Written(c, s, k) || IsHashing(s, k)
  }

  /** A worker that is not hashing takes no job away from anyone. */
  lemma OthersHash<T, D>(c: Config<T, D>, s: State<T, D>, t: State<T, D>, w: nat)
    requires w < |s.workers| == |t.workers| && !s.workers[w].pc.Hashing?
    requires forall v {:trigger t.workers[v]} :: 0 <= v < |t.workers| && v != w ==>
      t.workers[v] == s.workers[v] || t.workers[v] == Wake(s.workers[v])
    requires t.indexes == s.indexes && t.digests == s.digests && t.text == s.text
    requires Accounted(c, s, s.next)
    ensures Accounted(c, t, s.next)
  {
    forall k {:trigger Written(c, t, k)} | 0 <= k < s.next
      ensures Written(c, t, k) || IsHashing(t, k)
    {
      assert Written(c, s, k) || IsHashing(s, k);
      if IsHashing(s, k) {
        var v :| 0 <= v < |s.workers| && s.workers[v].pc.Hashing? && s.workers[v].pc.position == k;
        assert t.workers[v].pc == s.workers[v].pc;
      }
    }
  }

  lemma TopKeeps<T, D>(c: Config<T, D>, s: State<T, D>, w: nat)
    requires Inv(c, s) && WorkerCan(s, w) && s.workers[w].pc.Top?
    ensures Inv(c, WorkerStep(c, s, w))
  {
    var t := WorkerStep(c, s, w);
    assert WorkerOk(s, s.workers[w]);
    BusyUpdate(s.workers, w, t.workers[w]);
    if s.caller.Sleeping? || s.caller.Woken? {
      OthersHash(c, s, t, w);
    }
  }

  lemma TakingKeeps<T, D>(c: Config<T, D>, s: State<T, D>, w: nat)
    requires Inv(c, s) && WorkerCan(s, w) && s.workers[w].pc.Taking?
    ensures Inv(c, WorkerStep(c, s, w))
  {
    var t := WorkerStep(c, s, w);
    assert WorkerOk(s, s.workers[w]);
    BusyUpdate(s.workers, w, t.workers[w]);
    NoneBusy(s.workers);
    if s.caller.Sleeping? || s.caller.Woken? {
      OthersHash(c, s, t, w);
      if s.next < s.count {
        assert t.workers[w].pc.position == s.next;
        assert IsHashing(t, s.next);
      }
    }
    forall v | 0 <= v < |t.workers|
      ensures WorkerOk(t, t.workers[v])
    {
      assert WorkerOk(s, s.workers[v]);
    }
  }

  lemma HashingKeeps<T, D>(c: Config<T, D>, s: State<T, D>, w: nat)
    requires Inv(c, s) && WorkerCan(s, w) && s.workers[w].pc.Hashing?
    ensures Inv(c, WorkerStep(c, s, w))
  {
    var t, pc := WorkerStep(c, s, w), s.workers[w].pc;
    assert WorkerOk(s, s.workers[w]);
    BusyUpdate(s.workers, w, t.workers[w]);
    assert pc.job.index in s.indexes;
    forall k {:trigger Written(c, t, k)} | 0 <= k < t.next
      ensures Written(c, t, k) || IsHashing(t, k)
    {
      assert Written(c, s, k) || IsHashing(s, k);
      if k != pc.position && IsHashing(s, k) {
        var v :| 0 <= v < |s.workers| && s.workers[v].pc.Hashing? && s.workers[v].pc.position == k;
        assert t.workers[v] == s.workers[v];
      }
    }
    forall v | 0 <= v < |t.workers|
      ensures WorkerOk(t, t.workers[v])
    {
      assert WorkerOk(s, s.workers[v]);
    }
  }

  lemma FinishingKeeps<T, D>(c: Config<T, D>, s: State<T, D>, w: nat)
    requires Inv(c, s) && WorkerCan(s, w) && s.workers[w].pc.Finishing?
    ensures Inv(c, WorkerStep(c, s, w))
  {
    var t := WorkerStep(c, s, w);
    var moved := s.workers[w := s.workers[w].(pc := Taking)];
    assert WorkerOk(s, s.workers[w]);
    BusyUpdate(s.workers, w, moved[w]);
    BusyAwake(moved);
    NoneBusy(t.workers);
    OthersHash(c, s, t, w);
    forall v | 0 <= v < |t.workers|
      ensures WorkerOk(t, t.workers[v])
    {
      assert WorkerOk(s, s.workers[v]);
      assert t.workers[v] == moved[v] || t.workers[v] == Wake(moved[v]);
      assert s.done + 1 == s.count ==> !IsBusy(t.workers[v]);
    }
  }

  lemma StepKeeps<T, D>(c: Config<T, D>, s: State<T, D>, l: Label, t: State<T, D>)
    requires Inv(c, s) && Next(c, s, l, t)
    ensures Inv(c, t)
  {
    match l
    case Begin => BeginKeeps(c, s, t);
    case Call => CallKeeps(c, s);
    case Work(w) =>
      match s.workers[w].pc
      case Top => TopKeeps(c, s, w);
      case Taking => TakingKeeps(c, s, w);
      case Hashing(_, _) => HashingKeeps(c, s, w);
      case Finishing(_) => FinishingKeeps(c, s, w);
  }

  lemma {:induction false} RunKeeps<T, D>(c: Config<T, D>, states: seq<State<T, D>>, labels: seq<Label>, i: nat)
    requires IsRun(c, states, labels) && i < |states|
    ensures Inv(c, states[i])
  {
    if i == 0 {
      InitHolds(c, states[0]);
    } else {
      RunKeeps(c, states, labels, i - 1);
      assert Next(c, states[i - 1], labels[i - 1], states[i]);
      StepKeeps(c, states[i - 1], labels[i - 1], states[i]);
    }
  }

  // ---------------------------------------------------------------- what a run gives

  /** The step takes job `position` of the present batch. */
  ghost predicate Takes<T, D>(s: State<T, D>, l: Label, position: nat) {
    l.Work? && l.w < |s.workers| && s.workers[l.w].pc.Taking? && s.next < s.count && s.next == position
  }

  /** The step lets the caller return from its wait. */
  ghost predicate Returns<T, D>(s: State<T, D>, l: Label, t: State<T, D>) {
    l.Call? && !s.caller.Idle? && t.caller.Idle?
  }

  /** When the caller returns, the digests are those of the sequential loop and no worker holds a job. */
  lemma ReturnIsSequential<T, D>(c: Config<T, D>, states: seq<State<T, D>>, labels: seq<Label>, i: nat)
    requires IsRun(c, states, labels) && i < |labels| && Returns(states[i], labels[i], states[i + 1])
    ensures var t := states[i + 1];
            && t.done == t.next == t.count == |t.indexes| && |t.digests| == |t.before|
            && (forall k {:trigger t.digests[k]} :: 0 <= k < |t.digests| ==>
                  t.digests[k] == if k in t.indexes then c.leaf(t.text, k) else t.before[k])
            && (forall w {:trigger t.workers[w]} :: 0 <= w < |t.workers| ==> !IsBusy(t.workers[w]))
  {
    RunKeeps(c, states, labels, i);
    assert Next(c, states[i], labels[i], states[i + 1]);
    var s, t := states[i], states[i + 1];
    NoneBusy(s.workers);
    assert s.caller.Woken?;
    forall k {:trigger t.digests[k]} | 0 <= k < |t.digests| && k in t.indexes
      ensures t.digests[k] == c.leaf(t.text, k)
    {
      var p :| 0 <= p < |t.indexes| && t.indexes[p] == k;
      assert Written(c, s, p) || IsHashing(s, p);
      assert Written(c, s, p);
    }
  }

  ghost predicate Enabled<T, D>(s: State<T, D>, l: Label) {
    match l
    case Begin => false
    case Call => CallerCan(s)
    case Work(w) => WorkerCan(s, w)
  }

  /** No step of a run reads a job or writes a digest out of bounds, and while the caller is inside a call someone
      can take a step. */
  lemma NoDeadlock<T, D>(c: Config<T, D>, states: seq<State<T, D>>, labels: seq<Label>, i: nat) returns (l: Label)
    requires IsRun(c, states, labels) && i < |states|
    ensures |states[i].workers| == c.workers
    ensures forall w {:trigger WorkerCan(states[i], w)} :: 0 <= w < c.workers ==>
      WorkerCan(states[i], w) || states[i].workers[w].pc.Asleep?
    ensures !states[i].caller.Idle? ==> Enabled(states[i], l)
  {
    RunKeeps(c, states, labels, i);
    var s := states[i];
    l := Call;
    forall w {:trigger WorkerCan(s, w)} | 0 <= w < c.workers
      ensures WorkerCan(s, w) || s.workers[w].pc.Asleep?
    {
      assert WorkerOk(s, s.workers[w]);
    }
    if s.caller.Sleeping? {
      NoneBusy(s.workers);
      l := Work(0);
      if s.workers[0].pc.Asleep? {
        assert WorkerOk(s, s.workers[0]);
        var w :| 0 <= w < |s.workers| && IsBusy(s.workers[w]);
        l := Work(w);
      }
    }
  }

  /** The job list and the digests belong to the caller alone whenever it is outside the wait loop: nobody can take
      a job and nobody holds one. */
  lemma CallerWritesAlone<T, D>(c: Config<T, D>, states: seq<State<T, D>>, labels: seq<Label>, i: nat)
    requires IsRun(c, states, labels) && i < |states| && (states[i].caller.Idle? || states[i].caller.Filling?)
    ensures states[i].next >= states[i].count && |states[i].workers| == c.workers
    ensures forall w {:trigger states[i].workers[w]} :: 0 <= w < c.workers ==> !IsBusy(states[i].workers[w])
  {
    RunKeeps(c, states, labels, i);
    NoneBusy(states[i].workers);
  }

  // ---------------------------------------------------------------- every job goes to one worker

  lemma {:induction false} OnlyForward<T, D>(c: Config<T, D>, states: seq<State<T, D>>, labels: seq<Label>, i: nat,
                                             j: nat)
    requires IsRun(c, states, labels) && i <= j < |states|
    ensures states[i].batch <= states[j].batch
    ensures states[i].batch == states[j].batch ==> states[i].next <= states[j].next
  {
    if i < j {
      OnlyForward(c, states, labels, i, j - 1);
      assert Next(c, states[j - 1], labels[j - 1], states[j]);
    }
  }

  /** No job of a batch is taken twice. */
  lemma TakenAtMostOnce<T, D>(c: Config<T, D>, states: seq<State<T, D>>, labels: seq<Label>, i: nat, j: nat,
                              position: nat)
    requires IsRun(c, states, labels) && i < j < |labels| && states[i].batch == states[j].batch
    requires Takes(states[i], labels[i], position)
    ensures !Takes(states[j], labels[j], position)
  {
    assert Next(c, states[i], labels[i], states[i + 1]);
    OnlyForward(c, states, labels, i + 1, j);
  }

  lemma {:induction false} TakenBefore<T, D>(c: Config<T, D>, states: seq<State<T, D>>, labels: seq<Label>,
      i: nat, position: nat)
    returns (k: nat)
    requires IsRun(c, states, labels) && i < |states| && position < states[i].next
    ensures k < i && states[k].batch == states[i].batch && Takes(states[k], labels[k], position)
  {
    k := i - 1;
    assert Next(c, states[k], labels[k], states[i]);
    if !Takes(states[k], labels[k], position) {
      k := TakenBefore(c, states, labels, k, position);
    }
  }

  /** When the caller returns, every job of the batch has been taken, with the text and index of this call. */
  lemma EveryJobTaken<T, D>(c: Config<T, D>, states: seq<State<T, D>>, labels: seq<Label>, i: nat, position: nat)
    returns (k: nat)
    requires IsRun(c, states, labels) && i < |labels| && Returns(states[i], labels[i], states[i + 1])
    requires position < |states[i].indexes|
    ensures k < i && states[k].batch == states[i].batch && Takes(states[k], labels[k], position)
    ensures forall j {:trigger Takes(states[j], labels[j], position)} ::
      0 <= j < i && states[j].batch == states[i].batch && Takes(states[j], labels[j], position) ==> j == k
  {
    RunKeeps(c, states, labels, i);
    assert Next(c, states[i], labels[i], states[i + 1]);
    k := TakenBefore(c, states, labels, i, position);
    forall j | 0 <= j < i && states[j].batch == states[i].batch && Takes(states[j], labels[j], position)
      ensures j == k
    {
      if j < k {
        TakenAtMostOnce(c, states, labels, j, k, position);
      } else if k < j {
        TakenAtMostOnce(c, states, labels, k, j, position);
      }
    }
  }

  // ---------------------------------------------------------------- a call ends

  function Weight<T>(w: Worker<T>, batch: nat): nat {
    var behind := if w.seen == batch then 0 else 2;
    match w.pc
    case Asleep => 0
    case Top => 1 + behind
    case Taking => 2 + behind
    case Finishing(_) => 3 + behind
    case Hashing(_, _) => 4 + behind
  }

  function Total<T>(workers: seq<Worker<T>>, batch: nat): nat {
    if workers == [] then 0
    else Total(workers[..|workers| - 1], batch) + Weight(workers[|workers| - 1], batch)
  }

  lemma {:induction false} TotalUpdate<T>(workers: seq<Worker<T>>, batch: nat, w: nat, x: Worker<T>)
    requires w < |workers|
    ensures Total(workers[w := x], batch) == Total(workers, batch) - Weight(workers[w], batch) + Weight(x, batch)
  {
    var n := |workers| - 1;
    if w < n {
      TotalUpdate(workers[..n], batch, w, x);
      assert workers[w := x][..n] == workers[..n][w := x];
    } else {
      assert workers[w := x][..n] == workers[..n];
    }
  }

  /** Waking everyone costs one unit a worker, and a new batch two more. */
  lemma {:induction false} TotalAwake<T>(workers: seq<Worker<T>>, batch: nat, later: nat)
    requires forall w {:trigger workers[w]} :: 0 <= w < |workers| && workers[w].pc.Asleep? ==> workers[w].seen == batch
    ensures Total(Broadcast(workers), later) <= Total(workers, batch) + (if later == batch then 1 else 3) * |workers|
  {
    if workers != [] {
      var n := |workers| - 1;
      var rest := workers[..n];
      assert forall w {:trigger rest[w]} :: 0 <= w < n ==> rest[w] == workers[w];
      TotalAwake(rest, batch, later);
      assert Broadcast(workers)[..n] == Broadcast(rest);
      assert Weight(Wake(workers[n]), later) <= Weight(workers[n], batch) + if later == batch then 1 else 3;
    }
  }

  function CallerWeight<T, D>(c: Config<T, D>, s: State<T, D>): int {
    match s.caller
    case Idle => 0
    case Woken => 1
    case Sleeping => c.workers + 1
    case Filling(i) => |s.indexes| - i + 3 * |s.indexes| + 4 * c.workers + 2
  }

  function Measure<T, D>(c: Config<T, D>, s: State<T, D>): int {
    CallerWeight(c, s) + 3 * (s.count - s.next) + Total(s.workers, s.batch)
  }

  lemma FinishDecreases<T, D>(c: Config<T, D>, s: State<T, D>, w: nat)
    requires Inv(c, s) && WorkerCan(s, w) && s.workers[w].pc.Finishing?
    ensures Measure(c, WorkerStep(c, s, w)) < Measure(c, s)
  {
    assert WorkerOk(s, s.workers[w]);
    var moved := s.workers[w := s.workers[w].(pc := Taking)];
    TotalUpdate(s.workers, s.batch, w, moved[w]);
    TotalAwake(moved, s.batch, s.batch);
  }

  lemma WorkDecreases<T, D>(c: Config<T, D>, s: State<T, D>, w: nat)
    requires Inv(c, s) && WorkerCan(s, w)
    ensures Measure(c, WorkerStep(c, s, w)) < Measure(c, s)
  {
    if s.workers[w].pc.Finishing? {
      FinishDecreases(c, s, w);
    } else {
      assert WorkerOk(s, s.workers[w]);
      TotalUpdate(s.workers, s.batch, w, WorkerStep(c, s, w).workers[w]);
    }
  }

  lemma CallDecreases<T, D>(c: Config<T, D>, s: State<T, D>)
    requires Inv(c, s) && CallerCan(s)
    ensures Measure(c, CallerStep(s)) < Measure(c, s)
  {
    TotalAwake(s.workers, s.batch, s.batch + 1);
  }

  /** Between two calls only finitely many steps are possible: a call returns whatever the scheduling, and after it
      the workers go to sleep. */
  lemma {:induction false} CallEnds<T, D>(c: Config<T, D>, states: seq<State<T, D>>, labels: seq<Label>, i: nat, j: nat)
    requires IsRun(c, states, labels) && i <= j < |states|
    requires forall k {:trigger labels[k]} :: i <= k < j ==> !labels[k].Begin?
    ensures 0 <= Measure(c, states[j]) <= Measure(c, states[i]) - (j - i)
  {
    RunKeeps(c, states, labels, j);
    if i < j {
      CallEnds(c, states, labels, i, j - 1);
      RunKeeps(c, states, labels, j - 1);
      assert Next(c, states[j - 1], labels[j - 1], states[j]);
      match labels[j - 1]
      case Call => CallDecreases(c, states[j - 1]);
      case Work(w) => WorkDecreases(c, states[j - 1], w);
    }
  }
}
