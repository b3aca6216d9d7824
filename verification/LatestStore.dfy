/** Which store a hit gives when operations interleave: exactly when the latest one, and how an older one comes back. */
module LatestStore {
  import opened Bytes
  import opened ActionCache
  import opened LastEntry
  import L = L1Table
  import A = Archive
  import D = CacheDirectory

  /** A store of `d` is under way: its archive is written, its entry not yet made. */
  predicate Stores(o: Operation, d: Digest) {
    match o
    case Written(digest) => digest == d
    case ReadAgain(digest, _) => digest == d
    case Appended(digest, _, _, _, restored) => digest == d && restored.None?
    case _ => false
  }

  /** A restore of `d` has read the archive and is about to enter it again. */
  predicate Reenters(o: Operation, d: Digest) {
    match o
    case Reappending(digest, _, _, _) => digest == d
    case Appended(digest, _, _, _, restored) => digest == d && restored.Some?
    case _ => false
  }

  ghost predicate Quiet(s: State, d: Digest) {
    forall i {:trigger s.operations[i]} :: 0 <= i < |s.operations| ==> !Stores(s.operations[i], d)
  }

  /** While a store of `d` is under way there is no other, and no restore of `d` is about to enter it again. */
  ghost predicate Alone(s: State, d: Digest) {
    forall i, j {:trigger s.operations[i], s.operations[j]} ::
      0 <= i < |s.operations| && 0 <= j < |s.operations| && i != j && Stores(s.operations[i], d) ==>
        !Stores(s.operations[j], d) && !Reenters(s.operations[j], d)
  }

  // ---------------------------------------------------------------- what every step keeps

  ghost predicate LatestRecord(s: State, d: Digest, offset: nat) {
    d in s.latest && D.RecordOf(s.second, offset, d, s.latest[d])
  }

  ghost predicate LatestArchive(s: State, d: Digest, data: seq<byte>) {
    d in s.latest && Holds(d, s.latest[d], data)
  }

  ghost predicate EntryCurrent(s: State, d: Digest, e: L.Entry) {
    e.live && e.hash == d && e.offset != 0 ==> LatestRecord(s, d, e.offset - L.OFFSET_BIAS)
  }

  ghost predicate EntriesCurrent(s: State, d: Digest) {
    forall k {:trigger s.table[k]} :: 0 <= k < L.COUNT ==> EntryCurrent(s, d, s.table[k])
  }

  ghost predicate OperationCurrent(s: State, d: Digest, o: Operation) {
    match o
    case Written(digest) => digest == d ==> d in s.latest
    case ReadAgain(digest, data) => digest == d ==> LatestArchive(s, d, data)
    case Appended(digest, _, offset, _, _) => digest == d ==> LatestRecord(s, d, offset)
    case Reappending(digest, data, _, _) => digest == d ==> LatestArchive(s, d, data)
    case _ => true
  }

  /** What is on its way into the table is the latest store of `d`; so is what is there when no store is under way. */
  ghost predicate Coherent(s: State, d: Digest) {
    && TableOk(s.table, d)
    && (d in s.archives <==> d in s.latest) && (d in s.archives ==> LatestArchive(s, d, s.archives[d]))
    && (forall i {:trigger s.operations[i]} :: 0 <= i < |s.operations| ==> OperationCurrent(s, d, s.operations[i]))
    && (Quiet(s, d) ==> EntriesCurrent(s, d))
  }

  /** For `d` nothing has been stored, and the second level has at most grown. */
  ghost predicate Same(s: State, t: State, d: Digest) {
    && (d in s.latest <==> d in t.latest) && (d in s.latest ==> t.latest[d] == s.latest[d])
    && (d in s.archives <==> d in t.archives) && (d in s.archives ==> t.archives[d] == s.archives[d])
    && |s.second| <= |t.second| && t.second == s.second + t.second[|s.second|..]
  }

  lemma RecordStaysLatest(s: State, t: State, d: Digest, offset: nat)
    requires Same(s, t, d) && LatestRecord(s, d, offset)
    ensures LatestRecord(t, d, offset)
  {
    D.RecordStays(s.second, t.second[|s.second|..], offset, d, s.latest[d]);
  }

  lemma OperationStaysCurrent(s: State, t: State, d: Digest, o: Operation)
    requires Same(s, t, d) && OperationCurrent(s, d, o)
    ensures OperationCurrent(t, d, o)
  {
    match o
    case Appended(digest, _, offset, _, _) =>
      if digest == d {
        RecordStaysLatest(s, t, d, offset);
      }
    case _ =>
  }

  lemma EntryStaysCurrent(s: State, t: State, d: Digest, e: L.Entry)
    requires Same(s, t, d) && EntryCurrent(s, d, e)
    ensures EntryCurrent(t, d, e)
  {
    if e.live && e.hash == d && e.offset != 0 {
      RecordStaysLatest(s, t, d, e.offset - L.OFFSET_BIAS);
    }
  }

  /** Only operation `i` differs. */
  ghost predicate Moves(s: State, t: State, i: nat) {
    && i < |s.operations| == |t.operations|
    && forall j {:trigger t.operations[j]} :: 0 <= j < |s.operations| && j != i ==> t.operations[j] == s.operations[j]
  }

  /** A step that stores nothing under `d` and makes no entry keeps what is on its way. */
  lemma QuietMoveKeeps(s: State, t: State, d: Digest, i: nat)
    requires Coherent(s, d) && Same(s, t, d) && Moves(s, t, i) && t.table == s.table
    requires OperationCurrent(t, d, t.operations[i])
    requires Stores(s.operations[i], d) ==> Stores(t.operations[i], d)
    ensures Coherent(t, d)
  {
    forall j | 0 <= j < |t.operations|
      ensures OperationCurrent(t, d, t.operations[j])
    {
      if j != i {
        OperationStaysCurrent(s, t, d, s.operations[j]);
      }
    }
    if Quiet(t, d) {
      forall j | 0 <= j < |s.operations|
        ensures !Stores(s.operations[j], d)
      {
        assert !Stores(t.operations[j], d);
      }
      forall k | 0 <= k < L.COUNT
        ensures EntryCurrent(t, d, t.table[k])
      {
        EntryStaysCurrent(s, t, d, s.table[k]);
      }
    }
  }

  /** An entry of `d` takes the place of any other. */
  lemma EnteredIsCurrent(s: State, d: Digest, size: nat, offset: nat)
    requires TableOk(s.table, d) && (offset != 0 ==> LatestRecord(s, d, offset))
    ensures EntriesCurrent(Enter(s, d, size, offset), d)
  {
    var t := Enter(s, d, size, offset);
    forall k | 0 <= k < L.COUNT
      ensures EntryCurrent(t, d, t.table[k])
    {
      if t.table[k] == s.table[k] && s.table[k].live && s.table[k].hash == d {
        assert Filed(s.table[k]);
        D.EnteredAlone(s.table, d, k);
      }
    }
  }

  lemma OtherEnteredStays(s: State, d: Digest, digest: Digest, size: nat, offset: nat)
    requires EntriesCurrent(s, d) && digest != d
    ensures EntriesCurrent(Enter(s, digest, size, offset), d)
  {
    var t := Enter(s, digest, size, offset);
    forall k | 0 <= k < L.COUNT
      ensures EntryCurrent(t, d, t.table[k])
    {
      assert EntryCurrent(s, d, s.table[k]);
    }
  }

  /** An entry made by operation `i`, which then goes on to `o`. */
  lemma EnterKeepsCoherent(s: State, d: Digest, i: nat, o: Operation, digest: Digest, size: nat, offset: nat)
    requires Coherent(s, d) && i < |s.operations|
    requires !L.Hides(s.table, L.KeyOf(digest), L.KeyOf(d))
    requires digest == d && offset != 0 ==> LatestRecord(s, d, offset)
    requires Stores(s.operations[i], d) ==> digest == d
    requires !Stores(o, d) && OperationCurrent(s, d, o)
    ensures Coherent(Become(Enter(s, digest, size, offset), i, o), d)
  {
    var e := Enter(s, digest, size, offset);
    var t := Become(e, i, o);
    EnteredTableOk(s.table, d, digest, size, offset);
    assert t.second == s.second + t.second[|s.second|..];
    forall j | 0 <= j < |t.operations|
      ensures OperationCurrent(t, d, t.operations[j])
    {
      OperationStaysCurrent(s, t, d, if j == i then o else s.operations[j]);
    }
    if digest == d {
      EnteredIsCurrent(s, d, size, offset);
      assert EntriesCurrent(e, d);
    } else if Quiet(t, d) {
      forall j | 0 <= j < |s.operations|
        ensures !Stores(s.operations[j], d)
      {
        assert j != i ==> !Stores(t.operations[j], d);
      }
      OtherEnteredStays(s, d, digest, size, offset);
      assert EntriesCurrent(e, d);
    }
    if Quiet(t, d) {
      forall k | 0 <= k < L.COUNT
        ensures EntryCurrent(t, d, t.table[k])
      {
        assert EntryCurrent(e, d, e.table[k]);
      }
    }
  }

  /** A store of `d` begins: it is alone, so nothing of an earlier one is on its way. */
  lemma StoringKeepsCoherent(s: State, d: Digest, i: nat)
    requires Coherent(s, d) && i < |s.operations| && s.operations[i].Storing?
    requires Alone(Advance(s, i), d)
    ensures Coherent(Advance(s, i), d)
  {
    var t := Advance(s, i);
    if s.operations[i].digest == d {
      assert Stores(t.operations[i], d);
      forall j | 0 <= j < |t.operations|
        ensures OperationCurrent(t, d, t.operations[j])
      {
        assert j != i ==> !Stores(t.operations[j], d) && !Reenters(t.operations[j], d);
      }
    } else {
      QuietMoveKeeps(s, t, d, i);
    }
  }

  lemma AppendKeepsCoherent(s: State, d: Digest, i: nat)
    requires Coherent(s, d) && i < |s.operations| && (s.operations[i].ReadAgain? || s.operations[i].Reappending?)
    ensures Coherent(Advance(s, i), d)
  {
    var o, t := s.operations[i], Advance(s, i);
    assert t.second == s.second + t.second[|s.second|..];
    if o.digest == d {
      D.AppendedRecord(s.second, o.data, d, s.latest[d]);
    }
    QuietMoveKeeps(s, t, d, i);
  }

  lemma ReadingKeepsCoherent(s: State, d: Digest, i: nat)
    requires Coherent(s, d) && i < |s.operations|
    requires var o := s.operations[i]; o.Written? || o.Restoring? || o.FromSecond? || o.FromArchive?
    ensures Coherent(Advance(s, i), d)
  {
    assert OperationCurrent(s, d, s.operations[i]);
    QuietMoveKeeps(s, Advance(s, i), d, i);
  }

  lemma EnteringKeepsCoherent(s: State, d: Digest, i: nat)
    requires Coherent(s, d) && i < |s.operations| && (s.operations[i].Appended? || s.operations[i].Preloading?)
    requires Spares(s.table, s.operations[i], d)
    ensures Coherent(Advance(s, i), d)
  {
    assert OperationCurrent(s, d, s.operations[i]);
    match s.operations[i]
    case Appended(digest, size, offset, before, wrote) =>
      EnterKeepsCoherent(s, d, i, if wrote.Some? then Hit(digest, before, wrote.value) else Stored, digest, size,
                         offset);
    case Preloading(listing) =>
      if listing == [] {
        QuietMoveKeeps(s, Advance(s, i), d, i);
      } else {
        EnterKeepsCoherent(s, d, i, Preloading(listing[1..]), listing[0], 0, 0);
      }
  }

  lemma AdvanceKeepsCoherent(s: State, d: Digest, i: nat)
    requires Coherent(s, d) && i < |s.operations| && Alone(Advance(s, i), d)
    requires Spares(s.table, s.operations[i], d)
    ensures Coherent(Advance(s, i), d)
  {
    match s.operations[i]
    case Storing(_, _) => StoringKeepsCoherent(s, d, i);
    case Written(_) => ReadingKeepsCoherent(s, d, i);
    case ReadAgain(_, _) => AppendKeepsCoherent(s, d, i);
    case Appended(_, _, _, _, _) => EnteringKeepsCoherent(s, d, i);
    case Restoring(_) => ReadingKeepsCoherent(s, d, i);
    case FromSecond(_, _) => ReadingKeepsCoherent(s, d, i);
    case FromArchive(_, _) => ReadingKeepsCoherent(s, d, i);
    case Reappending(_, _, _, _) => AppendKeepsCoherent(s, d, i);
    case Preloading(_) => EnteringKeepsCoherent(s, d, i);
    case _ =>
  }

  lemma SpawnKeepsCoherent(s: State, d: Digest, o: Operation)
    requires Coherent(s, d) && Starts(o)
    ensures Coherent(Spawn(s, o), d)
  {
    var t := Spawn(s, o);
    forall j | 0 <= j < |t.operations|
      ensures OperationCurrent(t, d, t.operations[j])
    {
      if j < |s.operations| {
        OperationStaysCurrent(s, t, d, s.operations[j]);
      }
    }
    if Quiet(t, d) {
      forall j | 0 <= j < |s.operations|
        ensures !Stores(s.operations[j], d)
      {
        assert !Stores(t.operations[j], d);
      }
      forall k | 0 <= k < L.COUNT
        ensures EntryCurrent(t, d, t.table[k])
      {
        EntryStaysCurrent(s, t, d, s.table[k]);
      }
    }
  }

  lemma StepKeepsCoherent(s: State, t: State, d: Digest)
    requires Coherent(s, d) && IsStep(s, t) && Alone(t, d) && StepSpares(s, t, d)
    ensures Coherent(t, d)
  {
    if o :| Starts(o) && t == Spawn(s, o) {
      SpawnKeepsCoherent(s, d, o);
    } else if i :| 0 <= i < |s.operations| && t == Advance(s, i) {
      AdvanceKeepsCoherent(s, d, i);
    } else {
      L.EmptyIsSound(t.table);
    }
  }

  /** Stores of `d` do not overlap with each other or with a restore entering `d` again; no entry hides that of `d`.
      Everything else is free. */
  ghost predicate Orderly(run: seq<State>, d: Digest) {
    && (forall k {:trigger run[k]} :: 0 <= k < |run| ==> Alone(run[k], d))
    && NeverHidden(run, d, |run|)
  }

  lemma {:induction false} RunKeepsCoherent(run: seq<State>, d: Digest, n: nat)
    requires IsRun(run) && Orderly(run, d) && n < |run|
    ensures Coherent(run[n], d)
  {
    if n == 0 {
      L.EmptyIsSound(run[0].table);
    } else {
      RunKeepsCoherent(run, d, n - 1);
      RunStep(run, n - 1);
      assert SparedAt(run, d, n - 1);
      StepKeepsCoherent(run[n - 1], run[n], d);
    }
  }

  // ---------------------------------------------------------------- no store in between

  /** While operation `i` has read and not yet entered what it read, no store of `d` writes its archive. */
  ghost predicate Undisturbed(run: seq<State>, d: Digest, r: nat, e: nat) {
    forall k {:trigger run[k]} :: r < k <= e && k < |run| ==> Alone(run[k], d)
  }

  lemma PastBack(s: State, t: State, i: nat, d: Digest, outputs: Outputs)
    requires IsStep(s, t) && i < |s.operations| && i < |t.operations|
    requires Carries(s.second, s.operations[i], d, outputs) && IsPast(t.operations[i], d)
    ensures IsPast(s.operations[i], d)
  {
    PastStep(s, t, i, d);
  }

  lemma PastBefore(run: seq<State>, d: Digest, i: nat, outputs: Outputs, b: nat, k: nat)
    requires IsRun(run) && b <= k && k + 1 < |run| && Stays(run, i, b, k)
    requires i < |run[b].operations| && Carries(run[b].second, run[b].operations[i], d, outputs)
    requires i < |run[k + 1].operations| && IsPast(run[k + 1].operations[i], d)
    ensures i < |run[k].operations| && IsPast(run[k].operations[i], d)
  {
    CarriesOn(run, i, d, outputs, b, k);
    RunStep(run, k);
    PastBack(run[k], run[k + 1], i, d, outputs);
  }

  lemma {:induction false} PastBetween(run: seq<State>, d: Digest, i: nat, outputs: Outputs, b: nat, e: nat, k: nat)
    requires IsRun(run) && b <= k <= e < |run| && Stays(run, i, b, e)
    requires i < |run[b].operations| && Carries(run[b].second, run[b].operations[i], d, outputs)
    requires i < |run[e].operations| && IsPast(run[e].operations[i], d)
    ensures i < |run[k].operations| && IsPast(run[k].operations[i], d)
    decreases e - k
  {
    if k < e {
      PastBetween(run, d, i, outputs, b, e, k + 1);
      PastBefore(run, d, i, outputs, b, k);
    }
  }

  /** From its reading to its entry the operation is under way. */
  lemma ReadingIsPast(run: seq<State>, d: Digest, i: nat, r: nat, e: nat, k: nat)
    requires IsRun(run) && IsReading(run, d, i, r, e) && r < k <= e
    requires i < |run[e].operations| && IsPast(run[e].operations[i], d)
    ensures i < |run[k].operations| && IsPast(run[k].operations[i], d)
  {
    RunArchives(run, r);
    ReadIsCarried(run[r], run[r + 1], i, d);
    PastBetween(run, d, i, run[r].latest[d], r + 1, e, k);
  }

  /** A step that writes no archive of `d` leaves the latest store of it. */
  lemma SameLatest(s: State, t: State, j: nat, d: Digest)
    requires j < |s.operations| && t == Advance(s, j) && d in s.latest
    requires !(s.operations[j].Storing? && s.operations[j].digest == d)
    ensures d in t.latest && t.latest[d] == s.latest[d]
  {
  }

  lemma PastIsUnderWay(o: Operation, d: Digest)
    requires IsPast(o, d)
    ensures Stores(o, d) || Reenters(o, d)
  {
  }

  lemma UndisturbedStep(s: State, t: State, i: nat, d: Digest)
    requires IsStep(s, t) && d in s.latest && i < |s.operations| && IsPast(s.operations[i], d)
    requires i < |t.operations| && IsPast(t.operations[i], d) && Alone(t, d)
    ensures d in t.latest && t.latest[d] == s.latest[d]
  {
    var j := MoverOf(s, t);
    if j < |s.operations| {
      if s.operations[j].Storing? && s.operations[j].digest == d {
        assert Stores(t.operations[j], d);
        PastIsUnderWay(t.operations[i], d);
        assert false;
      } else {
        SameLatest(s, t, j, d);
      }
    }
  }

  /** What the operation carries stays the latest store until it enters it. */
  lemma {:induction false} CarriedIsLatest(run: seq<State>, d: Digest, i: nat, r: nat, e: nat, k: nat)
    requires IsRun(run) && IsReading(run, d, i, r, e) && Undisturbed(run, d, r, e) && r <= k <= e
    requires i < |run[e].operations| && IsPast(run[e].operations[i], d)
    ensures d in run[r].latest && d in run[k].latest && run[k].latest[d] == run[r].latest[d]
    decreases k
  {
    RunArchives(run, r);
    if k == r + 1 {
      SameLatest(run[r], run[k], i, d);
    } else if k > r {
      CarriedIsLatest(run, d, i, r, e, k - 1);
      ReadingIsPast(run, d, i, r, e, k - 1);
      ReadingIsPast(run, d, i, r, e, k);
      RunStep(run, k - 1);
      UndisturbedStep(run[k - 1], run[k], i, d);
    }
  }

  /** The latest store is `outputs`, or a store is under way. */
  ghost predicate LatestOrBusy(s: State, d: Digest, outputs: Outputs) {
    d in s.latest && (s.latest[d] == outputs || !Quiet(s, d))
  }

  lemma StoreGoesOn(s: State, j: nat, d: Digest)
    requires j < |s.operations| && Stores(s.operations[j], d) && !EntersNow(s.operations[j], d) && d in s.archives
    ensures Stores(Advance(s, j).operations[j], d)
  {
  }

  lemma BusyAdvance(s: State, j: nat, i: nat, d: Digest)
    requires j < |s.operations| && !EntersNow(s.operations[j], d) && d in s.archives
    requires i < |s.operations| && Stores(s.operations[i], d)
    ensures !Quiet(Advance(s, j), d)
  {
    CountStays(s, j);
    if i == j {
      StoreGoesOn(s, j, d);
    } else {
      OthersStay(s, j, i);
    }
    assert Stores(Advance(s, j).operations[i], d);
  }

  lemma LatestOrBusyAdvance(s: State, j: nat, d: Digest, outputs: Outputs)
    requires j < |s.operations| && !EntersNow(s.operations[j], d) && LatestOrBusy(s, d, outputs) && d in s.archives
    ensures LatestOrBusy(Advance(s, j), d, outputs)
  {
    var t := Advance(s, j);
    if s.operations[j].Storing? && s.operations[j].digest == d {
      assert Stores(t.operations[j], d);
    } else {
      SameLatest(s, t, j, d);
      if i: nat :| i < |s.operations| && Stores(s.operations[i], d) {
        BusyAdvance(s, j, i, d);
      }
    }
  }

  lemma SpawnedLatestOrBusy(s: State, o: Operation, d: Digest, outputs: Outputs)
    requires LatestOrBusy(s, d, outputs)
    ensures LatestOrBusy(Spawn(s, o), d, outputs)
  {
    if i: nat :| i < |s.operations| && Stores(s.operations[i], d) {
      assert Stores(Spawn(s, o).operations[i], d);
    }
  }

  lemma LatestOrBusyStep(s: State, t: State, d: Digest, outputs: Outputs)
    requires IsStep(s, t) && !SomeoneEnters(s, t, d) && HasEntry(t.table, d)
    requires LatestOrBusy(s, d, outputs) && d in s.archives
    ensures LatestOrBusy(t, d, outputs)
  {
    var j := MoverOf(s, t);
    if j < |s.operations| {
      assert !Enters(s, t, j, d);
      LatestOrBusyAdvance(s, j, d, outputs);
    } else if t == Restart(s) {
      assert false;
    } else {
      var o :| Starts(o) && t == Spawn(s, o);
      SpawnedLatestOrBusy(s, o, d, outputs);
    }
  }

  /** An entry found later was there all the time. */
  lemma {:induction false} HadEntry(run: seq<State>, d: Digest, k: nat, l: nat)
    requires IsRun(run) && k <= l < |run| && NoneEnters(run, d, k, l) && HasEntry(run[l].table, d)
    ensures HasEntry(run[k].table, d)
    decreases l - k
  {
    if k < l {
      HadEntry(run, d, k + 1, l);
      RunStep(run, k);
      assert !StepEnters(run, d, k);
      HadBefore(run[k], run[k + 1], d);
    }
  }

  lemma {:induction false} LatestOrBusySince(run: seq<State>, d: Digest, outputs: Outputs, b: nat, n: nat, l: nat)
    requires IsRun(run) && b <= n <= l < |run| && NoneEnters(run, d, b, l) && HasEntry(run[l].table, d)
    requires LatestOrBusy(run[b], d, outputs)
    ensures LatestOrBusy(run[n], d, outputs)
    decreases n
  {
    if b < n {
      LatestOrBusySince(run, d, outputs, b, n - 1, l);
      HadEntry(run, d, n, l);
      RunArchives(run, n - 1);
      RunStep(run, n - 1);
      assert !StepEnters(run, d, n - 1);
      LatestOrBusyStep(run[n - 1], run[n], d, outputs);
    }
  }

  /** The step that makes the entry leaves the latest store. */
  lemma EnteringKeepsLatest(run: seq<State>, d: Digest, l: nat, e: nat, i: nat)
    requires IsRun(run) && IsLastEntry(run, d, l, e, i) && d in run[e].latest
    ensures d in run[e + 1].latest && run[e + 1].latest[d] == run[e].latest[d]
  {
    SameLatest(run[e], run[e + 1], i, d);
  }

  /** If no store of `d` is under way at `from`, before the look-up, and none disturbed the operation of the last entry,
      then what that operation had read was the latest store at `from` or later. */
  lemma ReadingIsLatest(run: seq<State>, d: Digest, l: nat, e: nat, i: nat, r: nat, from: nat) returns (k: nat)
    requires IsRun(run) && IsLastEntry(run, d, l, e, i) && run[e].operations[i].Appended? && IsReading(run, d, i, r, e)
    requires Undisturbed(run, d, r, e) && from <= l && Quiet(run[from], d) && HasEntry(run[l].table, d)
    ensures from <= k <= l && d in run[r].latest && d in run[k].latest && run[k].latest[d] == run[r].latest[d]
  {
    if from <= r {
      k := r;
      RunArchives(run, r);
    } else {
      k := from;
      if from <= e {
        CarriedIsLatest(run, d, i, r, e, from);
      } else {
        CarriedIsLatest(run, d, i, r, e, e);
        EnteringKeepsLatest(run, d, l, e, i);
        LatestOrBusySince(run, d, run[r].latest[d], e + 1, from, l);
      }
    }
  }

  // ---------------------------------------------------------------- one restore

  lemma LookUpIsLater(run: seq<State>, d: Digest, q: nat, l: nat, from: nat)
    requires IsLookUp(run, d, q, l) && from < |run| && Quiet(run[from], d) && |run[from].operations| <= q
    ensures from <= l
  {
    if l + 1 <= from {
      assert false;
    }
  }

  lemma FoundIsThere(run: seq<State>, d: Digest, q: nat, l: nat)
    requires IsRun(run) && IsLookUp(run, d, q, l) && run[|run| - 1].operations[q].Hit?
    ensures HasEntry(run[l].table, d)
  {
    if !HasEntry(run[l].table, d) {
      assert OnlyAt(run[l].table, d, 0);
      NotFoundMisses(run[l], q, d);
      MissStays(run, q, l + 1, |run| - 1);
    }
  }

  lemma NotFoundMisses(s: State, q: nat, d: Digest)
    requires q < |s.operations| && s.operations[q] == Restoring(d) && !HasEntry(s.table, d)
    ensures Advance(s, q).operations[q].Miss?
  {
    if L.Load(s.table, L.KeyOf(d)).Some? {
      var k := L.LoadFinds(s.table, L.KeyOf(d), 0);
      LoadedIsLive(s.table, L.KeyOf(d), 0);
      assert !IsEntryOf(s.table[k], d);
    }
  }

  lemma {:induction false} MissStays(run: seq<State>, q: nat, from: nat, n: nat)
    requires IsRun(run) && from <= n < |run| && Stays(run, q, from, n) && q < |run[from].operations|
    requires run[from].operations[q].Miss?
    ensures q < |run[n].operations| && run[n].operations[q].Miss?
  {
    if from < n {
      MissStays(run, q, from, n - 1);
      RunStep(run, n - 1);
      OwnOrOther(run[n - 1], run[n], q);
    }
  }

  /** A restore that begins when no store of `d` is under way, and hits, has written the outputs of a store that was the
      latest under `d` at some moment since, if the operation that made the last entry before its look-up was not
      disturbed. What happened before that operation read the archive does not matter. */
  lemma UndisturbedHit(run: seq<State>, d: Digest, from: nat, q: nat, l: nat, e: nat, i: nat, r: nat) returns (k: nat)
    requires IsRun(run) && IsLookUp(run, d, q, l) && IsLastEntry(run, d, l, e, i) && Sole(run[e].table, d)
    requires from <= l && Quiet(run[from], d) && run[|run| - 1].operations[q].Hit?
    requires OffsetOf(run[e].operations[i]) != 0 ==> IsReading(run, d, i, r, e) && Undisturbed(run, d, r, e)
    ensures from <= k < |run| && d in run[k].latest
    ensures run[|run| - 1].operations[q].wrote == A.Shown(d, run[k].latest[d])
  {
    var n := |run| - 1;
    var h := run[n].operations[q];
    var later := true;
    if OffsetOf(run[e].operations[i]) == 0 {
      ArchiveDecides(run, d, l, e, i, q);
    } else {
      ReadingDecides(run, d, l, e, i, r, q);
      if h.before == [] && h.wrote == A.Shown(d, run[r].latest[d]) {
        FoundIsThere(run, d, q, l);
        k := ReadingIsLatest(run, d, l, e, i, r, from);
        later := false;
      }
    }
    if later {
      k :| l < k < n && d in run[k].latest && h.wrote == A.Shown(d, run[k].latest[d]);
    }
  }

  /** So in an orderly run, for a restore of `d` that begins when no store of `d` is under way. */
  lemma HitIsLatestSince(run: seq<State>, d: Digest, from: nat, i: nat) returns (k: nat)
    requires IsRun(run) && Orderly(run, d) && from < |run|
    requires Quiet(run[from], d) && |run[from].operations| <= i
    requires i < |run[|run| - 1].operations| && run[|run| - 1].operations[i].Hit?
    requires run[|run| - 1].operations[i].digest == d
    ensures from <= k < |run| && d in run[k].latest
    ensures run[|run| - 1].operations[i].wrote == A.Shown(d, run[k].latest[d])
  {
    var l, e, j, r := HitHasOrigin(run, i);
    LookUpIsLater(run, d, i, l, from);
    UnhiddenIsSole(run, d, e);
    k := UndisturbedHit(run, d, from, i, l, e, j, r);
  }

  /** If no store of `d` has been made meanwhile, these are the outputs of the last store of `d`. */
  lemma HitIsLatest(run: seq<State>, d: Digest, from: nat, i: nat)
    requires IsRun(run) && Orderly(run, d) && from < |run|
    requires Quiet(run[from], d) && |run[from].operations| <= i
    requires i < |run[|run| - 1].operations| && run[|run| - 1].operations[i].Hit?
    requires run[|run| - 1].operations[i].digest == d
    requires forall k {:trigger run[k]} :: from <= k < |run| && d in run[k].latest ==>
      d in run[from].latest && run[k].latest[d] == run[from].latest[d]
    ensures d in run[from].latest
    ensures run[|run| - 1].operations[i].wrote == A.Shown(d, run[from].latest[d])
    ensures A.Fits(run[from].latest[d]) ==> run[|run| - 1].operations[i].wrote == run[from].latest[d]
  {
    var k := HitIsLatestSince(run, d, from, i);
    A.RoundTripIffFits(d, run[from].latest[d]);
  }
}
