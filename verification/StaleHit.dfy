/** Runs in which a restore, begun when nothing else is under way, writes outputs that are not the latest: an older
    restore, or an older store, enters the archive it had read before the latest store. */
module StaleHit {
  import opened Wrappers
  import opened ActionCache
  import opened LatestStore
  import L = L1Table
  import A = Archive
  import D = CacheDirectory

  /** No two stores of `d` are under way at once. */
  ghost predicate Apart(s: State, d: Digest) {
    forall i, j {:trigger s.operations[i], s.operations[j]} ::
      0 <= i < |s.operations| && 0 <= j < |s.operations| && i != j && Stores(s.operations[i], d) ==>
        !Stores(s.operations[j], d)
  }

  /** Nothing is under way. */
  ghost predicate Idle(s: State) {
    forall i {:trigger s.operations[i]} :: 0 <= i < |s.operations| ==>
      s.operations[i].Stored? || s.operations[i].Hit? || s.operations[i].Miss?
  }

  ghost predicate IsRunApart(run: seq<State>, d: Digest) {
    IsRun(run) && forall k {:trigger run[k]} :: 0 <= k < |run| ==> Apart(run[k], d)
  }

  lemma Extended(run: seq<State>, t: State, d: Digest)
    requires IsRunApart(run, d) && IsStep(run[|run| - 1], t) && Apart(t, d)
    ensures IsRunApart(run + [t], d)
  {
    var r := run + [t];
    forall i | 0 <= i < |r| - 1
      ensures StepsAt(r, i)
    {
      if i < |run| - 1 {
        assert StepsAt(run, i);
      }
    }
  }

  lemma Advanced(run: seq<State>, i: nat, d: Digest)
    requires IsRunApart(run, d) && i < |run[|run| - 1].operations|
    requires Apart(Advance(run[|run| - 1], i), d)
    ensures IsRunApart(run + [Advance(run[|run| - 1], i)], d)
  {
    Extended(run, Advance(run[|run| - 1], i), d);
  }

  lemma Spawned(run: seq<State>, o: Operation, d: Digest)
    requires IsRunApart(run, d) && Starts(o)
    ensures IsRunApart(run + [Spawn(run[|run| - 1], o)], d)
  {
    var s := run[|run| - 1];
    assert Apart(s, d);
    Extended(run, Spawn(s, o), d);
  }

  /** The state after a store has read its archive again. */
  function HalfStored(s: State, d: Digest, outputs: Outputs): State {
    var data := A.Encode(d, outputs);
    s.(archives := s.archives[d := data], operations := s.operations + [ReadAgain(d, data)],
       history := s.history + {(d, outputs)}, latest := s.latest[d := outputs])
  }

  lemma StoreBegins(run: seq<State>, s: State, d: Digest, outputs: Outputs, apart: Digest) returns (r: seq<State>)
    requires IsRunApart(run, apart) && s == run[|run| - 1] && (apart == d ==> Quiet(s, d))
    ensures IsRunApart(r, apart) && |r| == |run| + 3 && r[..|run|] == run && r[|r| - 1] == HalfStored(s, d, outputs)
  {
    assert Apart(s, apart);
    var n := |s.operations|;
    var s1 := Spawn(s, Storing(d, outputs));
    Spawned(run, Storing(d, outputs), apart);
    var s2 := Advance(s1, n);
    assert s2.operations == s.operations + [Written(d)];
    Advanced(run + [s1], n, apart);
    var s3 := Advance(s2, n);
    assert s3.operations == s.operations + [ReadAgain(d, A.Encode(d, outputs))];
    Advanced(run + [s1] + [s2], n, apart);
    r := run + [s1] + [s2] + [s3];
  }

  /** The state after store `i` has entered the archive it read. */
  function Entered(s: State, i: nat, d: Digest, outputs: Outputs): State
    requires i < |s.operations|
  {
    var data := A.Encode(d, outputs);
    s.(table := L.Store(s.table, L.KeyOf(d), d, 0, |s.second|), second := s.second + data,
       operations := s.operations[i := Operation.Stored])
  }

  lemma StoreEnds(run: seq<State>, s: State, i: nat, d: Digest, outputs: Outputs, apart: Digest)
    returns (r: seq<State>)
    requires IsRunApart(run, apart) && s == run[|run| - 1] && i < |s.operations|
    requires s.operations[i] == ReadAgain(d, A.Encode(d, outputs))
    ensures IsRunApart(r, apart) && |r| == |run| + 2 && r[..|run|] == run && r[|r| - 1] == Entered(s, i, d, outputs)
  {
    assert Apart(s, apart);
    var s1 := Advance(s, i);
    assert s1.operations == s.operations[i := Appended(d, 0, |s.second|, [], None)];
    Advanced(run, i, apart);
    var s2 := Advance(s1, i);
    assert s2.operations == s.operations[i := Operation.Stored];
    Advanced(run + [s1], i, apart);
    r := run + [s1] + [s2];
  }

  /** The state after a store with nothing between its pieces. */
  function Stored(s: State, d: Digest, outputs: Outputs): State {
    var data := A.Encode(d, outputs);
    State(L.Store(s.table, L.KeyOf(d), d, 0, |s.second|), s.second + data, s.archives[d := data],
          s.operations + [Operation.Stored], s.history + {(d, outputs)}, s.latest[d := outputs])
  }

  lemma StoreRuns(run: seq<State>, s: State, d: Digest, outputs: Outputs, apart: Digest) returns (r: seq<State>)
    requires IsRunApart(run, apart) && s == run[|run| - 1] && (apart == d ==> Quiet(s, d))
    ensures IsRunApart(r, apart) && |r| == |run| + 5 && r[..|run|] == run && r[|r| - 1] == Stored(s, d, outputs)
  {
    r := StoreBegins(run, s, d, outputs, apart);
    var begun := r;
    var half := HalfStored(s, d, outputs);
    r := StoreEnds(r, half, |s.operations|, d, outputs, apart);
    assert half.operations[|s.operations| := Operation.Stored] == s.operations + [Operation.Stored];
    assert r[..|run|] == r[..|begun|][..|run|];
  }

  function With(s: State, o: Operation): State {
    s.(operations := s.operations + [o])
  }

  lemma NextPiece(s: State, o: Operation, next: Operation)
    requires Advance(With(s, o), |s.operations|) == Become(With(s, o), |s.operations|, next)
    ensures Advance(With(s, o), |s.operations|) == With(s, next)
  {
    assert (s.operations + [o])[|s.operations| := next] == s.operations + [next];
  }

  /** A restore that goes through two states and leaves nothing but itself changed. */
  lemma ThreeSteps(run: seq<State>, s: State, d: Digest, o1: Operation, o2: Operation, o3: Operation)
    requires IsRunApart(run, d) && s == run[|run| - 1] && Starts(o1)
    requires !Stores(o1, d) && !Stores(o2, d) && !Stores(o3, d)
    requires Advance(With(s, o1), |s.operations|) == With(s, o2)
    requires Advance(With(s, o2), |s.operations|) == With(s, o3)
    ensures IsRunApart(run + [With(s, o1)] + [With(s, o2)] + [With(s, o3)], d)
  {
    assert Apart(s, d);
    assert With(s, o1) == Spawn(s, o1);
    Extended(run, With(s, o1), d);
    Advanced(run + [With(s, o1)], |s.operations|, d);
    Advanced(run + [With(s, o1)] + [With(s, o2)], |s.operations|, d);
  }

  /** The state after a restore has read the archive. */
  function ArchiveRead(s: State, d: Digest, outputs: Outputs): State {
    With(s, Reappending(d, A.Encode(d, outputs), [], outputs))
  }

  lemma RestoreReads(run: seq<State>, s: State, d: Digest, outputs: Outputs) returns (r: seq<State>)
    requires IsRunApart(run, d) && s == run[|run| - 1] && A.Fits(outputs)
    requires d in s.archives && s.archives[d] == A.Encode(d, outputs)
    requires var e := L.Load(s.table, L.KeyOf(d)); e.Some? && e.value.hash == d && e.value.offset == 0
    ensures IsRunApart(r, d) && |r| == |run| + 3 && r[..|run|] == run && r[|r| - 1] == ArchiveRead(s, d, outputs)
  {
    var o := Reappending(d, A.Encode(d, outputs), [], outputs);
    A.RoundTripIffFits(d, outputs);
    NextPiece(s, Restoring(d), FromArchive(d, []));
    NextPiece(s, FromArchive(d, []), o);
    ThreeSteps(run, s, d, Restoring(d), FromArchive(d, []), o);
    r := run + [With(s, Restoring(d))] + [With(s, FromArchive(d, []))] + [With(s, o)];
  }

  /** The state after operation `i` has entered the archive it read. */
  function Reentered(s: State, i: nat, d: Digest, outputs: Outputs): State
    requires i < |s.operations|
  {
    var data := A.Encode(d, outputs);
    s.(table := L.Store(s.table, L.KeyOf(d), d, |data|, |s.second|), second := s.second + data,
       operations := s.operations[i := Hit(d, [], outputs)])
  }

  lemma RestoreEnters(run: seq<State>, s: State, i: nat, d: Digest, outputs: Outputs) returns (r: seq<State>)
    requires IsRunApart(run, d) && s == run[|run| - 1] && i < |s.operations|
    requires s.operations[i] == Reappending(d, A.Encode(d, outputs), [], outputs) && Quiet(s, d)
    ensures IsRunApart(r, d) && |r| == |run| + 2 && r[..|run|] == run && r[|r| - 1] == Reentered(s, i, d, outputs)
  {
    var data := A.Encode(d, outputs);
    var s1 := Advance(s, i);
    assert s1.operations == s.operations[i := Appended(d, |data|, |s.second|, [], Some(outputs))];
    Advanced(run, i, d);
    var s2 := Advance(s1, i);
    assert s2.operations == s.operations[i := Hit(d, [], outputs)];
    Advanced(run + [s1], i, d);
    r := run + [s1] + [s2];
  }

  lemma RestoreHits(run: seq<State>, s: State, d: Digest, outputs: Outputs, offset: nat, apart: Digest)
    returns (r: seq<State>)
    requires IsRunApart(run, apart) && s == run[|run| - 1] && A.Restorable(d, outputs)
    requires D.RecordOf(s.second, offset, d, outputs)
    requires var e := L.Load(s.table, L.KeyOf(d));
      e.Some? && e.value.hash == d && e.value.offset == offset + L.OFFSET_BIAS
    ensures IsRunApart(r, apart) && |r| == |run| + 3 && r[..|run|] == run
    ensures r[|r| - 1] == With(s, Hit(d, [], outputs))
  {
    D.RecordGives(s.second, offset, d, outputs);
    NextPiece(s, Restoring(d), FromSecond(d, offset));
    NextPiece(s, FromSecond(d, offset), Hit(d, [], outputs));
    ThreeSteps(run, s, apart, Restoring(d), FromSecond(d, offset), Hit(d, [], outputs));
    r := run + [With(s, Restoring(d))] + [With(s, FromSecond(d, offset))] + [With(s, Hit(d, [], outputs))];
  }

  lemma Beginning(d: Digest) returns (run: seq<State>)
    ensures IsRunApart(run, d) && |run| == 1 && run[0] == State(NoEntries(), [], map[], [], {}, map[])
  {
    run := [State(NoEntries(), [], map[], [], {}, map[])];
  }

  /** Store `first`; a restore reads its archive; store `latest` from start to end; the restore enters `first` again.
      No two stores have overlapped and nothing is under way at `from`, but the next restore writes `first`. */
  lemma RestoreBringsBack(d: Digest, first: Outputs, latest: Outputs) returns (run: seq<State>, from: nat)
    requires A.Restorable(d, first) && first != latest
    ensures IsRunApart(run, d) && |run| == 19 && from == 15
    ensures Idle(run[from]) && |run[from].operations| == 3 && d in run[from].latest && run[from].latest[d] == latest
    ensures run[18].operations == run[from].operations + [Hit(d, [], first)] && run[18].latest == run[from].latest
  {
    run := Beginning(d);
    var s0 := run[0];
    run := StoreRuns(run, s0, d, first, d);
    var s5 := Stored(s0, d, first);
    L.LoadStored(s0.table, L.KeyOf(d), d, 0, 0);
    run := RestoreReads(run, s5, d, first);
    var s8 := ArchiveRead(s5, d, first);
    run := StoreRuns(run, s8, d, latest, d);
    var s13 := Stored(s8, d, latest);
    run := RestoreEnters(run, s13, 1, d, first);
    var s15 := Reentered(s13, 1, d, first);
    from := 15;
    var data := A.Encode(d, first);
    D.AppendedRecord(s13.second, data, d, first);
    L.LoadStored(s13.table, L.KeyOf(d), d, |data|, |s13.second|);
    run := RestoreHits(run, s15, d, first, |s13.second|, d);
  }

  /** Two stores of `d` that overlap: the first reads its archive again, the second runs from start to end, the first
      enters what it read. Nothing is under way at `from`, but the next restore writes `first`. */
  lemma OverlapBringsBack(d: Digest, first: Outputs, latest: Outputs) returns (run: seq<State>, from: nat)
    requires A.Restorable(d, first) && first != latest
    ensures IsRun(run) && |run| == 14 && from == 10
    ensures Idle(run[from]) && |run[from].operations| == 2 && d in run[from].latest && run[from].latest[d] == latest
    ensures run[13].operations == run[from].operations + [Hit(d, [], first)] && run[13].latest == run[from].latest
  {
    var apart: Digest := d[0 := if d[0] == 0 then 1 else 0];
    assert apart[0] != d[0];
    run := Beginning(apart);
    var s0 := run[0];
    run := StoreBegins(run, s0, d, first, apart);
    var s3 := HalfStored(s0, d, first);
    run := StoreRuns(run, s3, d, latest, apart);
    var s8 := Stored(s3, d, latest);
    run := StoreEnds(run, s8, 0, d, first, apart);
    var s10 := Entered(s8, 0, d, first);
    from := 10;
    D.AppendedRecord(s8.second, A.Encode(d, first), d, first);
    L.LoadStored(s8.table, L.KeyOf(d), d, 0, |s8.second|);
    run := RestoreHits(run, s10, d, first, |s8.second|, apart);
  }
}
