/** Whose outputs a hit gives, in every run: those that were the latest when the operation that made the last entry read
    the archive, whatever else overlapped. */
module LastEntry {
  import opened Bytes
  import opened ActionCache
  import L = L1Table
  import A = Archive
  import D = CacheDirectory

  // ---------------------------------------------------------------- steps

  /** The operation that moves in a step; none, if one is spawned or the process restarts. */
  lemma MoverOf(s: State, t: State) returns (j: nat)
    requires IsStep(s, t)
    ensures if j < |s.operations| then t == Advance(s, j)
            else t == Restart(s) || exists o :: Starts(o) && t == Spawn(s, o)
  {
    if i :| 0 <= i < |s.operations| && t == Advance(s, i) {
      j := i;
    } else {
      j := |s.operations|;
    }
  }

  lemma OthersStay(s: State, j: nat, i: nat)
    requires j < |s.operations| && i < |s.operations| && i != j
    ensures var t := Advance(s, j); |t.operations| == |s.operations| && t.operations[i] == s.operations[i]
  {
    match s.operations[j]
    case Storing(_, _) =>
    case Appended(_, _, _, _, _) =>
    case Restoring(_) =>
    case FromSecond(_, _) =>
    case FromArchive(_, _) =>
    case Preloading(_) =>
    case _ =>
  }

  lemma CountStays(s: State, j: nat)
    requires j < |s.operations|
    ensures |Advance(s, j).operations| == |s.operations|
  {
  }

  lemma SecondAdvances(s: State, j: nat)
    requires j < |s.operations|
    ensures var t := Advance(s, j); |s.second| <= |t.second| && t.second == s.second + t.second[|s.second|..]
  {
  }

  // ---------------------------------------------------------------- entries

  predicate EntersNow(o: Operation, d: Digest) {
    match o
    case Appended(digest, _, _, _, _) => digest == d
    case Preloading(listing) => listing != [] && listing[0] == d
    case _ => false
  }

  /** Operation `i` makes an entry of `d` in this step. */
  ghost predicate Enters(s: State, t: State, i: nat, d: Digest) {
    i < |s.operations| && EntersNow(s.operations[i], d) && t == Advance(s, i)
  }

  ghost predicate SomeoneEnters(s: State, t: State, d: Digest) {
    exists i: nat :: Enters(s, t, i, d)
  }

  /** The offset the entry of an operation is for. */
  function OffsetOf(o: Operation): nat {
    if o.Appended? then o.offset else 0
  }

  function Biased(offset: nat): nat {
    if offset != 0 then offset + L.OFFSET_BIAS else 0
  }

  predicate IsEntryOf(e: L.Entry, d: Digest) {
    e.live && e.hash == d
  }

  /** All entries of `d` are for this offset. */
  ghost predicate OnlyAt(table: L.Table, d: Digest, offset: nat) {
    forall k {:trigger table[k]} :: 0 <= k < L.COUNT && IsEntryOf(table[k], d) ==> table[k].offset == Biased(offset)
  }

  ghost predicate HasEntry(table: L.Table, d: Digest) {
    exists k :: 0 <= k < L.COUNT && IsEntryOf(table[k], d)
  }

  /** There is no entry of `d` but in the slot where an insertion of it ends. */
  ghost predicate Sole(table: L.Table, d: Digest) {
    forall k {:trigger table[k]} :: 0 <= k < L.COUNT && IsEntryOf(table[k], d) ==>
      k == L.Slot(L.KeyOf(d), L.TargetFrom(table, L.KeyOf(d), 0))
  }

  lemma EnteredOnly(s: State, t: State, i: nat, d: Digest)
    requires Enters(s, t, i, d) && Sole(s.table, d)
    ensures OnlyAt(t.table, d, OffsetOf(s.operations[i]))
  {
  }

  lemma OthersEnterNothing(s: State, j: nat, d: Digest)
    requires j < |s.operations| && !EntersNow(s.operations[j], d)
    ensures var t := Advance(s, j);
      forall k {:trigger t.table[k]} :: 0 <= k < L.COUNT && IsEntryOf(t.table[k], d) ==> t.table[k] == s.table[k]
  {
  }

  /** A step that makes no entry of `d` leaves at most some it finds. */
  lemma NothingNew(s: State, t: State, d: Digest)
    requires IsStep(s, t) && !SomeoneEnters(s, t, d)
    ensures forall k {:trigger t.table[k]} :: 0 <= k < L.COUNT && IsEntryOf(t.table[k], d) ==> t.table[k] == s.table[k]
  {
    var j := MoverOf(s, t);
    if j < |s.operations| {
      assert !Enters(s, t, j, d);
      OthersEnterNothing(s, j, d);
    }
  }

  // ---------------------------------------------------------------- when an entry is the only one

  ghost predicate Filed(e: L.Entry) {
    e.live ==> e.key == L.KeyOf(e.hash)
  }

  /** An entry of `d` is where a look-up of `d` ends. */
  ghost predicate TableOk(table: L.Table, d: Digest) {
    && L.ZeroSound(table) && (L.KeyOf(d) != 0 ==> L.KeyInPlace(table, L.KeyOf(d)))
    && forall k {:trigger table[k]} :: 0 <= k < L.COUNT ==> Filed(table[k])
  }

  lemma OkIsSole(table: L.Table, d: Digest)
    requires TableOk(table, d)
    ensures Sole(table, d)
  {
    forall k {:trigger table[k]} | 0 <= k < L.COUNT && IsEntryOf(table[k], d)
      ensures k == L.Slot(L.KeyOf(d), L.TargetFrom(table, L.KeyOf(d), 0))
    {
      assert Filed(table[k]);
      D.EnteredAlone(table, d, k);
    }
  }

  /** The entry the operation makes next, if any, does not hide that of `d`. */
  ghost predicate Spares(table: L.Table, o: Operation, d: Digest) {
    match o
    case Appended(digest, _, _, _, _) => !L.Hides(table, L.KeyOf(digest), L.KeyOf(d))
    case Preloading(listing) => listing != [] ==> !L.Hides(table, L.KeyOf(listing[0]), L.KeyOf(d))
    case _ => true
  }

  ghost predicate StepSpares(s: State, t: State, d: Digest) {
    forall i {:trigger Advance(s, i)} :: 0 <= i < |s.operations| && t == Advance(s, i) ==>
      Spares(s.table, s.operations[i], d)
  }

  lemma EnteredTableOk(table: L.Table, d: Digest, digest: Digest, size: nat, offset: nat)
    requires TableOk(table, d) && !L.Hides(table, L.KeyOf(digest), L.KeyOf(d))
    ensures TableOk(L.Store(table, L.KeyOf(digest), digest, size, offset), d)
  {
    L.StoreKeepsZeroSound(table, L.KeyOf(digest), digest, size, offset);
    if L.KeyOf(d) != 0 {
      L.UnhiddenStaysInPlace(table, L.KeyOf(digest), digest, size, offset, L.KeyOf(d));
    }
  }

  lemma AdvanceKeepsTable(s: State, i: nat, d: Digest)
    requires i < |s.operations| && TableOk(s.table, d) && Spares(s.table, s.operations[i], d)
    ensures TableOk(Advance(s, i).table, d)
  {
    match s.operations[i]
    case Appended(digest, size, offset, _, _) => EnteredTableOk(s.table, d, digest, size, offset);
    case Preloading(listing) =>
      if listing != [] {
        EnteredTableOk(s.table, d, listing[0], 0, 0);
      }
    case _ =>
  }

  lemma StepKeepsTable(s: State, t: State, d: Digest)
    requires IsStep(s, t) && TableOk(s.table, d) && StepSpares(s, t, d)
    ensures TableOk(t.table, d)
  {
    var j := MoverOf(s, t);
    if j < |s.operations| {
      AdvanceKeepsTable(s, j, d);
    } else if t == Restart(s) {
      L.EmptyIsSound(t.table);
    }
  }

  ghost predicate SparedAt(run: seq<State>, d: Digest, k: nat) {
    k + 1 < |run| ==> StepSpares(run[k], run[k + 1], d)
  }

  /** No step hides the entry of `d`: none enters a digest of key zero that is forced into slot 15, on the way to the
      entry. Always so for a digest of key zero. */
  ghost predicate NeverHidden(run: seq<State>, d: Digest, n: nat) {
    forall k {:trigger SparedAt(run, d, k)} :: 0 <= k < n ==> SparedAt(run, d, k)
  }

  lemma {:induction false} RunKeepsTable(run: seq<State>, d: Digest, n: nat)
    requires IsRun(run) && n < |run| && NeverHidden(run, d, n)
    ensures TableOk(run[n].table, d)
  {
    if n == 0 {
      L.EmptyIsSound(run[0].table);
    } else {
      RunKeepsTable(run, d, n - 1);
      RunStep(run, n - 1);
      assert SparedAt(run, d, n - 1);
      StepKeepsTable(run[n - 1], run[n], d);
    }
  }

  /** In every run: as long as its entry is not hidden, a digest is in no slot but the one a look-up finds. */
  lemma UnhiddenIsSole(run: seq<State>, d: Digest, n: nat)
    requires IsRun(run) && n < |run| && (L.KeyOf(d) == 0 || NeverHidden(run, d, n))
    ensures Sole(run[n].table, d)
  {
    RunKeepsTable(run, d, n);
    OkIsSole(run[n].table, d);
  }

  // ---------------------------------------------------------------- what an operation has read

  /** Every archive file is that of the latest store. */
  ghost predicate ArchivesLatest(s: State) {
    s.archives.Keys == s.latest.Keys
    && forall d {:trigger s.archives[d]} :: d in s.archives ==> Holds(d, s.latest[d], s.archives[d])
  }

  /** Operation `i` reads the archive of `d` in this step, to append it to the second level. */
  ghost predicate Reads(s: State, t: State, i: nat, d: Digest) {
    && i < |s.operations| && t == Advance(s, i) && d in s.archives
    && (s.operations[i] == Written(d) || (s.operations[i].FromArchive? && s.operations[i].digest == d))
    && IsPast(t.operations[i], d)
  }

  predicate IsPast(o: Operation, d: Digest) {
    match o
    case ReadAgain(digest, _) => digest == d
    case Reappending(digest, _, _, _) => digest == d
    case Appended(digest, _, _, _, _) => digest == d
    case _ => false
  }

  /** What the operation has read or appended is the archive of `outputs`, until it is done. */
  ghost predicate Carries(second: seq<byte>, o: Operation, d: Digest, outputs: Outputs) {
    match o
    case ReadAgain(digest, data) => digest == d && Holds(d, outputs, data)
    case Reappending(digest, data, _, _) => digest == d && Holds(d, outputs, data)
    case Appended(digest, _, offset, _, _) => digest == d && D.RecordOf(second, offset, d, outputs)
    case Stored => true
    case Hit(_, _, _) => true
    case _ => false
  }

  lemma SecondGrows(s: State, t: State)
    requires IsStep(s, t)
    ensures |s.second| <= |t.second| && t.second == s.second + t.second[|s.second|..]
  {
    var j := MoverOf(s, t);
    if j < |s.operations| {
      SecondAdvances(s, j);
    }
  }

  /** In a step an operation moves itself or stays as it is. */
  lemma OwnOrOther(s: State, t: State, i: nat)
    requires IsStep(s, t) && i < |s.operations| && i < |t.operations|
    ensures t.operations[i] == s.operations[i] || t == Advance(s, i)
  {
    var j := MoverOf(s, t);
    if j < |s.operations| && j != i {
      OthersStay(s, j, i);
    }
  }

  lemma CarriesStays(second: seq<byte>, more: seq<byte>, o: Operation, d: Digest, outputs: Outputs)
    requires Carries(second, o, d, outputs)
    ensures Carries(second + more, o, d, outputs)
  {
    if o.Appended? {
      D.RecordStays(second, more, o.offset, d, outputs);
    }
  }

  lemma CarriesAdvance(s: State, i: nat, d: Digest, outputs: Outputs)
    requires i < |s.operations| && Carries(s.second, s.operations[i], d, outputs)
    ensures Carries(Advance(s, i).second, Advance(s, i).operations[i], d, outputs)
  {
    var o := s.operations[i];
    if o.ReadAgain? || o.Reappending? {
      D.AppendedRecord(s.second, o.data, d, outputs);
    }
  }

  lemma CarriesStep(s: State, t: State, i: nat, d: Digest, outputs: Outputs)
    requires IsStep(s, t) && i < |s.operations| && i < |t.operations| && Carries(s.second, s.operations[i], d, outputs)
    ensures Carries(t.second, t.operations[i], d, outputs)
  {
    OwnOrOther(s, t, i);
    if t == Advance(s, i) {
      CarriesAdvance(s, i, d, outputs);
    } else {
      SecondGrows(s, t);
      CarriesStays(s.second, t.second[|s.second|..], s.operations[i], d, outputs);
    }
  }

  lemma ReadIsCarried(s: State, t: State, i: nat, d: Digest)
    requires Reads(s, t, i, d) && ArchivesLatest(s)
    ensures Carries(t.second, t.operations[i], d, s.latest[d])
  {
  }

  lemma StoringKeepsArchives(s: State, j: nat)
    requires j < |s.operations| && s.operations[j].Storing? && ArchivesLatest(s)
    ensures ArchivesLatest(Advance(s, j))
  {
    var t, d := Advance(s, j), s.operations[j].digest;
    assert Holds(d, t.latest[d], t.archives[d]);
  }

  lemma OthersKeepArchives(s: State, j: nat)
    requires j < |s.operations| && !s.operations[j].Storing?
    ensures Advance(s, j).archives == s.archives && Advance(s, j).latest == s.latest
  {
  }

  lemma ArchivesStayLatest(s: State, t: State)
    requires IsStep(s, t) && ArchivesLatest(s)
    ensures ArchivesLatest(t)
  {
    var j := MoverOf(s, t);
    if j < |s.operations| {
      if s.operations[j].Storing? {
        StoringKeepsArchives(s, j);
      } else {
        OthersKeepArchives(s, j);
      }
    }
  }

  // ---------------------------------------------------------------- along a run

  lemma {:induction false} RunArchives(run: seq<State>, n: nat)
    requires IsRun(run) && n < |run|
    ensures ArchivesLatest(run[n])
  {
    if n > 0 {
      RunArchives(run, n - 1);
      RunStep(run, n - 1);
      ArchivesStayLatest(run[n - 1], run[n]);
    }
  }

  /** The process does not restart: operation `i` is the same all the time. */
  ghost predicate Stays(run: seq<State>, i: nat, from: nat, to: nat) {
    forall k {:trigger run[k]} :: from <= k <= to && k < |run| ==> i < |run[k].operations|
  }

  ghost predicate NoneEnters(run: seq<State>, d: Digest, from: nat, to: nat) {
    forall k {:trigger StepEnters(run, d, k)} :: from <= k < to ==> !StepEnters(run, d, k)
  }

  ghost predicate StepEnters(run: seq<State>, d: Digest, k: nat) {
    k + 1 < |run| && SomeoneEnters(run[k], run[k + 1], d)
  }

  lemma OnlyStep(s: State, t: State, d: Digest, offset: nat)
    requires IsStep(s, t) && !SomeoneEnters(s, t, d) && OnlyAt(s.table, d, offset)
    ensures OnlyAt(t.table, d, offset)
  {
    NothingNew(s, t, d);
  }

  lemma {:induction false} CarriesOn(run: seq<State>, i: nat, d: Digest, outputs: Outputs, from: nat, n: nat)
    requires IsRun(run) && from <= n < |run| && Stays(run, i, from, n)
    requires i < |run[from].operations| && Carries(run[from].second, run[from].operations[i], d, outputs)
    ensures i < |run[n].operations| && Carries(run[n].second, run[n].operations[i], d, outputs)
  {
    if from < n {
      CarriesOn(run, i, d, outputs, from, n - 1);
      RunStep(run, n - 1);
      CarriesStep(run[n - 1], run[n], i, d, outputs);
    }
  }

  lemma {:induction false} RecordStaysOn(run: seq<State>, offset: nat, d: Digest, outputs: Outputs, from: nat, n: nat)
    requires IsRun(run) && from <= n < |run| && D.RecordOf(run[from].second, offset, d, outputs)
    ensures D.RecordOf(run[n].second, offset, d, outputs)
  {
    if from < n {
      RecordStaysOn(run, offset, d, outputs, from, n - 1);
      RunStep(run, n - 1);
      SecondGrows(run[n - 1], run[n]);
      D.RecordStays(run[n - 1].second, run[n].second[|run[n - 1].second|..], offset, d, outputs);
    }
  }

  lemma {:induction false} OnlyStays(run: seq<State>, d: Digest, offset: nat, from: nat, n: nat)
    requires IsRun(run) && from <= n < |run| && OnlyAt(run[from].table, d, offset) && NoneEnters(run, d, from, n)
    ensures OnlyAt(run[n].table, d, offset)
  {
    if from < n {
      OnlyStays(run, d, offset, from, n - 1);
      RunStep(run, n - 1);
      assert !StepEnters(run, d, n - 1);
      OnlyStep(run[n - 1], run[n], d, offset);
    }
  }

  /** The last entry of `d` before step `l` is made by operation `i` in step `e`. */
  ghost predicate IsLastEntry(run: seq<State>, d: Digest, l: nat, e: nat, i: nat) {
    e < l < |run| && Enters(run[e], run[e + 1], i, d) && NoneEnters(run, d, e + 1, l)
  }

  /** Operation `i` reads the archive of `d` in step `r` and has appended it by step `e`. */
  ghost predicate IsReading(run: seq<State>, d: Digest, i: nat, r: nat, e: nat) {
    r < e < |run| && Reads(run[r], run[r + 1], i, d) && Stays(run, i, r + 1, e)
  }

  /** Operation `q` looks up `d` in step `l` and is not cut off afterwards. */
  ghost predicate IsLookUp(run: seq<State>, d: Digest, q: nat, l: nat) {
    && l + 1 < |run| && q < |run[l].operations| && run[l].operations[q] == Restoring(d)
    && run[l + 1] == Advance(run[l], q) && Stays(run, q, l + 1, |run| - 1)
  }

  // ---------------------------------------------------------------- what a restore makes of it

  /** The archive that was the latest at some step after the look-up has been read. */
  ghost predicate FromLater(run: seq<State>, l: nat, n: nat, d: Digest, wrote: Outputs)
    requires n <= |run|
  {
    exists a: nat {:trigger run[a]} :: l < a < n && d in run[a].latest && wrote == A.Shown(d, run[a].latest[d])
  }

  /** Why the archive is read: the entry has no offset, or the record has a fault. */
  ghost predicate FallsBack(d: Digest, offset: nat, outputs: Outputs, before: Outputs) {
    if offset == 0 then before == [] else IsFaulty(d, outputs, before)
  }

  /** A restore that found an entry for `offset`, where the record of `outputs` lies unless it is 0. */
  ghost predicate Follows(run: seq<State>, l: nat, n: nat, o: Operation, d: Digest, offset: nat, outputs: Outputs)
    requires n <= |run|
  {
    match o
    case FromSecond(digest, at) => digest == d && offset != 0 && at == offset
    case FromArchive(digest, before) => digest == d && FallsBack(d, offset, outputs, before)
    case Reappending(digest, _, before, wrote) =>
      digest == d && FallsBack(d, offset, outputs, before) && FromLater(run, l, n, d, wrote)
    case Appended(digest, _, _, before, restored) =>
      && digest == d && FallsBack(d, offset, outputs, before)
      && restored.Some? && FromLater(run, l, n, d, restored.value)
    case Hit(digest, before, wrote) =>
      && digest == d
      && (|| (offset != 0 && before == [] && wrote == A.Shown(d, outputs))
          || (FallsBack(d, offset, outputs, before) && FromLater(run, l, n, d, wrote)))
    case Miss(_, _, _) => true
    case _ => false
  }

  lemma LaterStays(run: seq<State>, l: nat, n: nat, d: Digest, wrote: Outputs)
    requires n < |run| && FromLater(run, l, n, d, wrote)
    ensures FromLater(run, l, n + 1, d, wrote)
  {
    var a: nat :| l < a < n && d in run[a].latest && wrote == A.Shown(d, run[a].latest[d]);
    assert run[a].latest == run[a].latest;
  }

  lemma FollowsStays(run: seq<State>, l: nat, n: nat, o: Operation, d: Digest, offset: nat, outputs: Outputs)
    requires n < |run| && Follows(run, l, n, o, d, offset, outputs)
    ensures Follows(run, l, n + 1, o, d, offset, outputs)
  {
    match o
    case Reappending(_, _, _, wrote) => LaterStays(run, l, n, d, wrote);
    case Appended(_, _, _, _, restored) => LaterStays(run, l, n, d, restored.value);
    case Hit(_, _, wrote) =>
      if FromLater(run, l, n, d, wrote) {
        LaterStays(run, l, n, d, wrote);
      }
    case _ =>
  }

  lemma FoundAtOffset(s: State, q: nat, d: Digest, offset: nat)
    requires q < |s.operations| && s.operations[q] == Restoring(d) && OnlyAt(s.table, d, offset)
    ensures var o := Advance(s, q).operations[q];
      o.Miss? || o == if offset != 0 then FromSecond(d, offset) else FromArchive(d, [])
  {
    if L.Load(s.table, L.KeyOf(d)).Some? {
      var k := L.LoadFinds(s.table, L.KeyOf(d), 0);
      LoadedIsLive(s.table, L.KeyOf(d), 0);
    }
  }

  lemma SecondFollows(run: seq<State>, l: nat, n: nat, q: nat, d: Digest, offset: nat, outputs: Outputs)
    requires l < n < |run| && q < |run[n].operations| && run[n].operations[q] == FromSecond(d, offset) && offset != 0
    requires D.RecordOf(run[n].second, offset, d, outputs)
    ensures Follows(run, l, n + 1, Advance(run[n], q).operations[q], d, offset, outputs)
  {
    D.RecordGives(run[n].second, offset, d, outputs);
  }

  lemma ArchiveFollows(run: seq<State>, l: nat, n: nat, q: nat, d: Digest, offset: nat, outputs: Outputs)
    requires l < n < |run| && q < |run[n].operations| && ArchivesLatest(run[n])
    requires run[n].operations[q].FromArchive? && Follows(run, l, n, run[n].operations[q], d, offset, outputs)
    ensures Follows(run, l, n + 1, Advance(run[n], q).operations[q], d, offset, outputs)
  {
    var s := run[n];
    if d in s.archives {
      assert Holds(d, s.latest[d], s.archives[d]);
      assert FromLater(run, l, n + 1, d, A.Shown(d, s.latest[d]));
    }
  }

  lemma FollowsAdvance(run: seq<State>, l: nat, n: nat, q: nat, d: Digest, offset: nat, outputs: Outputs)
    requires l < n < |run| && q < |run[n].operations| && ArchivesLatest(run[n])
    requires offset != 0 ==> D.RecordOf(run[n].second, offset, d, outputs)
    requires Follows(run, l, n, run[n].operations[q], d, offset, outputs)
    ensures Follows(run, l, n + 1, Advance(run[n], q).operations[q], d, offset, outputs)
  {
    var o := run[n].operations[q];
    if o.FromSecond? {
      SecondFollows(run, l, n, q, d, offset, outputs);
    } else if o.FromArchive? {
      ArchiveFollows(run, l, n, q, d, offset, outputs);
    } else {
      FollowsStays(run, l, n, o, d, offset, outputs);
    }
  }

  lemma FollowsStep(run: seq<State>, l: nat, n: nat, q: nat, d: Digest, offset: nat, outputs: Outputs)
    requires l < n && n + 1 < |run| && IsStep(run[n], run[n + 1]) && ArchivesLatest(run[n])
    requires q < |run[n].operations| && q < |run[n + 1].operations|
    requires offset != 0 ==> D.RecordOf(run[n].second, offset, d, outputs)
    requires Follows(run, l, n, run[n].operations[q], d, offset, outputs)
    ensures Follows(run, l, n + 1, run[n + 1].operations[q], d, offset, outputs)
  {
    OwnOrOther(run[n], run[n + 1], q);
    if run[n + 1] == Advance(run[n], q) {
      FollowsAdvance(run, l, n, q, d, offset, outputs);
    } else {
      FollowsStays(run, l, n, run[n].operations[q], d, offset, outputs);
    }
  }

  lemma FollowsNext(run: seq<State>, l: nat, n: nat, q: nat, d: Digest, offset: nat, outputs: Outputs)
    requires IsRun(run) && l < n && n + 1 < |run| && q < |run[n].operations| && q < |run[n + 1].operations|
    requires offset != 0 ==> D.RecordOf(run[l].second, offset, d, outputs)
    requires Follows(run, l, n, run[n].operations[q], d, offset, outputs)
    ensures Follows(run, l, n + 1, run[n + 1].operations[q], d, offset, outputs)
  {
    RunStep(run, n);
    RunArchives(run, n);
    if offset != 0 {
      RecordStaysOn(run, offset, d, outputs, l, n);
    }
    FollowsStep(run, l, n, q, d, offset, outputs);
  }

  lemma FollowsFirst(run: seq<State>, l: nat, q: nat, d: Digest, offset: nat, outputs: Outputs)
    requires IsLookUp(run, d, q, l) && OnlyAt(run[l].table, d, offset)
    ensures Follows(run, l, l + 1, run[l + 1].operations[q], d, offset, outputs)
  {
    FoundAtOffset(run[l], q, d, offset);
  }

  lemma {:induction false} FollowsOn(run: seq<State>, l: nat, n: nat, q: nat, d: Digest, offset: nat, outputs: Outputs)
    requires IsRun(run) && l < n < |run| && IsLookUp(run, d, q, l) && OnlyAt(run[l].table, d, offset)
    requires offset != 0 ==> D.RecordOf(run[l].second, offset, d, outputs)
    ensures q < |run[n].operations| && Follows(run, l, n, run[n].operations[q], d, offset, outputs)
    decreases n
  {
    assert q < |run[n].operations|;
    if n == l + 1 {
      FollowsFirst(run, l, q, d, offset, outputs);
    } else {
      FollowsOn(run, l, n - 1, q, d, offset, outputs);
      FollowsNext(run, l, n - 1, q, d, offset, outputs);
    }
  }

  // ---------------------------------------------------------------- the last entry decides

  /** The record that the last entry is for is that of the outputs that were the latest when its operation read the
      archive. */
  lemma EntryIsOfReading(run: seq<State>, d: Digest, l: nat, e: nat, i: nat, r: nat)
    requires IsRun(run) && IsLastEntry(run, d, l, e, i) && run[e].operations[i].Appended? && IsReading(run, d, i, r, e)
    ensures d in run[r].latest && D.RecordOf(run[l].second, run[e].operations[i].offset, d, run[r].latest[d])
  {
    RunArchives(run, r);
    var outputs := run[r].latest[d];
    ReadIsCarried(run[r], run[r + 1], i, d);
    CarriesOn(run, i, d, outputs, r + 1, e);
    RecordStaysOn(run, run[e].operations[i].offset, d, outputs, e, l);
  }

  lemma LastEntryIsOnly(run: seq<State>, d: Digest, l: nat, e: nat, i: nat)
    requires IsRun(run) && IsLastEntry(run, d, l, e, i) && Sole(run[e].table, d)
    ensures OnlyAt(run[l].table, d, OffsetOf(run[e].operations[i]))
  {
    EnteredOnly(run[e], run[e + 1], i, d);
    OnlyStays(run, d, OffsetOf(run[e].operations[i]), e + 1, l);
  }

  /** In every run, whatever overlapped before or after: a restore of `d` that finds an entry with an offset and hits
      has written the outputs that were the latest when the operation that made the last entry read the archive. If they
      are not restorable it may instead have written the first of them and then what the archive of a later moment
      gave. */
  lemma ReadingDecides(run: seq<State>, d: Digest, l: nat, e: nat, i: nat, r: nat, q: nat)
    requires IsRun(run) && IsLookUp(run, d, q, l) && IsLastEntry(run, d, l, e, i) && Sole(run[e].table, d)
    requires OffsetOf(run[e].operations[i]) != 0 && IsReading(run, d, i, r, e)
    requires run[|run| - 1].operations[q].Hit?
    ensures d in run[r].latest
    ensures var h, outputs := run[|run| - 1].operations[q], run[r].latest[d];
      && h.digest == d
      && (A.Restorable(d, outputs) ==> h.before == [] && h.wrote == outputs)
      && (|| (h.before == [] && h.wrote == A.Shown(d, outputs))
          || (IsFaulty(d, outputs, h.before) && FromLater(run, l, |run| - 1, d, h.wrote)))
  {
    LastEntryIsOnly(run, d, l, e, i);
    EntryIsOfReading(run, d, l, e, i, r);
    FollowsOn(run, l, |run| - 1, q, d, OffsetOf(run[e].operations[i]), run[r].latest[d]);
    A.RoundTripIffFits(d, run[r].latest[d]);
  }

  /** If the last entry has no offset, because it was preloaded or its record begins the second level, a hit has written
      what the archive of the latest store gave at a moment of the restore. */
  lemma ArchiveDecides(run: seq<State>, d: Digest, l: nat, e: nat, i: nat, q: nat)
    requires IsRun(run) && IsLookUp(run, d, q, l) && IsLastEntry(run, d, l, e, i) && Sole(run[e].table, d)
    requires OffsetOf(run[e].operations[i]) == 0 && run[|run| - 1].operations[q].Hit?
    ensures var h := run[|run| - 1].operations[q];
      h.digest == d && h.before == [] && FromLater(run, l, |run| - 1, d, h.wrote)
  {
    LastEntryIsOnly(run, d, l, e, i);
    FollowsOn(run, l, |run| - 1, q, d, 0, []);
  }

  /** So a restore that finds an entry with an offset gives the store that is the latest at step `m`, exactly when that
      is the store whose archive the operation of the last entry had read. */
  lemma HitIsLatestIff(run: seq<State>, d: Digest, l: nat, e: nat, i: nat, r: nat, q: nat, m: nat)
    requires IsRun(run) && IsLookUp(run, d, q, l) && IsLastEntry(run, d, l, e, i) && Sole(run[e].table, d)
    requires OffsetOf(run[e].operations[i]) != 0 && IsReading(run, d, i, r, e) && r <= m < |run|
    requires d in run[r].latest && A.Restorable(d, run[r].latest[d]) && run[|run| - 1].operations[q].Hit?
    ensures d in run[m].latest
    ensures run[|run| - 1].operations[q].wrote == run[m].latest[d] <==> run[r].latest[d] == run[m].latest[d]
  {
    ReadingDecides(run, d, l, e, i, r, q);
    LatestGrows(run, d, r, m);
  }

  lemma {:induction false} LatestGrows(run: seq<State>, d: Digest, from: nat, n: nat)
    requires IsRun(run) && from <= n < |run| && d in run[from].latest
    ensures d in run[n].latest
  {
    if from < n {
      LatestGrows(run, d, from, n - 1);
      RunStep(run, n - 1);
      LatestStays(run[n - 1], run[n], d);
    }
  }

  lemma LatestStays(s: State, t: State, d: Digest)
    requires IsStep(s, t) && d in s.latest
    ensures d in t.latest
  {
    var j := MoverOf(s, t);
    if j < |s.operations| {
      if !s.operations[j].Storing? {
        OthersKeepArchives(s, j);
      }
    }
  }

  // ---------------------------------------------------------------- every hit has a last entry

  /** A restore that has found an entry of `d`. */
  predicate IsFound(o: Operation, d: Digest) {
    match o
    case FromSecond(digest, _) => digest == d
    case FromArchive(digest, _) => digest == d
    case Reappending(digest, _, _, _) => digest == d
    case Appended(digest, _, _, _, restored) => digest == d && restored.Some?
    case Hit(digest, _, _) => digest == d
    case _ => false
  }

  lemma FoundOwn(s: State, q: nat, d: Digest)
    requires q < |s.operations| && IsFound(Advance(s, q).operations[q], d)
    ensures IsFound(s.operations[q], d) || s.operations[q] == Restoring(d)
  {
  }

  lemma FoundStep(s: State, t: State, q: nat, d: Digest)
    requires IsStep(s, t) && q < |t.operations| && IsFound(t.operations[q], d)
    ensures q < |s.operations|
    ensures IsFound(s.operations[q], d) || (s.operations[q] == Restoring(d) && t == Advance(s, q))
  {
    var j := MoverOf(s, t);
    if j < |s.operations| {
      CountStays(s, j);
      if j == q {
        FoundOwn(s, q, d);
      } else {
        OthersStay(s, j, q);
      }
    }
  }

  lemma {:induction false} FindLookUp(run: seq<State>, n: nat, q: nat, d: Digest) returns (l: nat)
    requires IsRun(run) && n < |run| && q < |run[n].operations| && IsFound(run[n].operations[q], d)
    ensures l < n && q < |run[l].operations| && run[l].operations[q] == Restoring(d) && run[l + 1] == Advance(run[l], q)
    ensures IsFound(run[l + 1].operations[q], d) && Stays(run, q, l + 1, n)
    decreases n
  {
    if n > 0 {
      RunStep(run, n - 1);
      FoundStep(run[n - 1], run[n], q, d);
      if IsFound(run[n - 1].operations[q], d) {
        l := FindLookUp(run, n - 1, q, d);
      } else {
        l := n - 1;
      }
    }
  }

  lemma FoundHasEntry(s: State, q: nat, d: Digest)
    requires q < |s.operations| && s.operations[q] == Restoring(d) && IsFound(Advance(s, q).operations[q], d)
    ensures HasEntry(s.table, d)
  {
    var k := L.LoadFinds(s.table, L.KeyOf(d), 0);
    LoadedIsLive(s.table, L.KeyOf(d), 0);
    assert IsEntryOf(s.table[k], d);
  }

  lemma HadBefore(s: State, t: State, d: Digest)
    requires IsStep(s, t) && !SomeoneEnters(s, t, d) && HasEntry(t.table, d)
    ensures HasEntry(s.table, d)
  {
    var k :| 0 <= k < L.COUNT && IsEntryOf(t.table[k], d);
    NothingNew(s, t, d);
    assert IsEntryOf(s.table[k], d);
  }

  lemma {:induction false} FindLastEntry(run: seq<State>, n: nat, d: Digest) returns (e: nat, i: nat)
    requires IsRun(run) && n < |run| && HasEntry(run[n].table, d)
    ensures IsLastEntry(run, d, n, e, i)
    decreases n
  {
    if n > 0 {
      RunStep(run, n - 1);
      if SomeoneEnters(run[n - 1], run[n], d) {
        e := n - 1;
        i :| Enters(run[e], run[e + 1], i, d);
      } else {
        HadBefore(run[n - 1], run[n], d);
        e, i := FindLastEntry(run, n - 1, d);
      }
    }
  }

  lemma PastOwn(s: State, i: nat, d: Digest)
    requires i < |s.operations| && IsPast(Advance(s, i).operations[i], d)
    ensures IsPast(s.operations[i], d) || Reads(s, Advance(s, i), i, d)
  {
    match s.operations[i]
    case Storing(_, _) =>
    case Written(_) =>
    case ReadAgain(_, _) =>
    case Appended(_, _, _, _, _) =>
    case Stored =>
    case Restoring(_) =>
    case FromSecond(_, _) =>
    case FromArchive(_, _) =>
    case Reappending(_, _, _, _) =>
    case Hit(_, _, _) =>
    case Miss(_, _, _) =>
    case Preloading(_) =>
  }

  lemma PastStep(s: State, t: State, i: nat, d: Digest)
    requires IsStep(s, t) && i < |t.operations| && IsPast(t.operations[i], d)
    ensures i < |s.operations| && (IsPast(s.operations[i], d) || Reads(s, t, i, d))
  {
    var j := MoverOf(s, t);
    if j < |s.operations| {
      CountStays(s, j);
      if j == i {
        PastOwn(s, i, d);
      } else {
        OthersStay(s, j, i);
      }
    }
  }

  lemma {:induction false} FindReading(run: seq<State>, n: nat, i: nat, d: Digest) returns (r: nat)
    requires IsRun(run) && n < |run| && i < |run[n].operations| && IsPast(run[n].operations[i], d)
    ensures r < n && Reads(run[r], run[r + 1], i, d) && Stays(run, i, r + 1, n)
    decreases n
  {
    if n > 0 {
      RunStep(run, n - 1);
      PastStep(run[n - 1], run[n], i, d);
      if IsPast(run[n - 1].operations[i], d) {
        r := FindReading(run, n - 1, i, d);
      } else {
        r := n - 1;
      }
    }
  }

  /** Every hit has its look-up, the last entry before that, and, if that has an offset, the reading it comes from. */
  lemma HitHasOrigin(run: seq<State>, q: nat) returns (l: nat, e: nat, i: nat, r: nat)
    requires IsRun(run) && q < |run[|run| - 1].operations| && run[|run| - 1].operations[q].Hit?
    ensures var d := run[|run| - 1].operations[q].digest;
      && IsLookUp(run, d, q, l) && IsLastEntry(run, d, l, e, i)
      && (OffsetOf(run[e].operations[i]) != 0 ==> IsReading(run, d, i, r, e))
  {
    var n := |run| - 1;
    var d := run[n].operations[q].digest;
    l := FindLookUp(run, n, q, d);
    FoundHasEntry(run[l], q, d);
    e, i := FindLastEntry(run, l, d);
    r := 0;
    if run[e].operations[i].Appended? {
      r := FindReading(run, e, i, d);
    }
  }
}
