/** The action cache as a state machine: stores, restores and preloads run side by side over one cache directory,
    each in the atomic pieces that the locks and the file system leave it. */
module ActionCache {
  import opened Wrappers
  import opened Bytes
  import L = L1Table
  import A = Archive

  type Digest = L.Digest
  type Outputs = seq<A.Output>

  /** Where one operation stands. */
  datatype Operation =
    // storing: write the archive file, read it again, append it to the second level, enter it in the table
    | Storing(digest: Digest, outputs: Outputs)
    | Written(digest: Digest)
    | ReadAgain(digest: Digest, data: seq<byte>)
    | Appended(digest: Digest, size: nat, offset: nat, before: Outputs, restored: Option<Outputs>)
    | Stored
    // restoring: look up the table, then the second level at an offset, then the archive file; `before` is what a
    // faulty record has left on disk, `wrote` what came after it
    | Restoring(digest: Digest)
    | FromSecond(digest: Digest, offset: nat)
    | FromArchive(digest: Digest, before: Outputs)
    | Reappending(digest: Digest, data: seq<byte>, before: Outputs, wrote: Outputs)
    | Hit(digest: Digest, before: Outputs, wrote: Outputs)
    | Miss(digest: Digest, before: Outputs, wrote: Outputs)
    // preloading: enter the archives of a directory listing in the table
    | Preloading(listing: seq<Digest>)

  /** The table is in memory, the second level and the archive files are on disk. `history` and `latest` remember the
      stores whose archive was written: all of them, and the last one under each digest. */
  datatype State = State(
    table: L.Table, second: seq<byte>, archives: map<Digest, seq<byte>>, operations: seq<Operation>,
    history: set<(Digest, Outputs)>, latest: map<Digest, Outputs>)

  predicate Starts(o: Operation) {
    match o
    case Storing(_, _) => true
    case Restoring(_) => true
    case Preloading(_) => true
    case _ => false
  }

  function Enter(s: State, digest: Digest, size: nat, offset: nat): State {
    s.(table := L.Store(s.table, L.KeyOf(digest), digest, size, offset))
  }

  function Become(s: State, i: nat, o: Operation): State
    requires i < |s.operations|
  {
    s.(operations := s.operations[i := o])
  }

  /** One atomic piece of operation `i`. */
  function Advance(s: State, i: nat): State
    requires i < |s.operations|
  {
    match s.operations[i]
    case Storing(digest, outputs) =>
      Become(s, i, Written(digest)).(archives := s.archives[digest := A.Encode(digest, outputs)],
                                     history := s.history + {(digest, outputs)},
                                     latest := s.latest[digest := outputs])
    case Written(digest) =>
      if digest in s.archives then Become(s, i, ReadAgain(digest, s.archives[digest])) else Become(s, i, Stored)
    case ReadAgain(digest, data) =>
      Become(s, i, Appended(digest, 0, |s.second|, [], None)).(second := s.second + data)
    case Appended(digest, size, offset, before, wrote) =>
      Become(Enter(s, digest, size, offset), i, if wrote.Some? then Hit(digest, before, wrote.value) else Stored)
    case Stored => s
    case Restoring(digest) =>
      var entry := L.Load(s.table, L.KeyOf(digest));
      if entry.None? || entry.value.hash != digest then Become(s, i, Miss(digest, [], []))
      else if entry.value.offset != 0 then Become(s, i, FromSecond(digest, entry.value.offset - L.OFFSET_BIAS))
      else Become(s, i, FromArchive(digest, []))
    case FromSecond(digest, offset) =>
      var r := A.ReadRecord(s.second, offset);
      Become(s, i, if r.ok then Hit(digest, [], r.outputs) else FromArchive(digest, r.outputs))
    case FromArchive(digest, before) =>
      if digest !in s.archives then Become(s, i, Miss(digest, before, []))
      else
        var r := A.ReadArchive(s.archives[digest]);
        Become(s, i, if r.ok then Reappending(digest, s.archives[digest], before, r.outputs)
                     else Miss(digest, before, r.outputs))
    case Reappending(digest, data, before, wrote) =>
      Become(s, i, Appended(digest, |data|, |s.second|, before, Some(wrote))).(second := s.second + data)
    case Hit(_, _, _) => s
    case Miss(_, _, _) => s
    case Preloading(listing) =>
      if listing == [] then Become(s, i, Stored)
      else Become(Enter(s, listing[0], 0, 0), i, Preloading(listing[1..]))
  }

  function Spawn(s: State, o: Operation): State {
    s.(operations := s.operations + [o])
  }

  /** The process ends, wherever its operations stand, and a new one starts over the same directory. */
  function Restart(s: State): State {
    s.(table := NoEntries(), operations := [])
  }

  function NoEntries(): L.Table {
    seq(L.COUNT, _ => L.EMPTY)
  }

  ghost predicate IsStep(s: State, t: State) {
    || (exists o :: Starts(o) && t == Spawn(s, o))
    || (exists i :: 0 <= i < |s.operations| && t == Advance(s, i))
    || t == Restart(s)
  }

  ghost predicate IsFresh(s: State) {
    s == State(NoEntries(), [], map[], [], {}, map[])
  }

  ghost predicate IsRun(run: seq<State>) {
    run != [] && IsFresh(run[0]) && forall i {:trigger StepsAt(run, i)} :: 0 <= i < |run| - 1 ==> StepsAt(run, i)
  }

  ghost predicate StepsAt(run: seq<State>, i: nat)
    requires i + 1 < |run|
  {
    IsStep(run[i], run[i + 1])
  }

  lemma RunStep(run: seq<State>, n: nat)
    requires IsRun(run) && n + 1 < |run|
    ensures IsStep(run[n], run[n + 1])
  {
    assert StepsAt(run, n);
  }

  // ---------------------------------------------------------------- what every step keeps

  /** `data` is the archive of some earlier store under this digest. */
  ghost predicate FromStore(history: set<(Digest, Outputs)>, digest: Digest, data: seq<byte>) {
    exists outputs :: (digest, outputs) in history && Holds(digest, outputs, data)
  }

  ghost predicate Holds(digest: Digest, outputs: Outputs, data: seq<byte>) {
    data == A.Encode(digest, outputs)
  }

  /** These are what the archive of some earlier store under this digest gives. */
  ghost predicate Gives(history: set<(Digest, Outputs)>, digest: Digest, wrote: Outputs) {
    exists outputs :: (digest, outputs) in history && wrote == A.Shown(digest, outputs)
  }

  /** Nothing, or what a faulty read of an earlier store under this digest may leave: the first of the outputs its
      archive gives. */
  ghost predicate LeftBehind(history: set<(Digest, Outputs)>, digest: Digest, before: Outputs) {
    before == [] || exists outputs :: (digest, outputs) in history && IsFaulty(digest, outputs, before)
  }

  ghost predicate IsFaulty(digest: Digest, outputs: Outputs, before: Outputs) {
    !A.Restorable(digest, outputs) && before <= A.Shown(digest, outputs)
  }

  /** At this offset of the second level lies the archive of some earlier store under this digest. */
  ghost predicate RecordAt(history: set<(Digest, Outputs)>, second: seq<byte>, digest: Digest, offset: nat) {
    exists end :: offset <= end <= |second| && FromStore(history, digest, second[offset..end])
  }

  ghost predicate EntryOk(s: State, e: L.Entry) {
    e.live && e.offset != 0 ==> RecordAt(s.history, s.second, e.hash, e.offset - L.OFFSET_BIAS)
  }

  ghost predicate OperationOk(s: State, o: Operation) {
    match o
    case ReadAgain(digest, data) => FromStore(s.history, digest, data)
    case Appended(digest, _, offset, before, wrote) =>
      && RecordAt(s.history, s.second, digest, offset) && LeftBehind(s.history, digest, before)
      && (wrote.Some? ==> Gives(s.history, digest, wrote.value))
    case FromSecond(digest, offset) => RecordAt(s.history, s.second, digest, offset)
    case FromArchive(digest, before) => LeftBehind(s.history, digest, before)
    case Reappending(digest, data, before, wrote) =>
      && FromStore(s.history, digest, data) && LeftBehind(s.history, digest, before)
      && Gives(s.history, digest, wrote)
    case Hit(digest, before, wrote) => LeftBehind(s.history, digest, before) && Gives(s.history, digest, wrote)
    case Miss(digest, before, wrote) =>
      LeftBehind(s.history, digest, before) && (wrote == [] || Gives(s.history, digest, wrote))
    case _ => true
  }

  ghost predicate Invariant(s: State) {
    && (forall d {:trigger s.archives[d]} :: d in s.archives ==> FromStore(s.history, d, s.archives[d]))
    && (forall k {:trigger s.table[k]} :: 0 <= k < L.COUNT ==> EntryOk(s, s.table[k]))
    && (forall i {:trigger s.operations[i]} :: 0 <= i < |s.operations| ==> OperationOk(s, s.operations[i]))
  }

  lemma StoreRemembered(h: set<(Digest, Outputs)>, h': set<(Digest, Outputs)>, digest: Digest, data: seq<byte>)
    requires h <= h' && FromStore(h, digest, data)
    ensures FromStore(h', digest, data)
  {
    var outputs :| (digest, outputs) in h && Holds(digest, outputs, data);
    assert (digest, outputs) in h';
  }

  lemma GivesRemembered(h: set<(Digest, Outputs)>, h': set<(Digest, Outputs)>, digest: Digest, wrote: Outputs)
    requires h <= h' && Gives(h, digest, wrote)
    ensures Gives(h', digest, wrote)
  {
    var outputs :| (digest, outputs) in h && wrote == A.Shown(digest, outputs);
    assert (digest, outputs) in h';
  }

  lemma LeftRemembered(h: set<(Digest, Outputs)>, h': set<(Digest, Outputs)>, digest: Digest, before: Outputs)
    requires h <= h' && LeftBehind(h, digest, before)
    ensures LeftBehind(h', digest, before)
  {
    if before != [] {
      var outputs :| (digest, outputs) in h && IsFaulty(digest, outputs, before);
      assert (digest, outputs) in h';
    }
  }

  /** Appending and storing leave every record where it is. */
  lemma RecordStays(h: set<(Digest, Outputs)>, h': set<(Digest, Outputs)>, second: seq<byte>, more: seq<byte>,
                    digest: Digest, offset: nat)
    requires h <= h' && RecordAt(h, second, digest, offset)
    ensures RecordAt(h', second + more, digest, offset)
  {
    var end :| offset <= end <= |second| && FromStore(h, digest, second[offset..end]);
    StoreRemembered(h, h', digest, second[offset..end]);
    assert (second + more)[offset..end] == second[offset..end];
  }

  lemma NewRecord(h: set<(Digest, Outputs)>, second: seq<byte>, digest: Digest, data: seq<byte>)
    requires FromStore(h, digest, data)
    ensures RecordAt(h, second + data, digest, |second|)
  {
    assert (second + data)[|second|..|second + data|] == data;
  }

  lemma HeldRecordReads(second: seq<byte>, offset: nat, end: nat, digest: Digest, outputs: Outputs)
    requires offset <= end <= |second| && Holds(digest, outputs, second[offset..end])
    ensures var r := A.ReadRecord(second, offset);
            && r.outputs <= A.Shown(digest, outputs) && (r.ok ==> r.outputs == A.Shown(digest, outputs))
            && (A.Restorable(digest, outputs) ==> r == A.Restored(outputs, true))
  {
    var pre, data, post := second[..offset], second[offset..end], second[end..];
    assert second == pre + data + post;
    A.RecordNeverLies(pre, digest, outputs, post);
  }

  /** A record gives the outputs of an earlier store, or, if they are not restorable, maybe only the first of them. */
  lemma RecordIsStored(h: set<(Digest, Outputs)>, second: seq<byte>, digest: Digest, offset: nat)
    requires RecordAt(h, second, digest, offset)
    ensures var r := A.ReadRecord(second, offset);
      if r.ok then Gives(h, digest, r.outputs) else LeftBehind(h, digest, r.outputs)
  {
    var end :| offset <= end <= |second| && FromStore(h, digest, second[offset..end]);
    var outputs :| (digest, outputs) in h && Holds(digest, outputs, second[offset..end]);
    HeldRecordReads(second, offset, end, digest, outputs);
    assert !A.ReadRecord(second, offset).ok ==> IsFaulty(digest, outputs, A.ReadRecord(second, offset).outputs);
  }

  lemma ArchiveIsStored(h: set<(Digest, Outputs)>, digest: Digest, data: seq<byte>)
    requires FromStore(h, digest, data)
    ensures Gives(h, digest, A.ReadArchive(data).outputs)
  {
    var outputs :| (digest, outputs) in h && Holds(digest, outputs, data);
  }

  /** History, second level and table have grown in a way that leaves everything as good as it was. */
  ghost predicate Grows(s: State, t: State) {
    && s.history <= t.history
    && |s.second| <= |t.second| && t.second[..|s.second|] == s.second
  }

  lemma EntryStays(s: State, t: State, e: L.Entry)
    requires Grows(s, t) && EntryOk(s, e)
    ensures EntryOk(t, e)
  {
    if e.live && e.offset != 0 {
      RecordStays(s.history, t.history, s.second, t.second[|s.second|..], e.hash, e.offset - L.OFFSET_BIAS);
      assert t.second == s.second + t.second[|s.second|..];
    }
  }

  lemma OperationStays(s: State, t: State, o: Operation)
    requires Grows(s, t) && OperationOk(s, o)
    ensures OperationOk(t, o)
  {
    assert t.second == s.second + t.second[|s.second|..];
    match o
    case ReadAgain(digest, data) => StoreRemembered(s.history, t.history, digest, data);
    case Reappending(digest, data, before, wrote) =>
      StoreRemembered(s.history, t.history, digest, data);
      LeftRemembered(s.history, t.history, digest, before);
      GivesRemembered(s.history, t.history, digest, wrote);
    case Appended(digest, _, offset, before, wrote) =>
      RecordStays(s.history, t.history, s.second, t.second[|s.second|..], digest, offset);
      LeftRemembered(s.history, t.history, digest, before);
      if wrote.Some? {
        GivesRemembered(s.history, t.history, digest, wrote.value);
      }
    case Hit(digest, before, wrote) =>
      LeftRemembered(s.history, t.history, digest, before);
      GivesRemembered(s.history, t.history, digest, wrote);
    case Miss(digest, before, wrote) =>
      LeftRemembered(s.history, t.history, digest, before);
      if wrote != [] {
        GivesRemembered(s.history, t.history, digest, wrote);
      }
    case FromArchive(digest, before) => LeftRemembered(s.history, t.history, digest, before);
    case FromSecond(digest, offset) =>
      RecordStays(s.history, t.history, s.second, t.second[|s.second|..], digest, offset);
    case _ =>
  }

  /** It is enough to look at what a step changes: operation `i`, an archive, an entry. */
  lemma GrowthKeeps(s: State, t: State, i: nat)
    requires Invariant(s) && Grows(s, t)
    requires |t.operations| == |s.operations| && i < |s.operations| && OperationOk(t, t.operations[i])
    requires forall j :: 0 <= j < |s.operations| && j != i ==> t.operations[j] == s.operations[j]
    requires forall d :: d in t.archives ==>
      (d in s.archives && t.archives[d] == s.archives[d]) || FromStore(t.history, d, t.archives[d])
    requires forall k :: 0 <= k < L.COUNT ==> t.table[k] == s.table[k] || EntryOk(t, t.table[k])
    ensures Invariant(t)
  {
    forall d | d in t.archives
      ensures FromStore(t.history, d, t.archives[d])
    {
      if d in s.archives && t.archives[d] == s.archives[d] {
        StoreRemembered(s.history, t.history, d, s.archives[d]);
      }
    }
    forall k | 0 <= k < L.COUNT
      ensures EntryOk(t, t.table[k])
    {
      if t.table[k] == s.table[k] {
        EntryStays(s, t, s.table[k]);
      }
    }
    forall j | 0 <= j < |t.operations|
      ensures OperationOk(t, t.operations[j])
    {
      if j != i {
        OperationStays(s, t, s.operations[j]);
      }
    }
  }

  lemma EnterKeeps(s: State, digest: Digest, size: nat, offset: nat)
    requires offset != 0 ==> RecordAt(s.history, s.second, digest, offset)
    ensures var t := Enter(s, digest, size, offset);
            forall k :: 0 <= k < L.COUNT ==> t.table[k] == s.table[k] || EntryOk(t, t.table[k])
  {
  }

  lemma StoringKeeps(s: State, i: nat)
    requires Invariant(s) && i < |s.operations| && s.operations[i].Storing?
    ensures Invariant(Advance(s, i))
  {
    var t := Advance(s, i);
    var Storing(digest, outputs) := s.operations[i];
    assert Holds(digest, outputs, t.archives[digest]) && (digest, outputs) in t.history;
    GrowthKeeps(s, t, i);
  }

  lemma AppendKeeps(s: State, i: nat)
    requires Invariant(s) && i < |s.operations| && (s.operations[i].ReadAgain? || s.operations[i].Reappending?)
    ensures Invariant(Advance(s, i))
  {
    var o := s.operations[i];
    NewRecord(s.history, s.second, o.digest, o.data);
    GrowthKeeps(s, Advance(s, i), i);
  }

  lemma AppendedKeeps(s: State, i: nat)
    requires Invariant(s) && i < |s.operations| && s.operations[i].Appended?
    ensures Invariant(Advance(s, i))
  {
    var o := s.operations[i];
    EnterKeeps(s, o.digest, o.size, o.offset);
    GrowthKeeps(s, Advance(s, i), i);
  }

  lemma PreloadingKeeps(s: State, i: nat)
    requires Invariant(s) && i < |s.operations| && s.operations[i].Preloading?
    ensures Invariant(Advance(s, i))
  {
    var o := s.operations[i];
    if o.listing != [] {
      EnterKeeps(s, o.listing[0], 0, 0);
    }
    GrowthKeeps(s, Advance(s, i), i);
  }

  lemma ReadingKeeps(s: State, i: nat)
    requires Invariant(s) && i < |s.operations|
    requires s.operations[i].Written? || s.operations[i].FromSecond? || s.operations[i].FromArchive?
    ensures Invariant(Advance(s, i))
  {
    var o := s.operations[i];
    if o.FromSecond? {
      RecordIsStored(s.history, s.second, o.digest, o.offset);
    } else if o.digest in s.archives {
      ArchiveIsStored(s.history, o.digest, s.archives[o.digest]);
    }
    GrowthKeeps(s, Advance(s, i), i);
  }

  lemma RestoringKeeps(s: State, i: nat)
    requires Invariant(s) && i < |s.operations| && s.operations[i].Restoring?
    ensures Invariant(Advance(s, i))
  {
    var key := L.KeyOf(s.operations[i].digest);
    if L.Load(s.table, key).Some? {
      var k := L.LoadFinds(s.table, key, 0);
      LoadedIsLive(s.table, key, 0);
    }
    GrowthKeeps(s, Advance(s, i), i);
  }

  lemma {:induction false} LoadedIsLive(t: L.Table, key: L.Key, p: nat)
    ensures L.LoadFrom(t, key, p).Some? ==> L.LoadFrom(t, key, p).value.live
    decreases L.PROBES - p
  {
    if p < L.PROBES {
      LoadedIsLive(t, key, p + 1);
    }
  }

  lemma AdvanceKeeps(s: State, i: nat)
    requires Invariant(s) && i < |s.operations|
    ensures Invariant(Advance(s, i))
  {
    match s.operations[i]
    case Storing(_, _) => StoringKeeps(s, i);
    case Written(_) => ReadingKeeps(s, i);
    case ReadAgain(_, _) => AppendKeeps(s, i);
    case Appended(_, _, _, _, _) => AppendedKeeps(s, i);
    case Restoring(_) => RestoringKeeps(s, i);
    case FromSecond(_, _) => ReadingKeeps(s, i);
    case FromArchive(_, _) => ReadingKeeps(s, i);
    case Reappending(_, _, _, _) => AppendKeeps(s, i);
    case Preloading(_) => PreloadingKeeps(s, i);
    case _ =>
  }

  lemma SpawnKeeps(s: State, o: Operation)
    requires Invariant(s) && Starts(o)
    ensures Invariant(Spawn(s, o))
  {
    var t := Spawn(s, o);
    assert t.second[..|s.second|] == s.second;
    forall k | 0 <= k < L.COUNT
      ensures EntryOk(t, t.table[k])
    {
      EntryStays(s, t, s.table[k]);
    }
    forall i | 0 <= i < |t.operations|
      ensures OperationOk(t, t.operations[i])
    {
      if i < |s.operations| {
        OperationStays(s, t, s.operations[i]);
      }
    }
  }

  lemma StepKeeps(s: State, t: State)
    requires Invariant(s) && IsStep(s, t)
    ensures Invariant(t)
  {
    if o :| Starts(o) && t == Spawn(s, o) {
      SpawnKeeps(s, o);
    } else if i :| 0 <= i < |s.operations| && t == Advance(s, i) {
      AdvanceKeeps(s, i);
    }
  }

  lemma PrefixIsRun(run: seq<State>, n: nat)
    requires IsRun(run) && 0 < n <= |run|
    ensures IsRun(run[..n])
  {
    var before := run[..n];
    forall i | 0 <= i < |before| - 1
      ensures StepsAt(before, i)
    {
      assert StepsAt(run, i);
    }
  }

  lemma {:induction false} RunKeeps(run: seq<State>)
    requires IsRun(run)
    ensures Invariant(run[|run| - 1])
  {
    if |run| > 1 {
      var last := |run| - 2;
      RunStep(run, last);
      PrefixIsRun(run, last + 1);
      RunKeeps(run[..last + 1]);
      StepKeeps(run[last], run[last + 1]);
    }
  }

  /** In every run, however the operations interleave, whatever the table evicts or confuses and whenever the process
      restarts: what a hit has written is what the archive of an earlier store under the very digest asked for gives,
      hence the outputs of that store if they fit the fields of the format. Before that it may have written the first
      outputs of a store that is not restorable. */
  lemma HitIsAnEarlierStore(run: seq<State>, i: nat) returns (outputs: Outputs)
    requires IsRun(run) && i < |run[|run| - 1].operations| && run[|run| - 1].operations[i].Hit?
    ensures var s := run[|run| - 1]; var o := s.operations[i];
            && (o.digest, outputs) in s.history && o.wrote == A.Shown(o.digest, outputs)
            && (A.Fits(outputs) ==> o.wrote == outputs) && LeftBehind(s.history, o.digest, o.before)
  {
    RunKeeps(run);
    var s := run[|run| - 1];
    var o := s.operations[i];
    assert OperationOk(s, o);
    outputs :| (o.digest, outputs) in s.history && o.wrote == A.Shown(o.digest, outputs);
    A.RoundTripIffFits(o.digest, outputs);
  }
}
