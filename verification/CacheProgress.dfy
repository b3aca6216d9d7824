/** That the operations of the cache get something done: a store that ends has entered its digest, a preload every
    digest of its listing, and a restore that finds an entry misses only if the archive cannot be read. */
module CacheProgress {
  import opened Wrappers
  import opened ActionCache
  import opened LastEntry
  import L = L1Table
  import A = Archive

  /** Right after the step that makes it, a look-up finds the entry. */
  lemma EnteredIsFound(s: State, t: State, i: nat, d: Digest)
    requires Enters(s, t, i, d)
    ensures var e := L.Load(t.table, L.KeyOf(d));
      && e.Some? && e.value.hash == d && e.value.live
      && e.value.offset == if OffsetOf(s.operations[i]) == 0 then 0 else OffsetOf(s.operations[i]) + 1
  {
    match s.operations[i]
    case Appended(digest, size, offset, _, _) => L.LoadStored(s.table, L.KeyOf(d), digest, size, offset);
    case Preloading(listing) => L.LoadStored(s.table, L.KeyOf(d), d, 0, 0);
  }

  // ---------------------------------------------------------------- stores

  /** A store of `d` is on its way to the table. */
  predicate InStore(s: State, i: nat, d: Digest) {
    i < |s.operations| &&
    match s.operations[i]
    case Storing(digest, _) => digest == d
    case Written(digest) => digest == d && d in s.archives
    case ReadAgain(digest, _) => digest == d
    case Appended(digest, _, _, _, restored) => digest == d && restored.None?
    case _ => false
  }

  lemma StoreAdvances(s: State, i: nat, d: Digest)
    requires InStore(s, i, d)
    ensures InStore(Advance(s, i), i, d) || Enters(s, Advance(s, i), i, d)
  {
  }

  lemma ArchivesGrow(s: State, t: State, d: Digest)
    requires IsStep(s, t) && d in s.archives
    ensures d in t.archives
  {
    var j := MoverOf(s, t);
    if j < |s.operations| && !s.operations[j].Storing? {
      OthersKeepArchives(s, j);
    }
  }

  lemma StoreStep(s: State, t: State, i: nat, d: Digest)
    requires IsStep(s, t) && InStore(s, i, d) && i < |t.operations|
    ensures InStore(t, i, d) || Enters(s, t, i, d)
  {
    if s.operations[i].Written? {
      ArchivesGrow(s, t, d);
    }
    OwnOrOther(s, t, i);
    if t.operations[i] != s.operations[i] {
      StoreAdvances(s, i, d);
    }
  }

  /** In every run: a store that has ended, in the process it began in, has entered its digest in the table. */
  lemma {:induction false} StoreEnters(run: seq<State>, b: nat, i: nat, d: Digest) returns (e: nat)
    requires IsRun(run) && b < |run| && InStore(run[b], i, d) && Stays(run, i, b, |run| - 1)
    requires run[|run| - 1].operations[i].Stored?
    ensures b <= e && e + 1 < |run| && Enters(run[e], run[e + 1], i, d)
    decreases |run| - b
  {
    assert b < |run| - 1;
    RunStep(run, b);
    StoreStep(run[b], run[b + 1], i, d);
    if InStore(run[b + 1], i, d) {
      e := StoreEnters(run, b + 1, i, d);
    } else {
      e := b;
    }
  }

  // ---------------------------------------------------------------- preloads

  predicate InPreload(s: State, i: nat, listing: seq<Digest>) {
    i < |s.operations| && s.operations[i] == Preloading(listing)
  }

  lemma PreloadStep(s: State, t: State, i: nat, listing: seq<Digest>)
    requires IsStep(s, t) && InPreload(s, i, listing) && i < |t.operations| && listing != []
    ensures InPreload(t, i, listing) || (InPreload(t, i, listing[1..]) && Enters(s, t, i, listing[0]))
  {
    OwnOrOther(s, t, i);
  }

  /** In every run: a preload that has ended has entered every digest of its listing. */
  lemma {:induction false} PreloadEnters(run: seq<State>, b: nat, i: nat, listing: seq<Digest>, k: nat) returns (e: nat)
    requires IsRun(run) && b < |run| && InPreload(run[b], i, listing) && Stays(run, i, b, |run| - 1)
    requires run[|run| - 1].operations[i].Stored? && k < |listing|
    ensures b <= e && e + 1 < |run| && Enters(run[e], run[e + 1], i, listing[k])
    decreases |run| - b
  {
    assert b < |run| - 1;
    RunStep(run, b);
    PreloadStep(run[b], run[b + 1], i, listing);
    if InPreload(run[b + 1], i, listing) {
      e := PreloadEnters(run, b + 1, i, listing, k);
    } else if k == 0 {
      e := b;
    } else {
      e := PreloadEnters(run, b + 1, i, listing[1..], k - 1);
    }
  }

  // ---------------------------------------------------------------- restores

  /** A look-up finds an entry of the digest. */
  predicate Finds(table: L.Table, d: Digest) {
    var e := L.Load(table, L.KeyOf(d));
    e.Some? && e.value.hash == d
  }

  /** The archive of `d` is missing, or reading it fails. */
  predicate Unreadable(s: State, d: Digest) {
    d !in s.archives || !A.ReadArchive(s.archives[d]).ok
  }

  lemma FoundAdvances(s: State, q: nat, d: Digest)
    requires q < |s.operations| && IsFound(s.operations[q], d)
    ensures IsFound(Advance(s, q).operations[q], d) || Unreadable(s, d)
  {
  }

  lemma FoundOn(s: State, t: State, q: nat, d: Digest)
    requires IsStep(s, t) && q < |s.operations| && q < |t.operations| && IsFound(s.operations[q], d)
    ensures IsFound(t.operations[q], d) || Unreadable(s, d)
  {
    OwnOrOther(s, t, q);
    if t.operations[q] != s.operations[q] {
      FoundAdvances(s, q, d);
    }
  }

  ghost predicate WasUnreadable(run: seq<State>, from: nat, n: nat, d: Digest)
    requires n <= |run|
  {
    exists a: nat {:trigger run[a]} :: from <= a < n && Unreadable(run[a], d)
  }

  lemma {:induction false} FoundSince(run: seq<State>, d: Digest, q: nat, l: nat, n: nat)
    requires IsRun(run) && IsLookUp(run, d, q, l) && Finds(run[l].table, d) && l < n < |run|
    ensures q < |run[n].operations|
    ensures IsFound(run[n].operations[q], d) || WasUnreadable(run, l + 1, n, d)
    decreases n
  {
    assert q < |run[n].operations|;
    if n > l + 1 {
      FoundSince(run, d, q, l, n - 1);
      if IsFound(run[n - 1].operations[q], d) {
        RunStep(run, n - 1);
        FoundOn(run[n - 1], run[n], q, d);
      }
    }
  }

  /** In every run: a restore whose look-up finds nothing ends as a miss at once; one that finds an entry is a miss only
      if at some moment of it the archive was missing or could not be read. */
  lemma MissHasReason(run: seq<State>, d: Digest, q: nat, l: nat)
    requires IsRun(run) && IsLookUp(run, d, q, l)
    ensures !Finds(run[l].table, d) <==> run[l + 1].operations[q].Miss?
    ensures run[|run| - 1].operations[q].Miss? && Finds(run[l].table, d) ==>
      WasUnreadable(run, l + 1, |run| - 1, d)
  {
    if Finds(run[l].table, d) {
      FoundSince(run, d, q, l, |run| - 1);
    }
  }
}
