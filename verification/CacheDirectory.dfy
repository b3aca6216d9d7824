/** One cache directory used by one caller at a time: a restore then gives the outputs of the latest store. */
module CacheDirectory {
  import opened Bytes
  import L = L1Table
  import A = Archive
  import C = ActionCache

  type Digest = L.Digest
  type Outputs = seq<A.Output>

  /** At this offset lies the archive of these very outputs. */
  ghost predicate RecordOf(second: seq<byte>, offset: nat, digest: Digest, outputs: Outputs) {
    exists end :: offset <= end <= |second| && C.Holds(digest, outputs, second[offset..end])
  }

  /** A live entry is filed under its own digest, of which there is a store. */
  ghost predicate Filed(e: L.Entry, latest: map<Digest, Outputs>) {
    e.live ==> e.key == L.KeyOf(e.hash) && e.hash in latest
  }

  /** A live entry points, if anywhere, to the latest outputs. */
  ghost predicate Current(e: L.Entry, second: seq<byte>, latest: map<Digest, Outputs>)
    requires Filed(e, latest)
  {
    e.live && e.offset != 0 ==> RecordOf(second, e.offset - L.OFFSET_BIAS, e.hash, latest[e.hash])
  }

  ghost predicate AllFiled(table: L.Table, latest: map<Digest, Outputs>) {
    forall k {:trigger table[k]} :: 0 <= k < L.COUNT ==> Filed(table[k], latest)
  }

  /** The entries that count are current: all of them, or those of key zero. */
  ghost predicate AllCurrent(table: L.Table, second: seq<byte>, latest: map<Digest, Outputs>, onlyZero: bool)
    requires AllFiled(table, latest)
  {
    forall k {:trigger table[k]} :: 0 <= k < L.COUNT && (onlyZero ==> table[k].key == 0) ==>
      Current(table[k], second, latest)
  }

  /** What every operation keeps. */
  ghost predicate Coherent(table: L.Table, second: seq<byte>, archives: map<Digest, seq<byte>>,
      latest: map<Digest, Outputs>) {
    && L.ZeroSound(table) && AllFiled(table, latest) && AllCurrent(table, second, latest, true)
    && archives.Keys == latest.Keys
    && forall d {:trigger archives[d]} :: d in archives ==> C.Holds(d, latest[d], archives[d])
  }

  /** No entry for older outputs is about: kept by every operation whose digest fits the table. */
  ghost predicate IsSettled(table: L.Table, second: seq<byte>, latest: map<Digest, Outputs>) {
    L.Sound(table) && AllFiled(table, latest) && AllCurrent(table, second, latest, false)
  }

  /** The table knows this digest. */
  predicate Known(table: L.Table, digest: Digest) {
    var e := L.Load(table, L.KeyOf(digest));
    e.Some? && e.value.hash == digest
  }

  lemma RecordStays(second: seq<byte>, more: seq<byte>, offset: nat, digest: Digest, outputs: Outputs)
    requires RecordOf(second, offset, digest, outputs)
    ensures RecordOf(second + more, offset, digest, outputs)
  {
    var end :| offset <= end <= |second| && C.Holds(digest, outputs, second[offset..end]);
    assert (second + more)[offset..end] == second[offset..end];
  }

  lemma AppendedRecord(second: seq<byte>, data: seq<byte>, digest: Digest, outputs: Outputs)
    requires C.Holds(digest, outputs, data)
    ensures RecordOf(second + data, |second|, digest, outputs)
  {
    assert (second + data)[|second|..|second + data|] == data;
  }

  lemma RecordGives(second: seq<byte>, offset: nat, digest: Digest, outputs: Outputs)
    requires RecordOf(second, offset, digest, outputs)
    ensures var r := A.ReadRecord(second, offset);
            && r.outputs <= A.Shown(digest, outputs) && (r.ok ==> r.outputs == A.Shown(digest, outputs))
            && (A.Restorable(digest, outputs) ==> r == A.Restored(outputs, true))
  {
    var end :| offset <= end <= |second| && C.Holds(digest, outputs, second[offset..end]);
    C.HeldRecordReads(second, offset, end, digest, outputs);
  }

  /** Entering a digest replaces whatever could be found for it: another live entry of its is not there. */
  lemma EnteredAlone(table: L.Table, digest: Digest, k: nat)
    requires if L.KeyOf(digest) == 0 then L.ZeroSound(table) else L.KeyInPlace(table, L.KeyOf(digest))
    requires k < L.COUNT && table[k].live && table[k].key == L.KeyOf(digest)
    ensures k == L.Slot(L.KeyOf(digest), L.TargetFrom(table, L.KeyOf(digest), 0))
  {
    if L.KeyOf(digest) == 0 {
      assert L.IsFirstZero(table, k);
      L.ZeroTarget(table, 0);
      L.ZeroSlot(L.TargetFrom(table, 0, 0));
    } else {
      assert L.InPlace(table, k);
      L.TargetOfPresent(table, k);
    }
  }

  lemma EnterKeepsFiled(table: L.Table, latest: map<Digest, Outputs>, digest: Digest, outputs: Outputs, size: nat,
                        offset: nat)
    requires AllFiled(table, latest)
    ensures AllFiled(L.Store(table, L.KeyOf(digest), digest, size, offset), latest[digest := outputs])
  {
  }

  lemma EnterKeepsCurrent(table: L.Table, second: seq<byte>, second': seq<byte>, latest: map<Digest, Outputs>,
                          digest: Digest, outputs: Outputs, size: nat, offset: nat, onlyZero: bool)
    requires AllFiled(table, latest) && AllCurrent(table, second, latest, onlyZero)
    requires L.ZeroSound(table) && (onlyZero || L.Sound(table))
    requires |second| <= |second'| && second'[..|second|] == second
    requires offset != 0 ==> RecordOf(second', offset, digest, outputs)
    ensures AllFiled(L.Store(table, L.KeyOf(digest), digest, size, offset), latest[digest := outputs])
    ensures AllCurrent(L.Store(table, L.KeyOf(digest), digest, size, offset), second', latest[digest := outputs],
                       onlyZero)
  {
    var key := L.KeyOf(digest);
    var at := L.Slot(key, L.TargetFrom(table, key, 0));
    var table' := L.Store(table, key, digest, size, offset);
    EnterKeepsFiled(table, latest, digest, outputs, size, offset);
    assert second' == second + second'[|second|..];
    forall k | 0 <= k < L.COUNT && (onlyZero ==> table'[k].key == 0)
      ensures Current(table'[k], second', latest[digest := outputs])
    {
      if k != at {
        var e := table[k];
        assert Filed(e, latest) && Current(e, second, latest);
        if e.live && e.hash == digest {
          EnteredAlone(table, digest, k);
        }
        if e.live && e.offset != 0 {
          RecordStays(second, second'[|second|..], e.offset - L.OFFSET_BIAS, e.hash, latest[e.hash]);
        }
      }
    }
  }

  /** Entering a digest with a record of its latest outputs, or with none, keeps all promises; if the digest fits,
      also that of no older entries. */
  lemma EnterKeeps(table: L.Table, second: seq<byte>, second': seq<byte>, latest: map<Digest, Outputs>,
                   digest: Digest, outputs: Outputs, size: nat, offset: nat)
    requires L.ZeroSound(table) && AllFiled(table, latest) && AllCurrent(table, second, latest, true)
    requires |second| <= |second'| && second'[..|second|] == second
    requires offset != 0 ==> RecordOf(second', offset, digest, outputs)
    ensures var table', latest' := L.Store(table, L.KeyOf(digest), digest, size, offset), latest[digest := outputs];
            && L.ZeroSound(table') && AllFiled(table', latest') && AllCurrent(table', second', latest', true)
            && Known(table', digest)
            && (IsSettled(table, second, latest) && L.Fits(table, L.KeyOf(digest)) ==>
                IsSettled(table', second', latest'))
  {
    L.StoreKeepsZeroSound(table, L.KeyOf(digest), digest, size, offset);
    L.LoadStored(table, L.KeyOf(digest), digest, size, offset);
    EnterKeepsCurrent(table, second, second', latest, digest, outputs, size, offset, true);
    if IsSettled(table, second, latest) && L.Fits(table, L.KeyOf(digest)) {
      EnterKeepsCurrent(table, second, second', latest, digest, outputs, size, offset, false);
      L.FittingStoreKeepsSound(table, L.KeyOf(digest), digest, size, offset);
    }
  }

  /** The entry a look-up finds is filed under its digest; it is current if the key is zero or the table settled. */
  lemma LoadedIsCurrent(table: L.Table, second: seq<byte>, latest: map<Digest, Outputs>, key: L.Key)
    requires AllFiled(table, latest) && AllCurrent(table, second, latest, true) && L.Load(table, key).Some?
    ensures var e := L.Load(table, key).value;
            && e.live && Filed(e, latest)
            && (key == 0 || IsSettled(table, second, latest) ==> Current(e, second, latest))
    ensures L.Fits(table, key)
  {
    var k := L.LoadFinds(table, key, 0);
    C.LoadedIsLive(table, key, 0);
    if key == 0 && !L.ZeroFits(table) {
      L.ZeroLoadMisses(table, 0);
    }
  }

  function Listed(listing: seq<Digest>): seq<L.Call> {
    seq(|listing|, i requires 0 <= i < |listing| => L.Call(L.KeyOf(listing[i]), listing[i], 0, 0))
  }

  /** What the second level gives for a digest the table knows; an entry without an offset counts as a fault. */
  ghost function FromSecond(table: L.Table, second: seq<byte>, digest: Digest): A.Restored
    requires Known(table, digest)
  {
    var e := L.Load(table, L.KeyOf(digest)).value;
    if e.offset == 0 then A.Restored([], false) else A.ReadRecord(second, e.offset - L.OFFSET_BIAS)
  }

  class Directory {
    const table: L.Cache
    const disk: A.Disk
    var second: seq<byte>
    var archives: map<Digest, seq<byte>>
    /** The outputs of the latest store under each digest. */
    ghost var latest: map<Digest, Outputs>

    ghost predicate Valid()
      reads this, table, table.entries
    {
      table.Valid() && Coherent(table.Contents(), second, archives, latest)
    }

    ghost predicate Settled()
      requires table.Valid()
      reads this, table, table.entries
    {
      IsSettled(table.Contents(), second, latest)
    }

    constructor ()
      ensures Valid() && Settled() && fresh(table) && fresh(table.entries) && fresh(disk)
      ensures latest == map[] && disk.files == map[]
    {
      table := new L.Cache();
      disk := new A.Disk();
      second, archives, latest := [], map[], map[];
      new;
      L.EmptyIsSound(table.Contents());
    }

    method AppendToSecond(data: seq<byte>) returns (offset: nat)
      modifies `second
      ensures offset == |old(second)| && second == old(second) + data
    {
      offset := |second|;
      second := second + data;
    }

    method StoreSync(digest: Digest, outputs: Outputs)
      requires Valid()
      modifies `second, `archives, `latest, table.entries
      ensures Valid() && latest == old(latest)[digest := outputs]
      ensures Known(table.Contents(), digest)
      ensures old(Settled()) && L.Fits(old(table.Contents()), L.KeyOf(digest)) ==> Settled()
    {
      var file := A.WriteArchive(digest, outputs);
      archives := archives[digest := file];
      latest := latest[digest := outputs];
      var offset := AppendToSecond(archives[digest]);
      AppendedRecord(old(second), file, digest, outputs);
      EnterKeeps(table.Contents(), old(second), second, old(latest), digest, outputs, 0, offset);
      table.StoreEntry(L.KeyOf(digest), digest, 0, offset);
    }

    /** Writes what is read at the offset, up to a fault if there is one. */
    method RestoreFromSecond(offset: nat) returns (ok: bool)
      modifies disk
      ensures ok == A.ReadRecord(second, offset).ok
      ensures disk.files == A.Apply(old(disk.files), A.ReadRecord(second, offset).outputs)
    {
      if |second| < offset + A.HEADER_SIZE {
        return false;
      }
      if Field(second, offset, 4) != A.MAGIC || Field(second, offset + 4, 4) != A.VERSION {
        return false;
      }
      var size := (A.HEADER_SIZE + Field(second, offset + 46, 4)) % A.TWO_32;
      if |second| - offset < size {
        return false;
      }
      ok := disk.RestoreOutputs(second[offset..offset + size]);
    }

    /** Writes what the archive of the latest store gives, and enters it again if there was no fault. */
    method RestoreFromArchive(digest: Digest) returns (ok: bool)
      requires Valid()
      modifies `second, table.entries, disk
      ensures Valid()
      ensures ok <==> digest in latest && A.ReadArchive(A.Encode(digest, latest[digest])).ok
      ensures disk.files ==
              if digest in latest then A.Apply(old(disk.files), A.Shown(digest, latest[digest])) else old(disk.files)
      ensures old(Settled()) && L.Fits(old(table.Contents()), L.KeyOf(digest)) ==> Settled()
    {
      if digest !in archives {
        return false;
      }
      var data := archives[digest];
      ok := disk.RestoreOutputs(data);
      if !ok {
        return;
      }
      var offset := AppendToSecond(data);
      AppendedRecord(old(second), data, digest, latest[digest]);
      EnterKeeps(table.Contents(), old(second), second, latest, digest, latest[digest], |data|, offset);
      assert latest[digest := latest[digest]] == latest;
      table.StoreEntry(L.KeyOf(digest), digest, |data|, offset);
    }

    /** A restore is a hit only if the table knows the digest. It writes what the record of the entry gives and, if that
        has a fault or there is none, what the archive of the latest store gives. If the table is settled or the key
        zero, and the outputs of the latest store are restorable, it is a hit and writes exactly these outputs. */
    method Restore(digest: Digest, outputsAsked: bool) returns (hit: bool)
      requires Valid()
      modifies `second, table.entries, disk
      ensures Valid() && (old(Settled()) ==> Settled())
      ensures !(outputsAsked && old(Known(table.Contents(), digest))) ==> !hit && disk.files == old(disk.files)
      ensures outputsAsked && old(Known(table.Contents(), digest)) ==>
        && digest in latest
        && var r, files := FromSecond(old(table.Contents()), old(second), digest), old(disk.files);
           && (hit <==> r.ok || A.ReadArchive(A.Encode(digest, latest[digest])).ok)
           && disk.files == if r.ok then A.Apply(files, r.outputs)
                            else A.Apply(A.Apply(files, r.outputs), A.Shown(digest, latest[digest]))
      ensures outputsAsked && old(Known(table.Contents(), digest)) && A.Restorable(digest, latest[digest])
              && (old(Settled()) || L.KeyOf(digest) == 0) ==>
                hit && disk.files == A.Apply(old(disk.files), latest[digest])
    {
      if !outputsAsked {
        return false;
      }
      var entry := table.LoadEntry(L.KeyOf(digest));
      if entry.Some? && entry.value.hash == digest {
        LoadedIsCurrent(table.Contents(), second, latest, L.KeyOf(digest));
        A.RoundTripIffFits(digest, latest[digest]);
        if entry.value.offset != 0 {
          ghost var offset := entry.value.offset - L.OFFSET_BIAS;
          if RecordOf(second, offset, digest, latest[digest]) {
            RecordGives(second, offset, digest, latest[digest]);
          }
          var ok := RestoreFromSecond(entry.value.offset - L.OFFSET_BIAS);
          if ok {
            return true;
          }
        }
        hit := RestoreFromArchive(digest);
        return;
      }
      return false;
    }

    /** Enters a listing of archive files; their entries point to the files, not to the second level. */
    method Preload(listing: seq<Digest>)
      requires Valid() && forall i :: 0 <= i < |listing| ==> listing[i] in archives
      modifies table.entries
      ensures Valid() && table.Contents() == L.RunFrom(old(table.Contents()), Listed(listing))
      ensures listing != [] ==> Known(table.Contents(), listing[|listing| - 1])
      ensures old(Settled()) && L.AllFit(old(table.Contents()), Listed(listing)) ==> Settled()
    {
      ghost var calls, before := Listed(listing), table.Contents();
      for i := 0 to |listing|
        invariant Valid() && archives == old(archives) && latest == old(latest) && second == old(second)
        invariant table.Contents() == L.RunFrom(before, calls[..i])
        invariant i > 0 ==> Known(table.Contents(), listing[i - 1])
        invariant old(Settled()) && L.AllFit(before, calls[..i]) ==> Settled()
      {
        L.NextCall(before, calls, i);
        EnterFile(listing[i]);
      }
      assert calls[..|listing|] == calls;
    }

    method EnterFile(digest: Digest)
      requires Valid() && digest in archives
      modifies table.entries
      ensures Valid() && table.Contents() == L.Store(old(table.Contents()), L.KeyOf(digest), digest, 0, 0)
      ensures Known(table.Contents(), digest)
      ensures old(Settled()) && L.Fits(old(table.Contents()), L.KeyOf(digest)) ==> Settled()
    {
      assert second[..|second|] == second && latest[digest := latest[digest]] == latest;
      EnterKeeps(table.Contents(), second, second, latest, digest, latest[digest], 0, 0);
      table.StoreEntry(L.KeyOf(digest), digest, 0, 0);
    }
  }
}
