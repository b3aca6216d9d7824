/** The first level of the action cache: an open-addressing table of 2^16 slots. A key is tried at 16 slots from its
    home on; when all are taken by others, the last of them is overwritten. A zero key marks an empty slot. */
module L1Table {
  import opened Wrappers
  import opened Bytes

  const COUNT := 0x1_0000
  const PROBES := 16
  const OFFSET_BIAS := 1
  const TWO_64 := 0x1_0000_0000_0000_0000

  type Key = x: int | 0 <= x < TWO_64
  type Digest = d: seq<byte> | |d| == 32 witness seq(32, _ => 0)

  datatype Entry = Entry(key: Key, hash: Digest, size: nat, offset: nat, live: bool)

  const EMPTY := Entry(0, seq(32, _ => 0), 0, 0, false)

  type Table = t: seq<Entry> | |t| == COUNT witness seq(COUNT, _ => EMPTY)

  /** The first eight bytes of the digest as a little-endian number. */
  function KeyOf(digest: Digest): Key {
    EightBytesFit(digest[..8]);
    GetLE(digest[..8])
  }

  /** Digests share a key exactly when they share the first eight bytes, the first of which weighs least. */
  lemma SameKeyIff(d: Digest, e: Digest)
    ensures KeyOf(d) == KeyOf(e) <==> d[..8] == e[..8]
    ensures forall k: nat {:trigger d[k]} :: k < 8 ==> KeyOf(d) / Pow256(k) % 256 == d[k]
  {
    PutGet(d[..8]);
    PutGet(e[..8]);
    forall k: nat {:trigger d[k]} | k < 8
      ensures KeyOf(d) / Pow256(k) % 256 == d[k]
    {
      PutAt(KeyOf(d), 8, k);
      assert d[..8][k] == d[k];
    }
  }

  lemma EightBytesFit(s: seq<byte>)
    requires |s| == 8
    ensures GetLE(s) < TWO_64
  {
    GetBound(s);
    Sizes();
  }

  /** The slot of the given probe; the sum of key and probe is taken in 64 bits. */
  function Slot(key: Key, probe: nat): (i: nat)
    ensures i < COUNT
  {
    (key + probe) % TWO_64 % COUNT
  }

  lemma NextSlot(key: Key, probe: nat)
    ensures Slot(key, probe + 1) == (Slot(key, probe) + 1) % COUNT
  {
    assert TWO_64 == 0x1_0000_0000_0000 * COUNT;
    SlotIsSum(key, probe);
    SlotIsSum(key, probe + 1);
  }

  lemma SlotIsSum(key: Key, probe: nat)
    ensures Slot(key, probe) == (key + probe) % COUNT
  {
    var s := key + probe;
    assert s == (s / TWO_64) * 0x1_0000_0000_0000 * COUNT + s % TWO_64;
    assert s % TWO_64 == (s % TWO_64) / COUNT * COUNT + s % TWO_64 % COUNT;
    ModUnique(s, (s / TWO_64) * 0x1_0000_0000_0000 + (s % TWO_64) / COUNT, COUNT, s % TWO_64 % COUNT);
  }

  lemma SlotsDiffer(key: Key, p: nat, q: nat)
    requires p < q < PROBES
    ensures Slot(key, p) != Slot(key, q)
  {
    SlotIsSum(key, p);
    SlotIsSum(key, q);
  }

  // ---------------------------------------------------------------- look-up and insertion

  /** The entry a look-up returns that has already tried the probes before `probe`. */
  function LoadFrom(t: Table, key: Key, probe: nat): Option<Entry>
    decreases PROBES - probe
  {
    if probe >= PROBES then None
    else
      var e := t[Slot(key, probe)];
      if e.key != key then
        if e.key == 0 then None else LoadFrom(t, key, probe + 1)
      else if !e.live then None
      else Some(e)
  }

  function Load(t: Table, key: Key): Option<Entry> {
    LoadFrom(t, key, 0)
  }

  /** The probe at which an insertion that has passed the probes before `probe` ends. */
  function TargetFrom(t: Table, key: Key, probe: nat): (p: nat)
    requires probe < PROBES
    ensures probe <= p < PROBES
    decreases PROBES - probe
  {
    var e := t[Slot(key, probe)];
    if e.key == 0 || e.key == key || probe == PROBES - 1 then probe else TargetFrom(t, key, probe + 1)
  }

  function NewEntry(key: Key, hash: Digest, size: nat, offset: nat): Entry {
    Entry(key, hash, size, if offset != 0 then offset + OFFSET_BIAS else offset, true)
  }

  function Store(t: Table, key: Key, hash: Digest, size: nat, offset: nat): Table {
    t[Slot(key, TargetFrom(t, key, 0)) := NewEntry(key, hash, size, offset)]
  }

  /** The table of the program, with the loops of `l1Load` and `l1Store`. */
  class Cache {
    const entries: array<Entry>

    ghost predicate Valid()
      reads this
    {
      entries.Length == COUNT
    }

    ghost function Contents(): Table
      requires Valid()
      reads this, entries
    {
      entries[..]
    }

    constructor ()
      ensures Valid() && fresh(entries)
      ensures forall i :: 0 <= i < COUNT ==> Contents()[i] == EMPTY
    {
      entries := new Entry[COUNT](_ => EMPTY);
    }

    method LoadEntry(key: Key) returns (r: Option<Entry>)
      requires Valid()
      ensures r == Load(Contents(), key)
    {
      for probe := 0 to PROBES
        invariant Load(Contents(), key) == LoadFrom(Contents(), key, probe)
      {
        var entry := entries[Slot(key, probe)];
        if entry.key != key {
          if entry.key == 0 {
            return None;
          }
        } else if !entry.live {
          return None;
        } else {
          return Some(entry);
        }
      }
      return None;
    }

    method StoreEntry(key: Key, hash: Digest, size: nat, offset: nat)
      requires Valid()
      modifies entries
      ensures Valid() && Contents() == Store(old(Contents()), key, hash, size, offset)
    {
      var biased := if offset != 0 then offset + OFFSET_BIAS else offset;
      var idx := Slot(key, 0);
      var probe := 0;
      while probe < PROBES
        invariant probe < PROBES && idx == Slot(key, probe)
        invariant entries[..] == old(entries[..])
        invariant TargetFrom(Contents(), key, 0) == TargetFrom(Contents(), key, probe)
      {
        var current := entries[idx].key;
        if current == 0 || current == key || probe == PROBES - 1 {
          entries[idx] := Entry(key, hash, size, biased, true);
          return;
        }
        NextSlot(key, probe);
        idx := (idx + 1) % COUNT;
        probe := probe + 1;
      }
    }
  }

  // ---------------------------------------------------------------- what every table keeps

  /** The entry in slot `i` is where an insertion would look for its key: before it come only other keys. */
  ghost predicate Reachable(t: Table, i: nat, probe: nat)
    requires i < COUNT
  {
    && probe < PROBES && i == Slot(t[i].key, probe)
    && forall q :: 0 <= q < probe ==> t[Slot(t[i].key, q)].key != 0 && t[Slot(t[i].key, q)].key != t[i].key
  }

  ghost predicate InPlace(t: Table, i: nat)
    requires i < COUNT
  {
    t[i].key != 0 ==> t[i].live && exists probe :: Reachable(t, i, probe)
  }

  ghost predicate KeyInPlace(t: Table, key: Key) {
    forall i {:trigger InPlace(t, i)} :: 0 <= i < COUNT && t[i].key == key ==> InPlace(t, i)
  }

  ghost predicate Sound(t: Table) {
    forall i {:trigger InPlace(t, i)} :: 0 <= i < COUNT ==> InPlace(t, i)
  }

  lemma EmptyIsSound(t: Table)
    requires forall i :: 0 <= i < COUNT ==> t[i].key == 0
    ensures Sound(t)
  {
  }

  lemma {:induction false} LoadReaches(t: Table, i: nat, probe: nat, p: nat)
    requires i < COUNT && t[i].live && Reachable(t, i, probe) && p <= probe
    ensures LoadFrom(t, t[i].key, p) == Some(t[i])
    decreases probe - p
  {
    if p < probe {
      LoadReaches(t, i, probe, p + 1);
    }
  }

  lemma {:induction false} LoadFinds(t: Table, key: Key, p: nat) returns (i: nat)
    requires LoadFrom(t, key, p).Some?
    ensures i < COUNT && t[i].key == key && LoadFrom(t, key, p) == Some(t[i])
    decreases PROBES - p
  {
    if t[Slot(key, p)].key == key {
      i := Slot(key, p);
    } else {
      i := LoadFinds(t, key, p + 1);
    }
  }

  /** A look-up returns the entry of the key wherever it is in its place. */
  lemma LoadAt(t: Table, i: nat)
    requires i < COUNT && InPlace(t, i) && t[i].key != 0
    ensures Load(t, t[i].key) == Some(t[i])
  {
    var probe: nat :| Reachable(t, i, probe);
    LoadReaches(t, i, probe, 0);
  }

  /** A non-zero key is in at most one slot. */
  lemma OneSlotPerKey(t: Table, i: nat, j: nat)
    requires i < COUNT && j < COUNT && t[i].key == t[j].key != 0 && KeyInPlace(t, t[i].key)
    ensures i == j
  {
    assert InPlace(t, i) && InPlace(t, j);
    var p :| Reachable(t, i, p);
    var q :| Reachable(t, j, q);
    assert t[Slot(t[i].key, p)].key == t[i].key && t[Slot(t[i].key, q)].key == t[i].key;
  }

  /** A look-up misses exactly when no slot has the key. */
  lemma LoadMisses(t: Table, key: Key)
    requires KeyInPlace(t, key) && key != 0
    ensures Load(t, key).None? <==> forall i :: 0 <= i < COUNT ==> t[i].key != key
  {
    if Load(t, key).Some? {
      var i := LoadFinds(t, key, 0);
    } else {
      forall i | 0 <= i < COUNT
        ensures t[i].key != key
      {
        if t[i].key == key {
          assert InPlace(t, i);
          LoadAt(t, i);
        }
      }
    }
  }

  lemma {:induction false} TargetPasses(t: Table, key: Key, from: nat, q: nat)
    requires from < PROBES && from <= q < TargetFrom(t, key, from)
    ensures t[Slot(key, q)].key != 0 && t[Slot(key, q)].key != key
    decreases PROBES - from
  {
    if from < q {
      TargetPasses(t, key, from + 1, q);
    }
  }

  lemma {:induction false} TargetStops(t: Table, key: Key, from: nat)
    requires from < PROBES
    ensures var p := TargetFrom(t, key, from);
            p == PROBES - 1 || t[Slot(key, p)].key == 0 || t[Slot(key, p)].key == key
    decreases PROBES - from
  {
    if TargetFrom(t, key, from) != from {
      TargetStops(t, key, from + 1);
    }
  }

  /** If the key is already there, the insertion ends at its slot. */
  lemma TargetOfPresent(t: Table, i: nat)
    requires i < COUNT && InPlace(t, i) && t[i].key != 0
    ensures Slot(t[i].key, TargetFrom(t, t[i].key, 0)) == i
  {
    var key := t[i].key;
    var probe: nat :| Reachable(t, i, probe);
    var p := TargetFrom(t, key, 0);
    TargetStops(t, key, 0);
    if probe < p {
      TargetPasses(t, key, 0, probe);
    }
  }

  lemma StoredReachable(t: Table, key: Key, hash: Digest, size: nat, offset: nat) returns (p: nat)
    ensures p == TargetFrom(t, key, 0) && Reachable(Store(t, key, hash, size, offset), Slot(key, p), p)
  {
    p := TargetFrom(t, key, 0);
    var t' := Store(t, key, hash, size, offset);
    forall q | 0 <= q < p
      ensures t'[Slot(key, q)].key != 0 && t'[Slot(key, q)].key != key
    {
      TargetPasses(t, key, 0, q);
      SlotsDiffer(key, q, p);
    }
  }

  /** In any table, a look-up right after a store finds what was stored. */
  lemma LoadStored(t: Table, key: Key, hash: Digest, size: nat, offset: nat)
    ensures Load(Store(t, key, hash, size, offset), key) == Some(NewEntry(key, hash, size, offset))
  {
    var t' := Store(t, key, hash, size, offset);
    var probe := StoredReachable(t, key, hash, size, offset);
    LoadReaches(t', Slot(key, probe), probe, 0);
  }

  lemma OthersInPlace(t: Table, key: Key, hash: Digest, size: nat, offset: nat, i: nat)
    requires key != 0 && i < COUNT && i != Slot(key, TargetFrom(t, key, 0)) && InPlace(t, i)
    ensures InPlace(Store(t, key, hash, size, offset), i)
  {
    var t' := Store(t, key, hash, size, offset);
    if t[i].key != 0 {
      if t[i].key == key {
        TargetOfPresent(t, i);
      }
      var probe: nat :| Reachable(t, i, probe);
      assert Reachable(t', i, probe);
    }
  }

  lemma StoreKeepsInPlace(t: Table, key: Key, hash: Digest, size: nat, offset: nat, other: Key)
    requires key != 0 && KeyInPlace(t, other)
    ensures KeyInPlace(Store(t, key, hash, size, offset), other)
  {
    var t' := Store(t, key, hash, size, offset);
    forall i {:trigger InPlace(t', i)} | 0 <= i < COUNT && t'[i].key == other
      ensures InPlace(t', i)
    {
      if i == Slot(key, TargetFrom(t, key, 0)) {
        var probe := StoredReachable(t, key, hash, size, offset);
      } else {
        assert InPlace(t, i);
        OthersInPlace(t, key, hash, size, offset, i);
      }
    }
  }

  /** Storing under a non-zero key keeps the table sound. */
  lemma StoreKeepsSound(t: Table, key: Key, hash: Digest, size: nat, offset: nat)
    requires Sound(t) && key != 0
    ensures Sound(Store(t, key, hash, size, offset))
  {
    var t' := Store(t, key, hash, size, offset);
    forall i | 0 <= i < COUNT
      ensures InPlace(t', i)
    {
      assert InPlace(t, i);
      StoreKeepsInPlace(t, key, hash, size, offset, t'[i].key);
    }
  }

  /** All sixteen slots of `key` hold other keys, `victim` in the last one. */
  ghost predicate Evicts(t: Table, key: Key, victim: Key) {
    && (forall p :: 0 <= p < PROBES ==> t[Slot(key, p)].key != 0 && t[Slot(key, p)].key != key)
    && t[Slot(key, PROBES - 1)].key == victim
  }

  lemma LosingIsEviction(t: Table, key: Key, victim: Key)
    requires victim != 0 && victim != key
    ensures t[Slot(key, TargetFrom(t, key, 0))].key == victim <==> Evicts(t, key, victim)
  {
    var p := TargetFrom(t, key, 0);
    TargetStops(t, key, 0);
    if t[Slot(key, p)].key == victim {
      forall q | 0 <= q < PROBES
        ensures t[Slot(key, q)].key != 0 && t[Slot(key, q)].key != key
      {
        if q < p {
          TargetPasses(t, key, 0, q);
        }
      }
    }
  }

  /** The insertion of `key` ends at the slot of `other`. */
  ghost predicate Loses(t: Table, key: Key, other: Key) {
    var e := t[Slot(key, TargetFrom(t, key, 0))];
    e.live && e.key == other != key
  }

  /** Among non-zero keys a table is a map with eviction: after a store the key has its new entry, the entry in the
      last of sixteen slots taken by others is gone, and every other key has what it had. */
  lemma NonZeroStoreThenLoad(t: Table, key: Key, hash: Digest, size: nat, offset: nat, other: Key)
    requires KeyInPlace(t, other) && key != 0 && other != 0
    ensures Load(Store(t, key, hash, size, offset), other) ==
            if other == key then Some(NewEntry(key, hash, size, offset))
            else if Evicts(t, key, other) then None
            else Load(t, other)
  {
    var t' := Store(t, key, hash, size, offset);
    var at := Slot(key, TargetFrom(t, key, 0));
    if other == key {
      LoadStored(t, key, hash, size, offset);
    } else {
      StoreKeepsInPlace(t, key, hash, size, offset, other);
      LosingIsEviction(t, key, other);
      LoadMisses(t, other);
      LoadMisses(t', other);
      if Load(t', other).Some? {
        var i := LoadFinds(t', other, 0);
        assert InPlace(t, i);
        LoadAt(t, i);
      } else if Load(t, other).Some? {
        var i := LoadFinds(t, other, 0);
        assert t'[i].key != other;
        OneSlotPerKey(t, i, at);
      }
      if Evicts(t, key, other) && Load(t', other).Some? {
        var i := LoadFinds(t', other, 0);
        OneSlotPerKey(t, i, at);
      }
    }
  }

  // ---------------------------------------------------------------- the key zero

  /** Among the slots of key zero one is empty, or already holds an entry of key zero. */
  ghost predicate ZeroFits(t: Table) {
    exists p :: 0 <= p < PROBES && t[p].key == 0
  }

  /** At most one slot holds an entry of key zero, and no empty slot comes before it. */
  ghost predicate ZeroSound(t: Table) {
    forall i {:trigger t[i]} :: 0 <= i < COUNT && t[i].key == 0 && t[i].live ==> IsFirstZero(t, i)
  }

  ghost predicate IsFirstZero(t: Table, i: nat)
    requires i < COUNT
  {
    i < PROBES && t[i].key == 0 && forall q {:trigger t[q]} :: 0 <= q < i ==> t[q].key != 0
  }

  lemma ZeroSlot(p: nat)
    requires p < PROBES
    ensures Slot(0, p) == p
  {
    SlotIsSum(0, p);
  }

  /** An insertion under key zero ends at the first slot with key zero, or at the sixteenth. */
  lemma {:induction false} ZeroTarget(t: Table, from: nat)
    requires from < PROBES && forall q :: 0 <= q < from ==> t[q].key != 0
    ensures var p := TargetFrom(t, 0, from);
            && (forall q :: 0 <= q < p ==> t[q].key != 0)
            && (t[p].key == 0 <==> ZeroFits(t)) && (!ZeroFits(t) ==> p == PROBES - 1)
    decreases PROBES - from
  {
    ZeroSlot(from);
    if t[from].key != 0 && from < PROBES - 1 {
      ZeroTarget(t, from + 1);
    }
  }

  /** A look-up of key zero ends at the first slot with key zero. */
  lemma {:induction false} ZeroLoadFrom(t: Table, from: nat, p: nat)
    requires from <= p < PROBES && IsFirstZero(t, p)
    ensures LoadFrom(t, 0, from) == if t[p].live then Some(t[p]) else None
    decreases p - from
  {
    ZeroSlot(from);
    if from < p {
      ZeroLoadFrom(t, from + 1, p);
    }
  }

  lemma {:induction false} ZeroLoadMisses(t: Table, from: nat)
    requires !ZeroFits(t)
    ensures LoadFrom(t, 0, from) == None
    decreases PROBES - from
  {
    if from < PROBES {
      ZeroSlot(from);
      ZeroLoadMisses(t, from + 1);
    }
  }

  lemma {:induction false} FirstZero(t: Table, p: nat) returns (first: nat)
    requires p < PROBES && t[p].key == 0
    ensures first <= p && IsFirstZero(t, first)
    decreases p
  {
    if q :| 0 <= q < p && t[q].key == 0 {
      first := FirstZero(t, q);
    } else {
      first := p;
    }
  }

  /** A look-up of key zero finds the live entry of key zero wherever it is, and nothing else. */
  lemma ZeroLoad(t: Table)
    requires ZeroSound(t)
    ensures Load(t, 0).None? <==> forall i :: 0 <= i < COUNT ==> !(t[i].key == 0 && t[i].live)
    ensures forall i {:trigger t[i]} :: 0 <= i < COUNT && t[i].key == 0 && t[i].live ==> Load(t, 0) == Some(t[i])
  {
    forall i {:trigger t[i]} | 0 <= i < COUNT && t[i].key == 0 && t[i].live
      ensures Load(t, 0) == Some(t[i])
    {
      ZeroLoadFrom(t, 0, i);
    }
    if Load(t, 0).Some? {
      if p :| 0 <= p < PROBES && t[p].key == 0 {
        var first := FirstZero(t, p);
        ZeroLoadFrom(t, 0, first);
      } else {
        ZeroLoadMisses(t, 0);
      }
    }
  }

  lemma OneZero(t: Table, i: nat)
    requires ZeroSound(t) && i < COUNT && t[i].key == 0 && t[i].live
    ensures forall k {:trigger t[k]} :: 0 <= k < COUNT && t[k].key == 0 && t[k].live ==> k == i
  {
    assert IsFirstZero(t, i);
  }

  /** No store, under whatever key, makes a second live entry of key zero. */
  lemma StoreKeepsZeroSound(t: Table, key: Key, hash: Digest, size: nat, offset: nat)
    requires ZeroSound(t)
    ensures ZeroSound(Store(t, key, hash, size, offset))
  {
    var t' := Store(t, key, hash, size, offset);
    if key == 0 {
      ZeroTarget(t, 0);
      ZeroSlot(TargetFrom(t, 0, 0));
    }
    forall i {:trigger t'[i]} | 0 <= i < COUNT && t'[i].key == 0 && t'[i].live
      ensures IsFirstZero(t', i)
    {
      if t'[i] == t[i] {
        assert IsFirstZero(t, i);
      }
    }
  }

  /** The key zero loses its entry exactly when a store of another key ends there. */
  lemma StoreThenLoadZero(t: Table, key: Key, hash: Digest, size: nat, offset: nat)
    requires ZeroSound(t)
    ensures Load(Store(t, key, hash, size, offset), 0) ==
            if key == 0 then Some(NewEntry(0, hash, size, offset))
            else if Loses(t, key, 0) then None
            else Load(t, 0)
  {
    var t' := Store(t, key, hash, size, offset);
    var at := Slot(key, TargetFrom(t, key, 0));
    StoreKeepsZeroSound(t, key, hash, size, offset);
    ZeroLoad(t);
    ZeroLoad(t');
    assert t'[at].live;
    if key == 0 {
      assert t'[at].key == 0;
    } else if i :| 0 <= i < COUNT && t[i].key == 0 && t[i].live {
      assert i != at ==> t'[i] == t[i];
      assert i == at <==> Loses(t, key, 0);
      if i == at {
        assert forall k {:trigger t'[k]} :: 0 <= k < COUNT && t'[k].key == 0 && t'[k].live ==> t'[k] == t[k];
        OneZero(t, i);
      }
    }
  }

  /** A store under key zero that fits changes no slot of a non-zero key, so all keys stay in place. */
  lemma ZeroStoreKeepsInPlace(t: Table, hash: Digest, size: nat, offset: nat, other: Key)
    requires ZeroFits(t) && other != 0 && KeyInPlace(t, other)
    ensures KeyInPlace(Store(t, 0, hash, size, offset), other)
  {
    var t' := Store(t, 0, hash, size, offset);
    ZeroTarget(t, 0);
    ZeroSlot(TargetFrom(t, 0, 0));
    forall i {:trigger InPlace(t', i)} | 0 <= i < COUNT && t'[i].key == other
      ensures InPlace(t', i)
    {
      assert InPlace(t, i);
      var probe :| Reachable(t, i, probe);
      assert Reachable(t', i, probe);
    }
  }

  lemma FittingZeroStore(t: Table, hash: Digest, size: nat, offset: nat, other: Key)
    requires KeyInPlace(t, other) && ZeroFits(t) && other != 0
    ensures Load(Store(t, 0, hash, size, offset), other) == Load(t, other)
  {
    var t' := Store(t, 0, hash, size, offset);
    ZeroTarget(t, 0);
    ZeroSlot(TargetFrom(t, 0, 0));
    ZeroStoreKeepsInPlace(t, hash, size, offset, other);
    LoadMisses(t, other);
    LoadMisses(t', other);
    if Load(t, other).Some? {
      var i := LoadFinds(t, other, 0);
      assert InPlace(t', i);
      LoadAt(t', i);
    }
  }

  lemma {:induction false} HoleStops(t: Table, key: Key, from: nat, q: nat)
    requires key != 0 && from <= q < PROBES && t[Slot(key, q)].key == 0
    requires forall p :: from <= p < q ==> t[Slot(key, p)].key != key
    ensures LoadFrom(t, key, from) == None
    decreases q - from
  {
    if from < q {
      HoleStops(t, key, from + 1, q);
    }
  }

  /** The way to the entry in slot `i` leads over slot 15. */
  ghost predicate Crosses(t: Table, i: nat, probe: nat)
    requires i < COUNT
  {
    exists q :: 0 <= q <= probe && Slot(t[i].key, q) == PROBES - 1
  }

  lemma Hidden(t: Table, e: Entry, i: nat, probe: nat)
    requires i < COUNT && t[i].key != 0 && Reachable(t, i, probe) && Crosses(t, i, probe) && e.key == 0
    ensures Load(t[PROBES - 1 := e], t[i].key).None?
  {
    var key := t[i].key;
    var q :| 0 <= q <= probe && Slot(key, q) == PROBES - 1;
    forall p | 0 <= p < q
      ensures t[PROBES - 1 := e][Slot(key, p)].key != key
    {
      SlotsDiffer(key, p, q);
    }
    HoleStops(t[PROBES - 1 := e], key, 0, q);
  }

  lemma NotHidden(t: Table, e: Entry, i: nat, probe: nat)
    requires i < COUNT && t[i].key != 0 && t[i].live && Reachable(t, i, probe) && !Crosses(t, i, probe)
    ensures Load(t[PROBES - 1 := e], t[i].key) == Some(t[i])
  {
    var t' := t[PROBES - 1 := e];
    forall q | 0 <= q <= probe
      ensures t'[Slot(t[i].key, q)] == t[Slot(t[i].key, q)]
    {
      assert Slot(t[i].key, q) != PROBES - 1;
    }
    assert t'[i] == t[i];
    LoadReaches(t', i, probe, 0);
  }

  /** A store under key zero that does not fit leaves a hole in slot 15: it hides exactly the keys that are tried
      there on the way to their entry. */
  lemma ForcedZeroStore(t: Table, hash: Digest, size: nat, offset: nat, i: nat, probe: nat)
    requires !ZeroFits(t) && i < COUNT && t[i].key != 0 && t[i].live && Reachable(t, i, probe)
    ensures Load(Store(t, 0, hash, size, offset), t[i].key) == if Crosses(t, i, probe) then None else Some(t[i])
  {
    var e := NewEntry(0, hash, size, offset);
    ZeroTarget(t, 0);
    ZeroSlot(PROBES - 1);
    if Crosses(t, i, probe) {
      Hidden(t, e, i, probe);
    } else {
      NotHidden(t, e, i, probe);
    }
  }

  /** A store under key zero leaves all other keys alone exactly when it fits: among the first sixteen slots one is
      empty or already of key zero. */
  lemma ZeroStoreIsHarmlessIff(t: Table, hash: Digest, size: nat, offset: nat)
    requires Sound(t)
    ensures (forall other: Key :: other != 0 ==> Load(Store(t, 0, hash, size, offset), other) == Load(t, other))
            <==> ZeroFits(t)
  {
    if ZeroFits(t) {
      forall other: Key | other != 0
        ensures Load(Store(t, 0, hash, size, offset), other) == Load(t, other)
      {
        FittingZeroStore(t, hash, size, offset, other);
      }
    } else {
      var i := PROBES - 1;
      var victim := t[i].key;
      assert InPlace(t, i);
      var probe: nat :| Reachable(t, i, probe);
      LoadAt(t, i);
      ForcedZeroStore(t, hash, size, offset, i, probe);
      assert victim != 0 && Load(Store(t, 0, hash, size, offset), victim) != Load(t, victim);
    }
  }

  /** A store that keeps all it should: under a non-zero key, or under key zero when that fits. */
  ghost predicate Fits(t: Table, key: Key) {
    key != 0 || ZeroFits(t)
  }

  lemma FittingStoreKeepsSound(t: Table, key: Key, hash: Digest, size: nat, offset: nat)
    requires Sound(t) && Fits(t, key)
    ensures Sound(Store(t, key, hash, size, offset))
  {
    if key == 0 {
      var t' := Store(t, key, hash, size, offset);
      forall i | 0 <= i < COUNT
        ensures InPlace(t', i)
      {
        if t'[i].key != 0 {
          ZeroStoreKeepsInPlace(t, hash, size, offset, t'[i].key);
        }
      }
    } else {
      StoreKeepsSound(t, key, hash, size, offset);
    }
  }

  /** The store under key zero leaves a hole on the way to the entry of `other`, which stays behind it. */
  ghost predicate Hides(t: Table, key: Key, other: Key) {
    && key == 0 && !ZeroFits(t) && other != 0
    && exists i: nat, probe: nat {:trigger Reachable(t, i, probe)} ::
         i < COUNT && i != PROBES - 1 && t[i].key == other && Reachable(t, i, probe) && Crosses(t, i, probe)
  }

  lemma {:induction false} LoadAbsent(t: Table, key: Key)
    requires forall i :: 0 <= i < COUNT ==> t[i].key != key
    ensures Load(t, key) == None
  {
    if Load(t, key).Some? {
      var i := LoadFinds(t, key, 0);
    }
  }

  lemma ForcedZeroThenLoad(t: Table, hash: Digest, size: nat, offset: nat, other: Key)
    requires !ZeroFits(t) && other != 0 && KeyInPlace(t, other)
    ensures Load(Store(t, 0, hash, size, offset), other) ==
            if t[PROBES - 1].key == other || Hides(t, 0, other) then None else Load(t, other)
  {
    if t[PROBES - 1].key == other {
      var i := PROBES - 1;
      assert InPlace(t, i);
      var probe: nat :| Reachable(t, i, probe);
      ForcedZeroStore(t, hash, size, offset, i, probe);
    } else if Hides(t, 0, other) {
      var i: nat, probe: nat :| i < COUNT && i != PROBES - 1 && t[i].key == other && Reachable(t, i, probe) &&
        Crosses(t, i, probe);
      assert InPlace(t, i);
      ForcedZeroStore(t, hash, size, offset, i, probe);
    } else if Load(t, other).Some? {
      var i := LoadFinds(t, other, 0);
      assert InPlace(t, i);
      var probe: nat :| Reachable(t, i, probe);
      ForcedZeroStore(t, hash, size, offset, i, probe);
    } else {
      LoadMisses(t, other);
      LoadAbsent(Store(t, 0, hash, size, offset), other);
    }
  }

  lemma ZeroLoses(t: Table, other: Key)
    requires other != 0 && KeyInPlace(t, other)
    ensures Loses(t, 0, other) <==> !ZeroFits(t) && t[PROBES - 1].key == other
  {
    ZeroTarget(t, 0);
    ZeroSlot(TargetFrom(t, 0, 0));
    assert t[PROBES - 1].key == other ==> InPlace(t, PROBES - 1);
  }

  /** The table is a map with eviction, for every key stored and every key asked for: the key has its new entry, the
      key whose slot was taken has none, nor has one hidden by a hole, and every other key has what it had. */
  lemma StoreThenLoad(t: Table, key: Key, hash: Digest, size: nat, offset: nat, other: Key)
    requires if other == 0 then ZeroSound(t) else KeyInPlace(t, other)
    ensures Load(Store(t, key, hash, size, offset), other) ==
            if other == key then Some(NewEntry(key, hash, size, offset))
            else if Loses(t, key, other) || Hides(t, key, other) then None
            else Load(t, other)
  {
    if other == 0 {
      StoreThenLoadZero(t, key, hash, size, offset);
    } else if key == 0 {
      ZeroLoses(t, other);
      if ZeroFits(t) {
        FittingZeroStore(t, hash, size, offset, other);
      } else {
        ForcedZeroThenLoad(t, hash, size, offset, other);
      }
    } else {
      NonZeroStoreThenLoad(t, key, hash, size, offset, other);
      if other != key {
        LosingIsEviction(t, key, other);
        assert t[Slot(key, TargetFrom(t, key, 0))].key == other ==> InPlace(t, Slot(key, TargetFrom(t, key, 0)));
      }
    }
  }

  // ---------------------------------------------------------------- whole runs

  datatype Call = Call(key: Key, hash: Digest, size: nat, offset: nat)

  function RunFrom(t: Table, calls: seq<Call>): Table {
    if calls == [] then t
    else
      var last := calls[|calls| - 1];
      Store(RunFrom(t, calls[..|calls| - 1]), last.key, last.hash, last.size, last.offset)
  }

  /** The entry of the last call for `key`. */
  function LastEntry(calls: seq<Call>, key: Key): Option<Entry> {
    if calls == [] then None
    else
      var last := calls[|calls| - 1];
      if last.key == key then Some(NewEntry(last.key, last.hash, last.size, last.offset))
      else LastEntry(calls[..|calls| - 1], key)
  }

  /** Every call under key zero fits when it is made. */
  ghost predicate AllFit(t: Table, calls: seq<Call>) {
    calls != [] ==>
      var before := calls[..|calls| - 1];
      AllFit(t, before) && Fits(RunFrom(t, before), calls[|calls| - 1].key)
  }

  lemma NextCall(t: Table, calls: seq<Call>, i: nat)
    requires i < |calls|
    ensures var before, c := RunFrom(t, calls[..i]), calls[i];
            && RunFrom(t, calls[..i + 1]) == Store(before, c.key, c.hash, c.size, c.offset)
            && (AllFit(t, calls[..i + 1]) <==> AllFit(t, calls[..i]) && Fits(before, c.key))
  {
    assert calls[..i + 1][..i] == calls[..i];
  }

  lemma {:induction false} RunKeepsZeroSound(t: Table, calls: seq<Call>)
    requires ZeroSound(t)
    ensures ZeroSound(RunFrom(t, calls))
  {
    if calls != [] {
      var before, last := calls[..|calls| - 1], calls[|calls| - 1];
      RunKeepsZeroSound(t, before);
      StoreKeepsZeroSound(RunFrom(t, before), last.key, last.hash, last.size, last.offset);
    }
  }

  /** When the last call for `key` was made, the key was in no slot but the one written. */
  ghost predicate StoredAlone(t: Table, calls: seq<Call>, key: Key) {
    calls != [] ==>
      var before := calls[..|calls| - 1];
      if calls[|calls| - 1].key != key then StoredAlone(t, before, key)
      else
        var t' := RunFrom(t, before);
        forall i {:trigger t'[i]} :: 0 <= i < COUNT && t'[i].key == key ==> i == Slot(key, TargetFrom(t', key, 0))
  }

  lemma {:induction false} LiveIsLast(t: Table, calls: seq<Call>, key: Key)
    requires key != 0 && (forall i :: 0 <= i < COUNT ==> t[i] == EMPTY) && StoredAlone(t, calls, key)
    ensures forall i {:trigger RunFrom(t, calls)[i]} :: 0 <= i < COUNT && RunFrom(t, calls)[i].key == key ==>
      LastEntry(calls, key) == Some(RunFrom(t, calls)[i])
  {
    if calls != [] && calls[|calls| - 1].key != key {
      LiveIsLast(t, calls[..|calls| - 1], key);
    }
  }

  /** A look-up after any calls gives the last entry stored for the key, or nothing: for key zero whatever the calls,
      for another if it was stored alone, whatever happened to it before. */
  lemma LoadIsLastOrNothing(t: Table, calls: seq<Call>, key: Key)
    requires forall i :: 0 <= i < COUNT ==> t[i] == EMPTY
    requires key == 0 || StoredAlone(t, calls, key)
    ensures Load(RunFrom(t, calls), key).Some? ==> Load(RunFrom(t, calls), key) == LastEntry(calls, key)
  {
    if key == 0 {
      ZeroIsLastOrNothing(t, calls);
    } else if Load(RunFrom(t, calls), key).Some? {
      LiveIsLast(t, calls, key);
      var i := LoadFinds(RunFrom(t, calls), key, 0);
    }
  }

  lemma {:induction false} ZeroIsLastOrNothing(t: Table, calls: seq<Call>)
    requires forall i :: 0 <= i < COUNT ==> t[i] == EMPTY
    ensures Load(RunFrom(t, calls), 0).Some? ==> Load(RunFrom(t, calls), 0) == LastEntry(calls, 0)
  {
    if calls == [] {
      ZeroLoad(t);
    } else {
      var before, last := calls[..|calls| - 1], calls[|calls| - 1];
      ZeroIsLastOrNothing(t, before);
      RunKeepsZeroSound(t, before);
      StoreThenLoadZero(RunFrom(t, before), last.key, last.hash, last.size, last.offset);
    }
  }

  /** No call leaves a hole before the entry of `key`. */
  ghost predicate NeverHidden(t: Table, calls: seq<Call>, key: Key) {
    calls != [] ==>
      var before := calls[..|calls| - 1];
      NeverHidden(t, before, key) && !Hides(RunFrom(t, before), calls[|calls| - 1].key, key)
  }

  lemma ForcedZeroKeepsInPlace(t: Table, hash: Digest, size: nat, offset: nat, other: Key)
    requires !ZeroFits(t) && other != 0 && KeyInPlace(t, other) && !Hides(t, 0, other)
    ensures KeyInPlace(Store(t, 0, hash, size, offset), other)
  {
    var t' := Store(t, 0, hash, size, offset);
    ZeroTarget(t, 0);
    ZeroSlot(PROBES - 1);
    forall i {:trigger InPlace(t', i)} | 0 <= i < COUNT && t'[i].key == other
      ensures InPlace(t', i)
    {
      assert InPlace(t, i);
      var probe: nat :| Reachable(t, i, probe);
      assert !Crosses(t, i, probe);
      assert Reachable(t', i, probe);
    }
  }

  /** A store under whatever key leaves a key it does not hide in its place. */
  lemma UnhiddenStaysInPlace(t: Table, key: Key, hash: Digest, size: nat, offset: nat, other: Key)
    requires other != 0 && KeyInPlace(t, other) && !Hides(t, key, other)
    ensures KeyInPlace(Store(t, key, hash, size, offset), other)
  {
    if key != 0 {
      StoreKeepsInPlace(t, key, hash, size, offset, other);
    } else if ZeroFits(t) {
      ZeroStoreKeepsInPlace(t, hash, size, offset, other);
    } else {
      ForcedZeroKeepsInPlace(t, hash, size, offset, other);
    }
  }

  /** A key that no call has hidden is in its place, and stored alone; none is hidden if the calls under key zero
      fit. */
  lemma {:induction false} UnhiddenIsStoredAlone(t: Table, calls: seq<Call>, key: Key)
    requires key != 0 && (forall i :: 0 <= i < COUNT ==> t[i] == EMPTY)
    ensures NeverHidden(t, calls, key) ==> KeyInPlace(RunFrom(t, calls), key) && StoredAlone(t, calls, key)
    ensures AllFit(t, calls) ==> NeverHidden(t, calls, key)
  {
    if calls != [] {
      var before, last := calls[..|calls| - 1], calls[|calls| - 1];
      UnhiddenIsStoredAlone(t, before, key);
      var t' := RunFrom(t, before);
      if NeverHidden(t, calls, key) {
        UnhiddenStaysInPlace(t', last.key, last.hash, last.size, last.offset, key);
        forall i {:trigger t'[i]} | 0 <= i < COUNT && t'[i].key == key
          ensures i == Slot(key, TargetFrom(t', key, 0))
        {
          assert InPlace(t', i);
          TargetOfPresent(t', i);
        }
      }
    }
  }

  // ---------------------------------------------------------------- stores under key zero that do not fit

  /** Slots 0 to 15 taken by keys at home there, a second key of home 15 in slot 16. */
  function CrowdedTable(): Table {
    seq(COUNT, i requires 0 <= i < COUNT =>
      if i < 16 then Entry(COUNT + i, EMPTY.hash, 0, 0, true)
      else if i == 16 then Entry(2 * COUNT + 15, EMPTY.hash, 0, 0, true)
      else EMPTY)
  }

  lemma {:induction false} CrowdedTarget(from: nat)
    requires from < PROBES
    ensures TargetFrom(CrowdedTable(), 0, from) == PROBES - 1
    decreases PROBES - from
  {
    SlotIsSum(0, from);
    if from < PROBES - 1 {
      CrowdedTarget(from + 1);
    }
  }

  lemma CrowdedIsSound()
    ensures Sound(CrowdedTable())
  {
    var t := CrowdedTable();
    forall i | 0 <= i < COUNT
      ensures InPlace(t, i)
    {
      SlotIsSum(t[i].key, 0);
      SlotIsSum(t[i].key, 1);
      if i < 16 {
        assert Reachable(t, i, 0);
      } else if i == 16 {
        assert Reachable(t, i, 1);
      }
    }
  }

  const HIDDEN: Key := 2 * COUNT + 15

  lemma CrowdedStore()
    ensures Slot(0, TargetFrom(CrowdedTable(), 0, 0)) == 15
    ensures CrowdedTable()[15].key != HIDDEN && CrowdedTable()[16].key == HIDDEN
  {
    CrowdedTarget(0);
    SlotIsSum(0, PROBES - 1);
  }

  lemma HoleHides(t: Table)
    requires t[15].key == 0
    ensures Load(t, HIDDEN).None?
  {
    SlotIsSum(HIDDEN, 0);
  }

  /** A store under key zero can hide another key without overwriting its entry. */
  lemma ZeroKeyHidesAnother()
    ensures Sound(CrowdedTable()) && Load(CrowdedTable(), HIDDEN).Some?
    ensures Store(CrowdedTable(), 0, EMPTY.hash, 0, 0)[16] == CrowdedTable()[16]
    ensures CrowdedTable()[16].key == HIDDEN
    ensures Load(Store(CrowdedTable(), 0, EMPTY.hash, 0, 0), HIDDEN).None?
  {
    CrowdedIsSound();
    CrowdedStore();
    LoadAt(CrowdedTable(), 16);
    HoleHides(Store(CrowdedTable(), 0, EMPTY.hash, 0, 0));
  }

  /** Worse, an entry long replaced can come back: the hidden key is stored anew in the hole, a third key evicts the
      new entry, and a look-up finds the old one. */
  lemma ZeroKeyBringsBack(size: nat, offset: nat)
    ensures var hole := Store(CrowdedTable(), 0, EMPTY.hash, 0, 0);
            var renewed := Store(hole, HIDDEN, EMPTY.hash, size, offset);
            && Load(renewed, HIDDEN) == Some(NewEntry(HIDDEN, EMPTY.hash, size, offset))
            && Load(Store(renewed, 3 * COUNT, EMPTY.hash, 0, 0), HIDDEN) == Some(CrowdedTable()[16])
  {
    CrowdedHole();
    BroughtBack(Store(CrowdedTable(), 0, EMPTY.hash, 0, 0), size, offset);
  }

  lemma CrowdedHole()
    ensures var hole := Store(CrowdedTable(), 0, EMPTY.hash, 0, 0);
            && (forall q {:trigger hole[q]} :: 0 <= q < 15 ==> hole[q].key == COUNT + q)
            && hole[15].key == 0 && hole[16] == CrowdedTable()[16] && hole[16].key == HIDDEN && hole[16].live
  {
    CrowdedStore();
  }

  lemma BroughtBack(hole: Table, size: nat, offset: nat)
    requires forall q {:trigger hole[q]} :: 0 <= q < 15 ==> hole[q].key == COUNT + q
    requires hole[15].key == 0 && hole[16].key == HIDDEN && hole[16].live
    ensures var renewed := Store(hole, HIDDEN, EMPTY.hash, size, offset);
            && Load(renewed, HIDDEN) == Some(NewEntry(HIDDEN, EMPTY.hash, size, offset))
            && Load(Store(renewed, 3 * COUNT, EMPTY.hash, 0, 0), HIDDEN) == Some(hole[16])
  {
    Renewed(hole, size, offset);
    var renewed := hole[15 := NewEntry(HIDDEN, EMPTY.hash, size, offset)];
    LastEvicted(renewed);
    Evicted(renewed[15 := NewEntry(3 * COUNT, EMPTY.hash, 0, 0)]);
  }

  lemma Renewed(hole: Table, size: nat, offset: nat)
    requires hole[15].key == 0
    ensures var renewed := Store(hole, HIDDEN, EMPTY.hash, size, offset);
            && renewed == hole[15 := NewEntry(HIDDEN, EMPTY.hash, size, offset)]
            && Load(renewed, HIDDEN) == Some(NewEntry(HIDDEN, EMPTY.hash, size, offset))
  {
    SlotIsSum(HIDDEN, 0);
    LoadStored(hole, HIDDEN, EMPTY.hash, size, offset);
  }

  lemma LastEvicted(t: Table)
    requires forall q :: 0 <= q < PROBES ==> t[q].key != 0 && t[q].key != 3 * COUNT
    ensures Store(t, 3 * COUNT, EMPTY.hash, 0, 0) == t[15 := NewEntry(3 * COUNT, EMPTY.hash, 0, 0)]
  {
    RenewedTarget(t, 0);
    SlotIsSum(3 * COUNT, PROBES - 1);
  }

  lemma Evicted(t: Table)
    requires t[15].key == 3 * COUNT && t[16].key == HIDDEN && t[16].live
    ensures Load(t, HIDDEN) == Some(t[16])
  {
    SlotIsSum(HIDDEN, 0);
    SlotIsSum(HIDDEN, 1);
  }

  lemma {:induction false} RenewedTarget(t: Table, from: nat)
    requires from < PROBES && forall q :: 0 <= q < PROBES ==> t[q].key != 0 && t[q].key != 3 * COUNT
    ensures TargetFrom(t, 3 * COUNT, from) == PROBES - 1
    decreases PROBES - from
  {
    SlotIsSum(3 * COUNT, from);
    if from < PROBES - 1 {
      RenewedTarget(t, from + 1);
    }
  }
}
