/** The incremental hasher: digests of unchanged chunks are reused, the fingerprint and the tree are updated in
    place. The hashes themselves are parameters. */
module Hasher {
  import opened Bytes
  import S = ChunkScanner
  import M = MerkleTree
  import B = Bitmap

  datatype Slot<D> = Slot(chunk: S.Chunk, digest: D)

  /** The hash of a chunk, of a pair of tree nodes and of a digest at its index, and the last mix of root and
      fingerprint. */
  datatype Hashes<!D> = Hashes(
    leaf: (seq<byte>, S.Kind, nat) -> D,
    pair: (D, D, nat) -> D,
    imprint: (D, nat) -> B.Word,
    mix: (D, B.Word) -> D,
    nothing: D)

  // ---------------------------------------------------------------- the fingerprint

  function Xor(a: B.Word, b: B.Word): (c: B.Word)
    ensures forall k :: 0 <= k < 64 ==> c[k] == (a[k] != b[k])
  {
    seq(64, k requires 0 <= k < 64 => a[k] != b[k])
  }

  function ZeroWord(): B.Word {
    seq(64, _ => false)
  }

  function Fold<D>(h: Hashes<D>, digests: seq<D>): B.Word {
    if digests == [] then ZeroWord()
    else Xor(Fold(h, digests[..|digests| - 1]), h.imprint(digests[|digests| - 1], |digests| - 1))
  }

  lemma XorSwap(f: B.Word, a: B.Word, b: B.Word, c: B.Word)
    ensures Xor(Xor(Xor(f, a), b), c) == Xor(Xor(Xor(f, c), a), b)
  {
  }

  lemma XorReplace(f: B.Word, a: B.Word, b: B.Word)
    ensures Xor(Xor(Xor(f, a), a), b) == Xor(f, b)
  {
    assert Xor(Xor(f, a), a) == f;
  }

  ghost function Replace(f: B.Word, a: B.Word, b: B.Word): B.Word {
    Xor(Xor(f, a), b)
  }

  /** Taking the old digest out and the new one in is the same as folding anew. */
  lemma {:induction false} FoldUpdate<D>(h: Hashes<D>, digests: seq<D>, i: nat, d: D)
    requires i < |digests|
    ensures Fold(h, digests[i := d]) == Replace(Fold(h, digests), h.imprint(digests[i], i), h.imprint(d, i))
  {
    var n := |digests| - 1;
    if i < n {
      FoldUpdate(h, digests[..n], i, d);
      assert digests[i := d][..n] == digests[..n][i := d];
      XorSwap(Fold(h, digests[..n]), h.imprint(digests[i], i), h.imprint(d, i), h.imprint(digests[n], n));
    } else {
      assert digests[i := d][..n] == digests[..n];
      XorReplace(Fold(h, digests[..n]), h.imprint(digests[n], n), h.imprint(d, n));
    }
  }

  /** The indexes whose digest, at its place, has bit `k` set. */
  ghost function WithBit<D>(h: Hashes<D>, digests: seq<D>, k: nat): set<nat>
    requires k < 64
  {
    set i: nat | i < |digests| && h.imprint(digests[i], i)[k]
  }

  lemma OneMoreWithBit<D>(h: Hashes<D>, digests: seq<D>, n: nat, k: nat)
    requires k < 64 && |digests| == n + 1
    ensures var before := WithBit(h, digests[..n], k);
      n !in before && WithBit(h, digests, k) == if h.imprint(digests[n], n)[k] then before + {n} else before
  {
    var before, now := WithBit(h, digests[..n], k), WithBit(h, digests, k);
    forall i: nat
      ensures i in now <==> i in before || (i == n && h.imprint(digests[n], n)[k])
    {
      assert i < n ==> digests[..n][i] == digests[i];
    }
  }

  /** A bit of the fingerprint is set exactly when an odd number of the digests, each at its place, have it set. */
  lemma {:induction false} FoldIsParity<D>(h: Hashes<D>, digests: seq<D>, k: nat)
    requires k < 64
    ensures Fold(h, digests)[k] <==> |WithBit(h, digests, k)| % 2 == 1
  {
    if digests != [] {
      var n := |digests| - 1;
      FoldIsParity(h, digests[..n], k);
      OneMoreWithBit(h, digests, n, k);
    }
  }

  // ---------------------------------------------------------------- hashing from scratch

  ghost function LeafOf<D>(h: Hashes<D>, data: seq<byte>, c: S.Chunk, i: nat): D
    requires c.start <= c.end <= |data|
  {
    h.leaf(data[c.start..c.end], c.kind, i)
  }

  ghost function ChunksIn(data: seq<byte>): (c: seq<S.Chunk>)
    ensures c == S.Chunks(data) && S.InText(data, c)
  {
    S.ChunksAreSound(data);
    S.Chunks(data)
  }

  ghost function FreshDigests<D>(h: Hashes<D>, data: seq<byte>): (d: seq<D>)
    ensures |d| == |S.Chunks(data)|
    ensures forall i {:trigger d[i]} :: 0 <= i < |d| ==> d[i] == LeafOf(h, data, ChunksIn(data)[i], i)
  {
    seq(|S.Chunks(data)|, i requires 0 <= i < |S.Chunks(data)| => LeafOf(h, data, ChunksIn(data)[i], i))
  }

  /** What a new hasher returns for a text. */
  ghost function Scratch<D>(h: Hashes<D>, data: seq<byte>): D {
    var digests := FreshDigests(h, data);
    if digests == [] then h.nothing else h.mix(M.Root(h.pair, M.Padded(digests)), Fold(h, digests))
  }

  // ---------------------------------------------------------------- reuse

  /** The cached digest is taken over: same place, same length, same kind, same bytes as in the text before. */
  predicate Matches<D>(slot: Slot<D>, previous: seq<byte>, data: seq<byte>, c: S.Chunk)
    requires c.start <= c.end <= |data|
  {
    var k := slot.chunk;
    && k.end <= |previous| && k.start <= k.end
    && k.start == c.start && k.end - k.start == c.end - c.start && k.kind == c.kind
    && previous[k.start..k.end] == data[c.start..c.end]
  }

  /** That is: a chunk of the same span and kind, and no byte of the span has changed since. A chunk that has only moved
      is hashed again. */
  lemma MatchesIffUnchanged<D>(slot: Slot<D>, previous: seq<byte>, data: seq<byte>, c: S.Chunk)
    requires c.start <= c.end <= |data|
    ensures Matches(slot, previous, data, c) <==>
      slot.chunk == c && c.end <= |previous| && forall k :: c.start <= k < c.end ==> previous[k] == data[k]
  {
    if Matches(slot, previous, data, c) {
      forall k | c.start <= k < c.end
        ensures previous[k] == data[k]
      {
        assert previous[c.start..c.end][k - c.start] == data[c.start..c.end][k - c.start];
      }
    }
  }

  ghost function Digests<D>(slots: seq<Slot<D>>): (d: seq<D>)
    ensures |d| == |slots| && forall i {:trigger d[i]} :: 0 <= i < |d| ==> d[i] == slots[i].digest
  {
    seq(|slots|, i requires 0 <= i < |slots| => slots[i].digest)
  }

  ghost predicate SpansAre<D>(slots: seq<Slot<D>>, chunks: seq<S.Chunk>) {
    |slots| == |chunks| && forall i {:trigger slots[i]} :: 0 <= i < |slots| ==> slots[i].chunk == chunks[i]
  }

  /** A stale slot may match by place and bytes and still carry the digest of other bytes: three texts, `a;b;`,
      `axc;` and `a;c;`, leave the digest of `b;` in the second slot for `c;`. */
  lemma StaleSlotMatches<D>(h: Hashes<D>)
    requires h.leaf([98, 59], S.Statement, 1) != h.leaf([99, 59], S.Statement, 1)
    ensures var slot := Slot(S.Chunk(2, 4, S.Statement), LeafOf(h, [97, 59, 98, 59], S.Chunk(2, 4, S.Statement), 1));
            && Matches(slot, [97, 120, 99, 59], [97, 59, 99, 59], S.Chunk(2, 4, S.Statement))
            && slot.digest != LeafOf(h, [97, 59, 99, 59], S.Chunk(2, 4, S.Statement), 1)
  {
    var first: seq<byte>, second: seq<byte>, third: seq<byte> := [97, 59, 98, 59], [97, 120, 99, 59], [97, 59, 99, 59];
    assert first[2..4] == [98, 59] && second[2..4] == [99, 59] && third[2..4] == [99, 59];
  }

  // ---------------------------------------------------------------- where digests come from

  /** What a digest was taken from. */
  datatype Origin = Origin(bytes: seq<byte>, kind: S.Kind)

  ghost function OriginAt(data: seq<byte>, i: nat): Origin
    requires i < |S.Chunks(data)|
  {
    var c := ChunksIn(data)[i];
    Origin(data[c.start..c.end], c.kind)
  }

  ghost function DigestOf<D>(h: Hashes<D>, o: Origin, i: nat): D {
    h.leaf(o.bytes, o.kind, i)
  }

  /** Every digest was taken from the very chunk it now stands for. */
  ghost predicate OwnOrigins(origins: seq<Origin>, data: seq<byte>) {
    |S.Chunks(data)| <= |origins| && forall i {:trigger origins[i]} :: 0 <= i < |S.Chunks(data)| ==>
      origins[i] == OriginAt(data, i)
  }

  /** The slot has a digest, and it is taken over. */
  ghost predicate TakenOver<D>(slots: seq<Slot<D>>, origins: seq<Origin>, previous: seq<byte>, data: seq<byte>, i: nat)
    requires |origins| <= |slots| && i < |S.Chunks(data)|
  {
    i < |origins| && Matches(slots[i], previous, data, ChunksIn(data)[i])
  }

  /** The origins after an update to a new text, slots behind its last chunk included. */
  ghost function NextOrigins<D>(slots: seq<Slot<D>>, origins: seq<Origin>, previous: seq<byte>, data: seq<byte>):
    (r: seq<Origin>)
    requires |origins| <= |slots|
    ensures |r| == if |origins| < |S.Chunks(data)| then |S.Chunks(data)| else |origins|
    ensures forall i {:trigger r[i]} :: 0 <= i < |S.Chunks(data)| ==>
      r[i] == if TakenOver(slots, origins, previous, data, i) then origins[i] else OriginAt(data, i)
    ensures forall i {:trigger r[i]} :: |S.Chunks(data)| <= i < |r| ==> r[i] == origins[i]
  {
    var n := |S.Chunks(data)|;
    seq(if |origins| < n then n else |origins|, i requires 0 <= i < n || 0 <= i < |origins| =>
      if i < n && !TakenOver(slots, origins, previous, data, i) then OriginAt(data, i) else origins[i])
  }

  lemma NoneTakenOver<D>(slots: seq<Slot<D>>, previous: seq<byte>, data: seq<byte>)
    ensures NextOrigins(slots, [], previous, data) == NextOrigins<D>([], [], previous, data)
    ensures OwnOrigins(NextOrigins(slots, [], previous, data), data)
  {
  }

  /** After an update every digest is fresh exactly when every slot taken over was taken from the chunk's own bytes. */
  lemma OwnIffTakenOverOwn<D>(slots: seq<Slot<D>>, origins: seq<Origin>, previous: seq<byte>, data: seq<byte>)
    requires |origins| <= |slots|
    ensures OwnOrigins(NextOrigins(slots, origins, previous, data), data) <==>
            forall i {:trigger origins[i]} :: 0 <= i < |origins| && i < |S.Chunks(data)| ==>
              TakenOver(slots, origins, previous, data, i) ==> origins[i] == OriginAt(data, i)
  {
    var next := NextOrigins(slots, origins, previous, data);
    if OwnOrigins(next, data) {
      forall i {:trigger origins[i]} |
          0 <= i < |origins| && i < |S.Chunks(data)| && TakenOver(slots, origins, previous, data, i)
        ensures origins[i] == OriginAt(data, i)
      {
        assert next[i] == origins[i];
      }
    }
  }

  /** A slot of the text before is taken over only for the same bytes. */
  lemma TakenOverOwn<D>(slots: seq<Slot<D>>, origins: seq<Origin>, previous: seq<byte>, data: seq<byte>, n: nat, i: nat)
    requires i < n == |S.Chunks(previous)| <= |origins| <= |slots| && i < |S.Chunks(data)|
    requires SpansAre(slots[..n], ChunksIn(previous)) && OwnOrigins(origins, previous)
    requires TakenOver(slots, origins, previous, data, i)
    ensures origins[i] == OriginAt(data, i)
  {
    assert slots[..n][i] == slots[i];
  }

  ghost predicate InjectiveLeaf<D(!new)>(h: Hashes<D>) {
    forall a, b, k, l, i {:trigger h.leaf(a, k, i), h.leaf(b, l, i)} ::
      h.leaf(a, k, i) == h.leaf(b, l, i) ==> a == b && k == l
  }

  /** Mixed with the same fingerprint, different roots stay different. */
  ghost predicate MixKeepsRoot<D(!new)>(h: Hashes<D>) {
    forall a, b, v {:trigger h.mix(a, v), h.mix(b, v)} :: h.mix(a, v) == h.mix(b, v) ==> a == b
  }

  lemma XorCancels(a: B.Word, b: B.Word, w: B.Word)
    requires Xor(a, w) == Xor(b, w)
    ensures a == b
  {
    forall k | 0 <= k < 64
      ensures a[k] == b[k]
    {
      assert Xor(a, w)[k] == Xor(b, w)[k];
    }
  }

  /** The program's mix is of this kind: it finishes the fingerprint and XORs it into one word of the root. */
  lemma XorMixKeepsRoot<D(!new), R(!new)>(h: Hashes<D>, word: D -> B.Word, rest: D -> R, finish: B.Word -> B.Word)
    requires forall a, b :: word(a) == word(b) && rest(a) == rest(b) ==> a == b
    requires forall a, v {:trigger h.mix(a, v)} ::
      word(h.mix(a, v)) == Xor(word(a), finish(v)) && rest(h.mix(a, v)) == rest(a)
    ensures MixKeepsRoot(h)
  {
    forall a, b, v {:trigger h.mix(a, v), h.mix(b, v)} | h.mix(a, v) == h.mix(b, v)
      ensures a == b
    {
      XorCancels(word(a), word(b), finish(v));
    }
  }

  /** What a tree with these leaves gives if the first `n` are the digests of chunks and the others padding. */
  ghost function Final<D>(h: Hashes<D>, leaves: seq<D>, n: nat): D
    requires 0 < n <= |leaves|
  {
    h.mix(M.Root(h.pair, leaves), Fold(h, leaves[..n]))
  }

  /** No two lists of leaves give the same result. */
  ghost predicate InjectiveFinal<D(!new)>(h: Hashes<D>) {
    forall l: seq<D>, m: seq<D>, n: nat {:trigger Final(h, l, n), Final(h, m, n)} ::
      0 < n <= |l| == |m| && Final(h, l, n) == Final(h, m, n) ==> l == m
  }

  lemma OwnIsFresh<D>(h: Hashes<D>, data: seq<byte>, origins: seq<Origin>, digests: seq<D>)
    requires |digests| == |S.Chunks(data)| <= |origins|
    requires forall i {:trigger digests[i]} :: 0 <= i < |digests| ==> digests[i] == DigestOf(h, origins[i], i)
    requires OwnOrigins(origins, data)
    ensures digests == FreshDigests(h, data)
  {
    forall i | 0 <= i < |digests|
      ensures digests[i] == FreshDigests(h, data)[i]
    {
      assert origins[i] == OriginAt(data, i);
    }
  }

  /** Without collisions of the leaf hash digests are fresh only if each comes from its own chunk. */
  lemma FreshIffOwn<D(!new)>(h: Hashes<D>, data: seq<byte>, origins: seq<Origin>, digests: seq<D>)
    requires |digests| == |S.Chunks(data)| <= |origins| && InjectiveLeaf(h)
    requires forall i {:trigger digests[i]} :: 0 <= i < |digests| ==> digests[i] == DigestOf(h, origins[i], i)
    ensures digests == FreshDigests(h, data) <==> OwnOrigins(origins, data)
  {
    if OwnOrigins(origins, data) {
      OwnIsFresh(h, data, origins, digests);
    } else {
      var i :| 0 <= i < |digests| && origins[i] != OriginAt(data, i);
      assert digests[i] == DigestOf(h, origins[i], i);
      assert FreshDigests(h, data)[i] == DigestOf(h, OriginAt(data, i), i);
    }
  }

  lemma PaddedPrefix<D>(digests: seq<D>)
    requires digests != []
    ensures M.Padded(digests)[..|digests|] == digests
  {
  }

  /** With fresh digests the result is that of a text hashed from scratch only if the padding is. */
  lemma FreshScratchIff<D(!new)>(h: Hashes<D>, data: seq<byte>, leaves: seq<D>)
    requires M.Injective(h.pair) && MixKeepsRoot(h) && |S.Chunks(data)| > 0
    requires |leaves| == M.Base(|S.Chunks(data)|) && leaves[..|S.Chunks(data)|] == FreshDigests(h, data)
    ensures Final(h, leaves, |S.Chunks(data)|) == Scratch(h, data) <==> leaves == M.Padded(FreshDigests(h, data))
  {
    M.EqualRootsEqualLeaves(h.pair, leaves, M.Padded(FreshDigests(h, data)));
  }

  /** Whatever the digests, the result is that of a text hashed from scratch only if digests and padding are. */
  lemma ScratchIffPadded<D(!new)>(h: Hashes<D>, data: seq<byte>, leaves: seq<D>)
    requires InjectiveFinal(h) && |S.Chunks(data)| > 0 && |leaves| == M.Base(|S.Chunks(data)|)
    ensures Final(h, leaves, |S.Chunks(data)|) == Scratch(h, data) <==> leaves == M.Padded(FreshDigests(h, data))
  {
    var f := FreshDigests(h, data);
    PaddedPrefix(f);
    assert Scratch(h, data) == Final(h, M.Padded(f), |f|);
  }

  /** Without collisions, texts of as many chunks have the same hash only if their chunks have the same bytes and kinds;
      where the chunks stand, and the white space between them, does not matter. */
  lemma SameHashIffSameChunks<D(!new)>(h: Hashes<D>, a: seq<byte>, b: seq<byte>)
    requires InjectiveLeaf(h) && InjectiveFinal(h) && |S.Chunks(a)| == |S.Chunks(b)|
    ensures Scratch(h, a) == Scratch(h, b) <==>
            forall i {:trigger OriginAt(a, i)} :: 0 <= i < |S.Chunks(a)| ==> OriginAt(a, i) == OriginAt(b, i)
  {
    var f, g, n := FreshDigests(h, a), FreshDigests(h, b), |S.Chunks(a)|;
    if n > 0 && Scratch(h, a) == Scratch(h, b) {
      PaddedPrefix(f);
      PaddedPrefix(g);
      assert Final(h, M.Padded(f), n) == Final(h, M.Padded(g), n);
      assert f == g;
      forall i {:trigger OriginAt(a, i)} | 0 <= i < n
        ensures OriginAt(a, i) == OriginAt(b, i)
      {
        assert f[i] == DigestOf(h, OriginAt(a, i), i) && g[i] == DigestOf(h, OriginAt(b, i), i);
      }
    } else if forall i {:trigger OriginAt(a, i)} :: 0 <= i < n ==> OriginAt(a, i) == OriginAt(b, i) {
      forall i | 0 <= i < n
        ensures f[i] == g[i]
      {
        assert f[i] == DigestOf(h, OriginAt(a, i), i) && g[i] == DigestOf(h, OriginAt(b, i), i);
      }
      assert f == g;
    }
  }

  /** The digest chunk `i` gets: the cached one if the slot matches, a fresh one otherwise. */
  ghost function Taken<D>(h: Hashes<D>, slot: Slot<D>, previous: seq<byte>, data: seq<byte>, i: nat): D
    requires i < |S.Chunks(data)|
  {
    var c := ChunksIn(data)[i];
    if Matches(slot, previous, data, c) then slot.digest else LeafOf(h, data, c, i)
  }

  lemma LiveSlots<D>(slots: seq<Slot<D>>, chunks: seq<S.Chunk>, digests: seq<D>)
    requires |slots| == |chunks| == |digests|
    requires forall i {:trigger slots[i]} :: 0 <= i < |slots| ==> slots[i] == Slot(chunks[i], digests[i])
    ensures SpansAre(slots, chunks) && Digests(slots) == digests
  {
  }

  class Hasher<D(==,0,!new)> {
    const h: Hashes<D>
    const blank: Slot<D>
    const tree: M.Tree<D>
    var slots: array<Slot<D>>
    var count: nat
    var previous: seq<byte>
    var fingerprint: B.Word
    var root: D
    var changed: nat
    var initialized: bool
    /** What the digests of the slots were taken from, as far as slots of the array have ever been written. */
    ghost var origins: seq<Origin>
    /** No update has so far brought a slot back that had been given up. */
    ghost var clean: bool

    ghost predicate Apart()
      reads this, tree
    {
      (slots as object) != (tree.nodes as object)
    }

    ghost predicate Valid()
      reads this, slots, tree, tree.nodes
    {
      && Apart() && tree.pair == h.pair && tree.Valid() && count <= |origins| <= slots.Length
      && blank.chunk.start == blank.chunk.end && Unused() && Sourced(0)
      && (!initialized ==> count == |origins| == slots.Length == 0)
      && (initialized ==> Current())
    }

    /** The slots never written are blank. */
    ghost predicate Unused()
      reads this, slots
    {
      forall i {:trigger slots[i]} :: |origins| <= i < slots.Length ==> slots[i] == blank
    }

    /** Each digest from slot `from` on is the hash of its origin at its index. */
    ghost predicate Sourced(from: nat)
      requires |origins| <= slots.Length
      reads this, slots
    {
      forall i {:trigger slots[i]} :: from <= i < |origins| ==> slots[i].digest == DigestOf(h, origins[i], i)
    }

    /** After an update: spans, fingerprint and root belong to the text. */
    ghost predicate Current()
      requires count <= slots.Length && tree.Valid()
      reads this, slots, tree, tree.nodes
    {
      && SpansAre(slots[..count], ChunksIn(previous))
      && fingerprint == Fold(h, Digests(slots[..count]))
      && (clean ==> OwnOrigins(origins, previous))
      && (if count == 0 then root == h.nothing else RootOf(Digests(slots[..count]), root))
    }

    ghost predicate RootOf(digests: seq<D>, r: D)
      requires tree.Valid()
      reads this, tree, tree.nodes
    {
      && tree.base > 0 && tree.count == |digests| && tree.base == M.Base(|digests|)
      && tree.Leaves()[..|digests|] == digests
      && r == h.mix(M.Root(h.pair, tree.Leaves()), fingerprint)
    }

    constructor (h: Hashes<D>, zero: D)
      ensures Valid() && clean && !initialized && fresh(slots) && fresh(tree) && fresh(tree.nodes) && this.h == h
    {
      this.h := h;
      blank := Slot(S.Chunk(0, 0, S.Code), zero);
      tree := new M.Tree<D>(h.pair);
      slots := new Slot<D>[0];
      count, previous, fingerprint, root := 0, [], ZeroWord(), zero;
      changed, initialized, origins, clean := 0, false, [], true;
    }

    /** Makes room for `size` slots: by showing slots given up before, or with blank ones. */
    method Grow(size: nat)
      requires count <= |origins| <= slots.Length && Unused()
      modifies `slots, `count, `origins, `clean
      ensures count == size <= slots.Length && |origins| <= slots.Length && Unused()
      ensures if size <= old(slots.Length) then slots == old(slots) && origins == old(origins)
              else fresh(slots) && origins == []
      ensures clean <==>
        old(clean) && (size <= old(count) || old(count) == |old(origins)| || old(slots.Length) < size)
    {
      if slots.Length >= size {
        clean := clean && (count >= size || count == |origins|);
        count := size;
      } else {
        var capacity := slots.Length * 2;
        if capacity < size {
          capacity := size;
        }
        slots := new Slot<D>[capacity](_ => blank);
        count, origins := size, [];
      }
    }

    method FindChanged(data: seq<byte>, chunks: seq<S.Chunk>) returns (digests: seq<D>, changedIndexes: seq<nat>)
      requires |chunks| == count <= slots.Length && S.InText(data, chunks)
      ensures |digests| == |chunks|
      ensures forall k, l :: 0 <= k < l < |changedIndexes| ==> changedIndexes[k] < changedIndexes[l]
      ensures forall i :: i in changedIndexes ==> 0 <= i < count
      ensures forall i {:trigger slots[i]} :: 0 <= i < count ==>
        (i in changedIndexes <==> !Matches(slots[i], previous, data, chunks[i]))
      ensures forall i {:trigger digests[i]} {:trigger slots[i]} :: 0 <= i < count && i !in changedIndexes ==>
        digests[i] == slots[i].digest
    {
      digests, changedIndexes := [], [];
      for i := 0 to |chunks|
        invariant |digests| == i
        invariant forall k, l :: 0 <= k < l < |changedIndexes| ==> changedIndexes[k] < changedIndexes[l]
        invariant forall k :: 0 <= k < |changedIndexes| ==> 0 <= changedIndexes[k] < i
        invariant forall k {:trigger slots[k]} :: 0 <= k < i ==>
          (k in changedIndexes <==> !Matches(slots[k], previous, data, chunks[k]))
        invariant forall k {:trigger digests[k]} {:trigger slots[k]} :: 0 <= k < i && k !in changedIndexes ==>
          digests[k] == slots[k].digest
      {
        assert i !in changedIndexes;
        if Matches(slots[i], previous, data, chunks[i]) {
          digests := digests + [slots[i].digest];
        } else {
          digests := digests + [blank.digest];
          assert forall k :: k in changedIndexes + [i] <==> k in changedIndexes || k == i;
          changedIndexes := changedIndexes + [i];
        }
      }
    }

    /** Hashes the chunks at the given indexes; the worker pool of the program gives the same digests. */
    method HashChanged(data: seq<byte>, chunks: seq<S.Chunk>, before: seq<D>, changedIndexes: seq<nat>)
      returns (digests: seq<D>)
      requires |before| == |chunks| && S.InText(data, chunks)
      requires forall i :: i in changedIndexes ==> 0 <= i < |chunks|
      ensures |digests| == |chunks|
      ensures forall i {:trigger digests[i]} :: 0 <= i < |chunks| ==>
        digests[i] == if i in changedIndexes then LeafOf(h, data, chunks[i], i) else before[i]
    {
      digests := before;
      for j := 0 to |changedIndexes|
        invariant |digests| == |chunks|
        invariant forall k {:trigger digests[k]} :: 0 <= k < |chunks| ==>
          digests[k] == if k in changedIndexes[..j] then LeafOf(h, data, chunks[k], k) else before[k]
      {
        var index := changedIndexes[j];
        assert index in changedIndexes;
        var c := chunks[index];
        digests := digests[index := h.leaf(data[c.start..c.end], c.kind, index)];
        assert changedIndexes[..j + 1] == changedIndexes[..j] + [index];
      }
      assert changedIndexes[..|changedIndexes|] == changedIndexes;
    }

    method PatchOne(index: nat, digest: D, ghost mixed: seq<D>)
      requires index < |mixed| && index < slots.Length && slots[index].digest == mixed[index]
      requires fingerprint == Fold(h, mixed)
      modifies `fingerprint
      ensures fingerprint == Fold(h, mixed[index := digest])
    {
      FoldUpdate(h, mixed, index, digest);
      fingerprint := Xor(fingerprint, h.imprint(slots[index].digest, index));
      fingerprint := Xor(fingerprint, h.imprint(digest, index));
    }

    /** Takes the old digests of the changed chunks out of the fingerprint and the new ones in. */
    method PatchFingerprint(digests: seq<D>, changedIndexes: seq<nat>)
      requires |digests| == count <= slots.Length && fingerprint == Fold(h, Digests(slots[..count]))
      requires forall k :: 0 <= k < |changedIndexes| ==> 0 <= changedIndexes[k] < count
      requires forall k, l :: 0 <= k < l < |changedIndexes| ==> changedIndexes[k] < changedIndexes[l]
      requires forall i :: 0 <= i < count && i !in changedIndexes ==> digests[i] == slots[i].digest
      modifies `fingerprint
      ensures fingerprint == Fold(h, digests)
    {
      ghost var mixed, rest := Digests(slots[..count]), changedIndexes;
      for j := 0 to |changedIndexes|
        invariant |mixed| == count && fingerprint == Fold(h, mixed)
        invariant forall i {:trigger mixed[i]} :: 0 <= i < count && i !in rest ==> mixed[i] == digests[i]
        invariant rest == changedIndexes[j..]
        invariant forall k :: j <= k < |changedIndexes| ==> mixed[changedIndexes[k]] == slots[changedIndexes[k]].digest
      {
        var index := changedIndexes[j];
        assert rest == [index] + rest[1..];
        rest := rest[1..];
        PatchOne(index, digests[index], mixed);
        mixed := mixed[index := digests[index]];
      }
      assert mixed == digests;
    }

    method FoldFingerprint(digests: seq<D>)
      modifies `fingerprint
      ensures fingerprint == Fold(h, digests)
    {
      fingerprint := ZeroWord();
      for index := 0 to |digests|
        invariant fingerprint == Fold(h, digests[..index])
      {
        fingerprint := Xor(fingerprint, h.imprint(digests[index], index));
        assert digests[..index + 1][..index] == digests[..index];
      }
      assert digests[..|digests|] == digests;
    }

    method CopySlots(chunks: seq<S.Chunk>, digests: seq<D>)
      requires |chunks| == |digests| == count <= slots.Length
      modifies slots
      ensures SpansAre(slots[..count], chunks) && Digests(slots[..count]) == digests
      ensures forall i {:trigger slots[i]} :: 0 <= i < slots.Length ==>
        slots[i] == if i < count then Slot(chunks[i], digests[i]) else old(slots[i])
    {
      for i := 0 to count
        invariant forall k {:trigger slots[k]} :: 0 <= k < i ==> slots[k] == Slot(chunks[k], digests[k])
        invariant forall k {:trigger slots[k]} :: i <= k < slots.Length ==> slots[k] == old(slots[k])
        modifies slots
      {
        slots[i] := Slot(chunks[i], digests[i]);
      }
      LiveSlots(slots[..count], chunks, digests);
    }

    /** The digest a chunk gets has the origin the slot is given. */
    lemma TakenHasOrigin(data: seq<byte>, i: nat)
      requires |origins| <= slots.Length && blank.chunk.start == blank.chunk.end && Unused() && Sourced(0)
      requires i < |S.Chunks(data)| <= slots.Length
      ensures Taken(h, slots[i], previous, data, i) ==
              DigestOf(h, NextOrigins(slots[..], origins, previous, data)[i], i)
    {
      S.ChunksAreSound(data);
      var c := ChunksIn(data)[i];
      assert c.start < c.end;
      assert slots[..][i] == slots[i];
    }

    /** The digests of the chunks of a text, from the slots where they match. */
    method AllDigests(data: seq<byte>, chunks: seq<S.Chunk>) returns (digests: seq<D>, changedIndexes: seq<nat>)
      requires blank.chunk.start == blank.chunk.end
      requires chunks == S.Chunks(data) && |chunks| == count <= slots.Length
      ensures |digests| == count
      ensures forall i {:trigger digests[i]} :: 0 <= i < count ==> digests[i] == Taken(h, slots[i], previous, data, i)
      ensures forall k :: 0 <= k < |changedIndexes| ==> 0 <= changedIndexes[k] < count
      ensures forall k, l :: 0 <= k < l < |changedIndexes| ==> changedIndexes[k] < changedIndexes[l]
      ensures forall i :: 0 <= i < count && i !in changedIndexes ==> digests[i] == slots[i].digest
    {
      ghost var spans := ChunksIn(data);
      digests, changedIndexes := FindChanged(data, chunks);
      digests := HashChanged(data, chunks, digests, changedIndexes);
      assert forall k :: 0 <= k < |changedIndexes| ==> changedIndexes[k] in changedIndexes;
    }

    lemma AllTakenHaveOrigins(data: seq<byte>, digests: seq<D>)
      requires |origins| <= slots.Length && blank.chunk.start == blank.chunk.end && Unused() && Sourced(0)
      requires |digests| == |S.Chunks(data)| <= slots.Length
      requires forall i {:trigger digests[i]} :: 0 <= i < |digests| ==>
        digests[i] == Taken(h, slots[i], previous, data, i)
      ensures var next := NextOrigins(slots[..], origins, previous, data);
              && (forall i {:trigger digests[i]} :: 0 <= i < |digests| ==> digests[i] == DigestOf(h, next[i], i))
              && (forall i {:trigger slots[i]} :: |digests| <= i < |next| ==>
                    slots[i].digest == DigestOf(h, next[i], i))
              && (forall i {:trigger slots[i]} :: |next| <= i < slots.Length ==> slots[i] == blank)
    {
      ghost var next := NextOrigins(slots[..], origins, previous, data);
      forall i | 0 <= i < |digests|
        ensures digests[i] == DigestOf(h, next[i], i)
      {
        TakenHasOrigin(data, i);
      }
      forall i | |digests| <= i < |next|
        ensures slots[i].digest == DigestOf(h, next[i], i)
      {
        assert next[i] == origins[i];
      }
    }

    /** If no slot that was given up is shown, all digests come from their own chunks. */
    lemma ShownOwn(data: seq<byte>)
      requires count <= |origins| <= slots.Length && |S.Chunks(previous)| == count
      requires SpansAre(slots[..count], ChunksIn(previous)) && OwnOrigins(origins, previous)
      requires |S.Chunks(data)| <= count || count == |origins|
      ensures OwnOrigins(NextOrigins(slots[..], origins, previous, data), data)
    {
      assert slots[..][..count] == slots[..count];
      forall i {:trigger origins[i]} |
          0 <= i < |origins| && i < |S.Chunks(data)| && TakenOver(slots[..], origins, previous, data, i)
        ensures origins[i] == OriginAt(data, i)
      {
        TakenOverOwn(slots[..], origins, previous, data, count, i);
      }
      OwnIffTakenOverOwn(slots[..], origins, previous, data);
    }

    method Rehash(digests: seq<D>) returns (r: D)
      requires tree.Valid() && tree.pair == h.pair
      modifies tree, tree.nodes
      ensures tree.Valid() && (tree.nodes == old(tree.nodes) || fresh(tree.nodes))
      ensures digests == [] ==> r == h.nothing
      ensures digests != [] ==> RootOf(digests, r)
      ensures digests != [] && (tree.base - |digests| <= 1 || digests[|digests| - 1] == tree.filler) ==>
        tree.Leaves() == M.Padded(digests)
    {
      if digests == [] {
        return h.nothing;
      }
      var top := tree.HashTree(digests);
      r := h.mix(top, fingerprint);
    }

    /** Makes the fingerprint that of the digests: by patching it when the slots in use are those of the text
        before, by folding otherwise. */
    method Refold(digests: seq<D>, changedIndexes: seq<nat>, patch: bool)
      requires |digests| == count <= slots.Length
      requires patch ==> fingerprint == Fold(h, Digests(slots[..count]))
      requires forall k :: 0 <= k < |changedIndexes| ==> 0 <= changedIndexes[k] < count
      requires forall k, l :: 0 <= k < l < |changedIndexes| ==> changedIndexes[k] < changedIndexes[l]
      requires forall i :: 0 <= i < count && i !in changedIndexes ==> digests[i] == slots[i].digest
      modifies `fingerprint
      ensures fingerprint == Fold(h, digests)
    {
      if patch {
        PatchFingerprint(digests, changedIndexes);
      } else {
        FoldFingerprint(digests);
      }
    }

    /** Writes the slots in use and brings the tree up to date. */
    method Place(chunks: seq<S.Chunk>, digests: seq<D>)
      requires Apart() && tree.pair == h.pair && tree.Valid()
      requires |chunks| == |digests| == count <= slots.Length
      modifies slots, `root, tree, tree.nodes
      ensures Apart() && tree.Valid() && (tree.nodes == old(tree.nodes) || fresh(tree.nodes))
      ensures SpansAre(slots[..count], chunks) && Digests(slots[..count]) == digests
      ensures if digests == [] then root == h.nothing else RootOf(digests, root)
      ensures forall i {:trigger slots[i]} :: 0 <= i < slots.Length ==>
        slots[i] == if i < count then Slot(chunks[i], digests[i]) else old(slots[i])
    {
      CopySlots(chunks, digests);
      ghost var live := slots[..count];
      root := Rehash(digests);
      assert slots[..count] == live;
    }

    /** The slots in use have their chunks and the digests taken; those behind are as before. */
    ghost predicate SlotsFollow(before: seq<Slot<D>>, text: seq<byte>, data: seq<byte>)
      reads this, slots
    {
      |before| == slots.Length && forall i {:trigger slots[i]} :: 0 <= i < slots.Length ==>
        slots[i] == if i < |S.Chunks(data)| then Slot(S.Chunks(data)[i], Taken(h, before[i], text, data, i))
                    else before[i]
    }

    /** Puts text, slots and root of a new text in place. */
    method Install(data: seq<byte>, chunks: seq<S.Chunk>, digests: seq<D>)
      requires Apart() && tree.pair == h.pair && tree.Valid() && blank.chunk.start == blank.chunk.end
      requires chunks == S.Chunks(data) && |chunks| == |digests| == count <= |origins| <= slots.Length
      requires Unused() && Sourced(count) && (clean ==> OwnOrigins(origins, data))
      requires forall i {:trigger digests[i]} :: 0 <= i < count ==>
        digests[i] == DigestOf(h, origins[i], i) && digests[i] == Taken(h, slots[i], previous, data, i)
      requires fingerprint == Fold(h, digests)
      modifies `root, `previous, `initialized, slots, tree, tree.nodes
      ensures Valid() && initialized && previous == data
      ensures tree.nodes == old(tree.nodes) || fresh(tree.nodes)
      ensures SlotsFollow(old(slots[..]), old(previous), data)
    {
      Place(chunks, digests);
      previous := data;
      initialized := true;
    }

    /** The padding of the tree holds the last digest. */
    ghost predicate PaddingFresh()
      requires count <= slots.Length
      reads this, slots, tree
    {
      count == 0 || tree.base - count <= 1 || slots[count - 1].digest == tree.filler
    }

    /** The origins go on from those of the array, or from none if the array is replaced. */
    ghost predicate Follows(next: seq<Origin>, before: seq<Slot<D>>, had: seq<Origin>, text: seq<byte>, data: seq<byte>)
      requires |had| <= |before|
    {
      next == if |S.Chunks(data)| <= |before| then NextOrigins(before, had, text, data)
              else NextOrigins<D>([], [], text, data)
    }

    /** Room for the chunks of a new text. */
    method MakeRoom(data: seq<byte>, chunks: seq<S.Chunk>)
      requires Valid() && chunks == S.Chunks(data)
      modifies `slots, `count, `origins, `clean
      ensures count == |chunks| <= slots.Length && |origins| <= slots.Length && Unused() && Sourced(0)
      ensures if count <= old(slots.Length) then slots == old(slots) else fresh(slots)
      ensures count == old(count) ==> slots == old(slots)
      ensures Follows(NextOrigins(slots[..], origins, previous, data), old(slots[..]), old(origins), previous, data)
      ensures clean <==>
        old(clean) && (count <= old(count) || old(count) == |old(origins)| || old(slots.Length) < count)
      ensures clean ==> OwnOrigins(NextOrigins(slots[..], origins, previous, data), data)
    {
      if clean && initialized && (|chunks| <= count || count == |origins|) {
        ShownOwn(data);
      }
      if count != |chunks| {
        Grow(|chunks|);
      }
      if origins == [] {
        NoneTakenOver(slots[..], previous, data);
      }
    }

    /** The digests of the chunks, taken over or fresh, what each comes from, and the fingerprint: patched, if the
        slots in use are those of the text before, or folded anew. */
    method Digest(data: seq<byte>, chunks: seq<S.Chunk>, patch: bool) returns (digests: seq<D>)
      requires chunks == S.Chunks(data) && |chunks| == count <= slots.Length && |origins| <= slots.Length
      requires blank.chunk.start == blank.chunk.end && Unused() && Sourced(0)
      requires patch ==> fingerprint == Fold(h, Digests(slots[..count]))
      modifies `origins, `changed, `fingerprint
      ensures |digests| == count <= |origins| <= slots.Length && Unused() && Sourced(count)
      ensures origins == NextOrigins(slots[..], old(origins), previous, data)
      ensures forall i {:trigger digests[i]} :: 0 <= i < count ==>
        digests[i] == DigestOf(h, origins[i], i) && digests[i] == Taken(h, slots[i], previous, data, i)
      ensures fingerprint == Fold(h, digests)
    {
      var changedIndexes;
      digests, changedIndexes := AllDigests(data, chunks);
      AllTakenHaveOrigins(data, digests);
      changed := |changedIndexes|;
      Refold(digests, changedIndexes, patch);
      origins := NextOrigins(slots[..], origins, previous, data);
    }

    method RoomAndDigests(data: seq<byte>, chunks: seq<S.Chunk>) returns (digests: seq<D>)
      requires Valid() && chunks == S.Chunks(data)
      modifies `slots, `count, `origins, `clean, `changed, `fingerprint
      ensures |digests| == |chunks| == count <= |origins| <= slots.Length && Unused() && Sourced(count)
      ensures if count <= old(slots.Length) then slots == old(slots) else fresh(slots)
      ensures Follows(origins, old(slots[..]), old(origins), previous, data)
      ensures clean <==>
        old(clean) && (count <= old(count) || old(count) == |old(origins)| || old(slots.Length) < count)
      ensures clean ==> OwnOrigins(origins, data)
      ensures forall i {:trigger digests[i]} :: 0 <= i < count ==>
        digests[i] == DigestOf(h, origins[i], i) && digests[i] == Taken(h, slots[i], previous, data, i)
      ensures fingerprint == Fold(h, digests)
    {
      var sameCount := count == |chunks|;
      MakeRoom(data, chunks);
      digests := Digest(data, chunks, initialized && sameCount);
    }

    /** Returns the hash of the text: the one a new hasher would return, if all digests come from their own chunks and
        the padding of the tree is not stale; without collisions, only then. What must not collide is little if all
        digests come from their own chunks: then only the tree below the result has to tell its leaves apart. */
    method Update(data: seq<byte>) returns (r: D)
      requires Valid()
      modifies this, slots, tree, tree.nodes
      ensures Valid() && initialized && previous == data && r == root
      ensures tree.nodes == old(tree.nodes) || fresh(tree.nodes)
      ensures if count <= old(slots.Length) then slots == old(slots) else fresh(slots)
      ensures count == |S.Chunks(data)|
      ensures clean <==>
        old(clean) && (count <= old(count) || old(count) == |old(origins)| || old(slots.Length) < count)
      ensures if old(initialized) && old(previous) == data then origins == old(origins)
              else Follows(origins, old(slots[..]), old(origins), old(previous), data)
      ensures OwnOrigins(origins, data) && PaddingFresh() ==> r == Scratch(h, data)
      ensures InjectiveLeaf(h) ==>
        (Digests(slots[..count]) == FreshDigests(h, data) <==> OwnOrigins(origins, data))
      ensures OwnOrigins(origins, data) && M.Injective(h.pair) && MixKeepsRoot(h) ==>
        (r == Scratch(h, data) <==> PaddingFresh())
      ensures InjectiveLeaf(h) && InjectiveFinal(h) ==>
        (r == Scratch(h, data) <==> OwnOrigins(origins, data) && PaddingFresh())
      ensures slots == old(slots) && !(old(initialized) && old(previous) == data) ==>
        SlotsFollow(old(slots[..]), old(previous), data)
    {
      if initialized && previous == data {
        changed := 0;
        ResultIsRight();
        return root;
      }
      var chunks := S.Scan(data);
      Renew(data, chunks);
      ResultIsRight();
      r := root;
    }

    lemma ResultIsRight()
      requires Valid() && initialized
      ensures OwnOrigins(origins, previous) && PaddingFresh() ==> root == Scratch(h, previous)
      ensures InjectiveLeaf(h) ==>
        (Digests(slots[..count]) == FreshDigests(h, previous) <==> OwnOrigins(origins, previous))
      ensures OwnOrigins(origins, previous) && M.Injective(h.pair) && MixKeepsRoot(h) ==>
        (root == Scratch(h, previous) <==> PaddingFresh())
      ensures InjectiveLeaf(h) && InjectiveFinal(h) ==>
        (root == Scratch(h, previous) <==> OwnOrigins(origins, previous) && PaddingFresh())
    {
      RootIsScratch();
      if InjectiveLeaf(h) {
        DigestsAreFreshIff();
      }
      if OwnOrigins(origins, previous) && M.Injective(h.pair) && MixKeepsRoot(h) {
        OwnRootIsScratchIff();
      }
      if InjectiveLeaf(h) && InjectiveFinal(h) {
        RootIsScratchIff();
      }
    }

    method Renew(data: seq<byte>, chunks: seq<S.Chunk>)
      requires Valid() && chunks == S.Chunks(data)
      modifies this, slots, tree, tree.nodes
      ensures Valid() && initialized && previous == data && count == |S.Chunks(data)|
      ensures tree.nodes == old(tree.nodes) || fresh(tree.nodes)
      ensures if count <= old(slots.Length) then slots == old(slots) else fresh(slots)
      ensures clean <==>
        old(clean) && (count <= old(count) || old(count) == |old(origins)| || old(slots.Length) < count)
      ensures Follows(origins, old(slots[..]), old(origins), old(previous), data)
      ensures slots == old(slots) ==> SlotsFollow(old(slots[..]), old(previous), data)
    {
      var digests := RoomAndDigests(data, chunks);
      Install(data, chunks, digests);
    }

    lemma LiveDigests()
      requires Valid() && initialized
      ensures var digests := Digests(slots[..count]);
              && |digests| == count == |S.Chunks(previous)|
              && forall i {:trigger digests[i]} :: 0 <= i < count ==> digests[i] == DigestOf(h, origins[i], i)
    {
      var live := slots[..count];
      forall i | 0 <= i < count
        ensures Digests(live)[i] == DigestOf(h, origins[i], i)
      {
        assert live[i] == slots[i];
      }
    }

    lemma PaddedIffFresh()
      requires Valid() && initialized && count > 0
      ensures tree.Leaves() == M.Padded(Digests(slots[..count])) <==> PaddingFresh()
    {
      var digests := Digests(slots[..count]);
      assert digests[count - 1] == slots[count - 1].digest;
      tree.LeavesArePadded(digests);
    }

    lemma RootIsScratch()
      requires Valid() && initialized
      ensures OwnOrigins(origins, previous) && PaddingFresh() ==> root == Scratch(h, previous)
    {
      LiveDigests();
      if OwnOrigins(origins, previous) && count > 0 {
        OwnIsFresh(h, previous, origins, Digests(slots[..count]));
        PaddedIffFresh();
      }
    }

    /** At every moment, without collisions of the leaf hash: the digests are the hashes of the chunks exactly when each
        comes from its own chunk. */
    lemma DigestsAreFreshIff()
      requires Valid() && initialized && InjectiveLeaf(h)
      ensures Digests(slots[..count]) == FreshDigests(h, previous) <==> OwnOrigins(origins, previous)
    {
      LiveDigests();
      FreshIffOwn(h, previous, origins, Digests(slots[..count]));
    }

    /** The leaves begin with the digests, and the root is what they give. */
    lemma RootIsFinal()
      requires Valid() && initialized && count > 0
      ensures |S.Chunks(previous)| == count && |tree.Leaves()| == M.Base(count)
      ensures tree.Leaves()[..count] == Digests(slots[..count])
      ensures root == Final(h, tree.Leaves(), count)
    {
      LiveDigests();
    }

    /** At every moment: if each digest comes from its own chunk, the root is the one a new hasher would return exactly
        when the padding is not stale. */
    lemma OwnRootIsScratchIff()
      requires Valid() && initialized && OwnOrigins(origins, previous) && M.Injective(h.pair) && MixKeepsRoot(h)
      ensures root == Scratch(h, previous) <==> PaddingFresh()
    {
      LiveDigests();
      OwnIsFresh(h, previous, origins, Digests(slots[..count]));
      if count > 0 {
        RootIsFinal();
        PaddedIffFresh();
        FreshScratchIff(h, previous, tree.Leaves());
      }
    }

    /** At every moment, without collisions: the root is the one a new hasher would return exactly when each digest
        comes from its own chunk and the padding is not stale. */
    lemma RootIsScratchIff()
      requires Valid() && initialized && InjectiveLeaf(h) && InjectiveFinal(h)
      ensures root == Scratch(h, previous) <==> OwnOrigins(origins, previous) && PaddingFresh()
    {
      LiveDigests();
      DigestsAreFreshIff();
      if count > 0 {
        RootIsFinal();
        PaddedIffFresh();
        PaddedPrefix(FreshDigests(h, previous));
        ScratchIffPadded(h, previous, tree.Leaves());
      }
    }
  }
}
