/** Three texts after which the hasher carries a digest that is not the hash of its chunk. */
module StaleDigest {
  import opened Bytes
  import S = ChunkScanner
  import H = Hasher

  /** A byte that means nothing to the scanner. */
  predicate IsLetter(b: byte) {
    97 <= b <= 122
  }

  const PLAIN: S.Mode := S.Mode(0, false, 0, false, false, false, false)

  lemma PlainStep(m: S.Mode, b: byte, follower: byte)
    requires m == PLAIN || m == PLAIN.(lineStart := true)
    requires IsLetter(b) || b == S.SEMICOLON
    ensures S.Step(m, b, follower) == PLAIN
  {
  }

  ghost predicate IsPlain(data: seq<byte>) {
    forall i {:trigger data[i]} :: 0 <= i < |data| ==> IsLetter(data[i]) || data[i] == S.SEMICOLON
  }

  /** Letters and semicolons never leave the top level of the code. */
  lemma {:induction false} PlainMode(data: seq<byte>, k: nat)
    requires k <= |data| && IsPlain(data)
    ensures S.ModeAt(data, k) == if k == 0 then PLAIN.(lineStart := true) else PLAIN
  {
    if k > 0 {
      PlainMode(data, k - 1);
      PlainStep(S.ModeAt(data, k - 1), data[k - 1], S.Follower(data, k - 1));
    }
  }

  lemma PlainAdvance(data: seq<byte>, k: nat)
    requires 0 < k <= |data| && IsPlain(data)
    ensures var before := S.After(data, k - 1);
      S.After(data, k) == if data[k - 1] == S.SEMICOLON then S.Finish(before, k, S.Statement) else before
  {
    PlainMode(data, k - 1);
  }

  lemma InkOnly(data: seq<byte>, c: S.Chunk)
    requires c.start < c.end <= |data| && !S.IsSpace(data[c.start]) && !S.IsSpace(data[c.end - 1])
    ensures S.Trimmed(data, c) == c
  {
  }

  lemma TwoRaw(data: seq<byte>)
    requires |data| == 4 && IsLetter(data[0]) && IsLetter(data[2]) && data[1] == data[3] == S.SEMICOLON
    ensures S.RawChunks(data) == [S.Chunk(0, 2, S.Statement), S.Chunk(2, 4, S.Statement)]
  {
    PlainAdvance(data, 1);
    PlainAdvance(data, 2);
    PlainAdvance(data, 3);
    PlainAdvance(data, 4);
    var a, b := S.Chunk(0, 2, S.Statement), S.Chunk(2, 4, S.Statement);
    assert S.After(data, 2) == S.Progress([a], 2) && S.After(data, 4) == S.Progress([a, b], 4);
  }

  lemma OneStays(a: S.Chunk)
    requires a.start < a.end
    ensures S.NonEmpty([a]) == [a]
  {
    assert [a][..0] == [] && S.NonEmpty([]) == [];
    assert S.NonEmpty([a]) == [] + [a] == [a];
  }

  lemma BothStay(a: S.Chunk, b: S.Chunk)
    requires a.start < a.end && b.start < b.end
    ensures S.NonEmpty([a, b]) == [a, b]
  {
    OneStays(a);
    assert [a, b][..1] == [a];
    assert S.NonEmpty([a, b]) == [a] + [b] == [a, b];
  }

  lemma TwoStatements(data: seq<byte>)
    requires |data| == 4 && IsLetter(data[0]) && IsLetter(data[2]) && data[1] == data[3] == S.SEMICOLON
    ensures S.Chunks(data) == [S.Chunk(0, 2, S.Statement), S.Chunk(2, 4, S.Statement)]
  {
    var a, b := S.Chunk(0, 2, S.Statement), S.Chunk(2, 4, S.Statement);
    TwoRaw(data);
    InkOnly(data, a);
    InkOnly(data, b);
    assert S.TrimmedAll(data, [a, b]) == [a, b];
    BothStay(a, b);
  }

  lemma OneRaw(data: seq<byte>)
    requires |data| == 4 && IsLetter(data[0]) && IsLetter(data[1]) && IsLetter(data[2]) && data[3] == S.SEMICOLON
    ensures S.RawChunks(data) == [S.Chunk(0, 4, S.Statement)]
  {
    PlainAdvance(data, 1);
    PlainAdvance(data, 2);
    PlainAdvance(data, 3);
    PlainAdvance(data, 4);
    assert S.After(data, 4) == S.Progress([S.Chunk(0, 4, S.Statement)], 4);
  }

  lemma OneStatement(data: seq<byte>)
    requires |data| == 4 && IsLetter(data[0]) && IsLetter(data[1]) && IsLetter(data[2]) && data[3] == S.SEMICOLON
    ensures S.Chunks(data) == [S.Chunk(0, 4, S.Statement)]
  {
    var a := S.Chunk(0, 4, S.Statement);
    OneRaw(data);
    InkOnly(data, a);
    assert S.TrimmedAll(data, [a]) == [a];
    OneStays(a);
  }

  lemma SecondSlot<D(0,!new)>(hasher: H.Hasher<D>, text: seq<byte>)
    requires hasher.Valid() && hasher.initialized && hasher.previous == text && hasher.count == 2
    requires |text| == 4 && S.Chunks(text) == [S.Chunk(0, 2, S.Statement), S.Chunk(2, 4, S.Statement)]
    requires H.OwnOrigins(hasher.origins, text)
    ensures hasher.slots[1] == H.Slot(S.Chunk(2, 4, S.Statement), hasher.h.leaf(text[2..4], S.Statement, 1))
  {
    assert hasher.slots[1] == hasher.slots[..2][1];
    assert hasher.origins[1] == H.OriginAt(text, 1);
  }

  method HashTwo<D(==,0,!new)>(h: H.Hashes<D>, zero: D, text: seq<byte>) returns (hasher: H.Hasher<D>)
    requires |text| == 4 && S.Chunks(text) == [S.Chunk(0, 2, S.Statement), S.Chunk(2, 4, S.Statement)]
    ensures fresh(hasher) && fresh(hasher.slots) && fresh(hasher.tree) && fresh(hasher.tree.nodes) && hasher.h == h
    ensures hasher.Valid() && hasher.initialized && hasher.previous == text && hasher.count == 2
    ensures hasher.slots[1] == H.Slot(S.Chunk(2, 4, S.Statement), h.leaf(text[2..4], S.Statement, 1))
  {
    hasher := new H.Hasher<D>(h, zero);
    var r := hasher.Update(text);
    H.NoneTakenOver<D>([], [], text);
    SecondSlot(hasher, text);
  }

  /** A text of one chunk leaves the second slot as it was. */
  method GiveUpSecond<D(==,0,!new)>(hasher: H.Hasher<D>, text: seq<byte>)
    requires hasher.Valid() && hasher.initialized && hasher.count == 2 && hasher.previous != text
    requires |S.Chunks(text)| == 1
    modifies hasher, hasher.slots, hasher.tree, hasher.tree.nodes
    ensures hasher.Valid() && hasher.initialized && hasher.previous == text && hasher.count == 1
    ensures hasher.slots == old(hasher.slots) && hasher.slots.Length >= 2 && hasher.slots[1] == old(hasher.slots[1])
    ensures hasher.tree.nodes == old(hasher.tree.nodes) || fresh(hasher.tree.nodes)
  {
    var r := hasher.Update(text);
  }

  /** A text of two chunks takes the digest of the second slot over if that matches. */
  method ShowSecond<D(==,0,!new)>(hasher: H.Hasher<D>, text: seq<byte>)
    requires hasher.Valid() && hasher.initialized && hasher.slots.Length >= 2 && hasher.previous != text
    requires |S.Chunks(text)| == 2 && H.Matches(hasher.slots[1], hasher.previous, text, H.ChunksIn(text)[1])
    modifies hasher, hasher.slots, hasher.tree, hasher.tree.nodes
    ensures hasher.Valid() && hasher.initialized && hasher.previous == text && hasher.count == 2
    ensures hasher.slots[1].digest == old(hasher.slots[1].digest)
  {
    var r := hasher.Update(text);
  }

  /** For example the texts `a;b;`, `axc;` and `a;c;`: the second slot is given up and shown again, and the digest of
      `b;` is taken for `c;`. */
  method ReuseStaleDigest<D(==,0,!new)>(h: H.Hashes<D>, zero: D, first: seq<byte>, second: seq<byte>, third: seq<byte>)
    returns (hasher: H.Hasher<D>)
    requires |first| == |second| == |third| == 4 && first[1] == third[1] == S.SEMICOLON
    requires first[3] == second[3] == third[3] == S.SEMICOLON && second[2] == third[2]
    requires IsLetter(first[0]) && IsLetter(first[2]) && IsLetter(third[0]) && IsLetter(third[2])
    requires IsLetter(second[0]) && IsLetter(second[1])
    requires h.leaf(first[2..4], S.Statement, 1) != h.leaf(third[2..4], S.Statement, 1)
    ensures fresh(hasher) && hasher.h == h && hasher.Valid() && hasher.previous == third && hasher.count == 2
    ensures |H.FreshDigests(h, third)| == 2 && hasher.slots[1].digest != H.FreshDigests(h, third)[1]
  {
    TwoStatements(first);
    OneStatement(second);
    TwoStatements(third);
    assert second[1] != first[1] && second[1] != third[1] && second[2..4] == third[2..4];
    hasher := HashTwo(h, zero, first);
    GiveUpSecond(hasher, second);
    ShowSecond(hasher, third);
  }
}
