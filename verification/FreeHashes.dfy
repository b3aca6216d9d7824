/** Hashes that keep all they are given, apart from the word the mix XORs the fingerprint into: what the conditions of
    `Hasher` ask of the hashes can be had together, with a mix of the program's form. */
module FreeHashes {
  import opened Bytes
  import S = ChunkScanner
  import M = MerkleTree
  import B = Bitmap
  import H = Hasher

  datatype Shape = Chunk(bytes: seq<byte>, kind: S.Kind, at: nat) | Both(left: Value, right: Value, at: nat) | Nothing

  datatype Value = Value(word: B.Word, shape: Shape)

  function Free(imprint: (Shape, nat) -> B.Word, finish: B.Word -> B.Word): H.Hashes<Value> {
    H.Hashes(
      (bytes, kind, i) => Value(H.ZeroWord(), Chunk(bytes, kind, i)),
      (a, b, i) => Value(H.ZeroWord(), Both(a, b, i)),
      (a: Value, i) => imprint(a.shape, i),
      (a: Value, v) => Value(H.Xor(a.word, finish(v)), a.shape),
      Value(H.ZeroWord(), Nothing))
  }

  lemma FinalKeepsLeaves(h: H.Hashes<Value>, imprint: (Shape, nat) -> B.Word, finish: B.Word -> B.Word,
                         l: seq<Value>, m: seq<Value>, n: nat)
    requires h == Free(imprint, finish) && M.Injective(h.pair)
    requires 0 < n <= |l| == |m| && H.Final(h, l, n) == H.Final(h, m, n)
    ensures l == m
  {
    var a, b := M.Root(h.pair, l), M.Root(h.pair, m);
    assert a.shape == b.shape;
    if |l| == 1 {
      assert l[..1] == [a] && m[..1] == [b];
      assert H.Fold(h, []) == H.ZeroWord();
      assert [a][..0] == [] && [b][..0] == [];
      assert H.Fold(h, [a]) == H.Fold(h, [b]);
      H.XorCancels(a.word, b.word, finish(H.Fold(h, [a])));
      assert l == [a] && m == [b];
    } else {
      assert a == b;
      M.EqualRootsEqualLeaves(h.pair, l, m);
    }
  }

  /** None of the conditions excludes the others, or a mix that XORs. */
  lemma FreeSuits(imprint: (Shape, nat) -> B.Word, finish: B.Word -> B.Word)
    ensures var h := Free(imprint, finish);
            H.InjectiveLeaf(h) && M.Injective(h.pair) && H.MixKeepsRoot(h) && H.InjectiveFinal(h)
  {
    var h := Free(imprint, finish);
    H.XorMixKeepsRoot(h, (a: Value) => a.word, (a: Value) => a.shape, finish);
    forall l: seq<Value>, m: seq<Value>, n: nat {:trigger H.Final(h, l, n), H.Final(h, m, n)} |
        0 < n <= |l| == |m| && H.Final(h, l, n) == H.Final(h, m, n)
      ensures l == m
    {
      FinalKeepsLeaves(h, imprint, finish, l, m, n);
    }
  }
}
