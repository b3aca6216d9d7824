/** The builder's bitmap: one bit per node, 64 to a word, set by compare-and-swap on the whole word.
    A word is the list of its 64 bits, least significant first. */
module Bitmap {

  type Word = w: seq<bool> | |w| == 64 witness seq(64, _ => false)

  function WordCount(bitCount: nat): nat {
    if bitCount % 64 != 0 then bitCount / 64 + 1 else bitCount / 64
  }

  function NewWords(bitCount: nat): (words: seq<Word>)
    ensures |words| == WordCount(bitCount)
    ensures forall i: nat :: !Has(words, i)
  {
    seq(WordCount(bitCount), _ => seq(64, _ => false))
  }

  /** The word with one more bit: `current | 1 << (i & 63)`. */
  function SetBit(current: Word, i: nat): Word {
    current[i % 64 := true]
  }

  predicate BitSet(current: Word, i: nat) {
    current[i % 64]
  }

  predicate Has(words: seq<Word>, i: nat) {
    i / 64 < |words| && BitSet(words[i / 64], i)
  }

  /** Writing the word back with the bit of `i` adds `i` and nothing else. */
  lemma SetAddsOne(words: seq<Word>, i: nat, j: nat)
    requires i / 64 < |words|
    ensures Has(words[i / 64 := SetBit(words[i / 64], i)], j) <==> i == j || Has(words, j)
  {
    if i / 64 == j / 64 && i % 64 == j % 64 {
      assert i == 64 * (i / 64) + i % 64 && j == 64 * (j / 64) + j % 64;
    }
  }

  lemma SetTwice(current: Word, i: nat)
    requires BitSet(current, i)
    ensures SetBit(current, i) == current
  {
  }
}
