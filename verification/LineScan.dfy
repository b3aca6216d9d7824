/** Splitting a file into lines: blocks of 32 bytes turned into bit masks, newline offsets taken from the masks bit by
    bit, and what a line is. A char stands for one byte, and a mask is the list of its bits, lowest first. */
module LineScan {

  // ---------------------------------------------------------------- bits

  type Mask = m: seq<bool> | |m| == 32 witness seq(32, _ => false)

  datatype Block = Block(newlines: Mask, hashes: Mask, spaces: Mask)

  /** The number some bits stand for. */
  function Number(bits: seq<bool>): nat {
    if bits == [] then 0 else (if bits[0] then 1 else 0) + 2 * Number(bits[1..])
  }

  /** Subtracting one: the borrow runs up to the lowest bit that is set. */
  function Decrement(bits: seq<bool>): (r: seq<bool>)
    ensures |r| == |bits|
  {
    if bits == [] then [] else if bits[0] then [false] + bits[1..] else [true] + Decrement(bits[1..])
  }

  lemma {:induction false} DecrementIsMinusOne(bits: seq<bool>)
    requires Number(bits) != 0
    ensures Number(Decrement(bits)) == Number(bits) - 1
  {
    if bits[0] {
      assert ([false] + bits[1..])[1..] == bits[1..];
    } else {
      DecrementIsMinusOne(bits[1..]);
      assert ([true] + Decrement(bits[1..]))[1..] == Decrement(bits[1..]);
    }
  }

  function And(a: seq<bool>, b: seq<bool>): (c: seq<bool>)
    requires |a| == |b|
    ensures |c| == |a| && forall k {:trigger c[k]} :: 0 <= k < |c| ==> c[k] == (a[k] && b[k])
  {
    seq(|a|, k requires 0 <= k < |a| => a[k] && b[k])
  }

  function TrailingZeros(bits: seq<bool>): (n: nat)
    ensures n <= |bits| && (forall k :: 0 <= k < n ==> !bits[k]) && (n < |bits| ==> bits[n])
  {
    if bits == [] || bits[0] then 0 else 1 + TrailingZeros(bits[1..])
  }

  lemma {:induction false} ZeroIsNoBits(bits: seq<bool>)
    ensures Number(bits) == 0 <==> TrailingZeros(bits) == |bits|
  {
    if bits != [] {
      ZeroIsNoBits(bits[1..]);
    }
  }

  lemma {:induction false} DecrementBit(bits: seq<bool>, k: nat)
    requires k < |bits|
    ensures Decrement(bits)[k] ==
      if k < TrailingZeros(bits) then true else if k == TrailingZeros(bits) then false else bits[k]
  {
    if !bits[0] && k > 0 {
      DecrementBit(bits[1..], k - 1);
    }
  }

  /** The word and the word minus one, combined: the lowest set bit is gone and nothing else changes. */
  lemma ClearLowest(bits: seq<bool>)
    requires Number(bits) != 0
    ensures TrailingZeros(bits) < |bits|
    ensures And(bits, Decrement(bits)) == bits[TrailingZeros(bits) := false]
  {
    ZeroIsNoBits(bits);
    forall k | 0 <= k < |bits|
      ensures And(bits, Decrement(bits))[k] == bits[TrailingZeros(bits) := false][k]
    {
      DecrementBit(bits, k);
    }
  }

  // ---------------------------------------------------------------- where the newlines are

  /** The newline positions of the first `n` bytes, in increasing order. */
  function Newlines(data: string, n: nat): (r: seq<nat>)
    requires n <= |data|
    ensures |r| <= n
  {
    if n == 0 then [] else Newlines(data, n - 1) + if data[n - 1] == '\n' then [n - 1] else []
  }

  /** They are all the newlines, each once, in order. */
  lemma {:induction false} NewlinesAreAll(data: string, n: nat)
    requires n <= |data|
    ensures var r := Newlines(data, n);
            && (forall k {:trigger r[k]} :: 0 <= k < |r| ==> r[k] < n && data[r[k]] == '\n')
            && (forall k, l {:trigger r[k], r[l]} :: 0 <= k < l < |r| ==> r[k] < r[l])
            && (forall i {:trigger data[i]} :: 0 <= i < n && data[i] == '\n' ==> i in r)
  {
    if n > 0 {
      NewlinesAreAll(data, n - 1);
      var before, r := Newlines(data, n - 1), Newlines(data, n);
      forall i {:trigger data[i]} | 0 <= i < n && data[i] == '\n'
        ensures i in r
      {
        if i < n - 1 {
          assert i in before;
        } else {
          assert r[|r| - 1] == i;
        }
      }
    }
  }

  ghost predicate MasksOf(data: string, block: nat, b: Block)
    requires 32 * block + 32 <= |data|
  {
    forall k {:trigger b.newlines[k]} {:trigger b.hashes[k]} {:trigger b.spaces[k]} :: 0 <= k < 32 ==>
      var c := data[32 * block + k];
      && b.newlines[k] == (c == '\n') && b.hashes[k] == (c == '#')
      && b.spaces[k] == (c == ' ' || c == '\t' || c == '\r')
  }

  method MaskBlock(data: string, block: nat) returns (b: Block)
    requires 32 * block + 32 <= |data|
    ensures MasksOf(data, block, b)
  {
    var none: Mask := seq(32, _ => false);
    b := Block(none, none, none);
    for offset := 0 to 32
      invariant forall k {:trigger b.newlines[k]} {:trigger b.hashes[k]} {:trigger b.spaces[k]} :: 0 <= k < 32 ==>
        var c := data[32 * block + k];
        && b.newlines[k] == (k < offset && c == '\n') && b.hashes[k] == (k < offset && c == '#')
        && b.spaces[k] == (k < offset && (c == ' ' || c == '\t' || c == '\r'))
    {
      var value := data[32 * block + offset];
      if value == '\n' {
        b := b.(newlines := b.newlines[offset := true]);
      } else if value == '#' {
        b := b.(hashes := b.hashes[offset := true]);
      } else if value == ' ' || value == '\t' || value == '\r' {
        b := b.(spaces := b.spaces[offset := true]);
      }
    }
  }

  lemma {:induction false} NoNewlines(data: string, low: nat, high: nat)
    requires low <= high <= |data| && forall k :: low <= k < high ==> data[k] != '\n'
    ensures Newlines(data, high) == Newlines(data, low)
  {
    if low < high {
      NoNewlines(data, low, high - 1);
    }
  }

  lemma NoBitNoNewline(data: string, block: nat, mask: Mask, left: seq<bool>, low: nat, high: nat)
    requires 32 * block + 32 <= |data| && low <= high <= |left| == 32
    requires forall k {:trigger mask[k]} :: 0 <= k < 32 ==> mask[k] == (data[32 * block + k] == '\n')
    requires forall k {:trigger left[k]} :: 0 <= k < 32 ==> left[k] == (low <= k && mask[k])
    requires forall k :: 0 <= k < high ==> !left[k]
    ensures Newlines(data, 32 * block + high) == Newlines(data, 32 * block + low)
  {
    forall p | 32 * block + low <= p < 32 * block + high
      ensures data[p] != '\n'
    {
      assert !left[p - 32 * block];
    }
    NoNewlines(data, 32 * block + low, 32 * block + high);
  }

  /** The bits of the mask from `low` on. */
  ghost predicate IsLeft(mask: Mask, left: seq<bool>, low: nat) {
    |left| == 32 && forall k {:trigger left[k]} :: 0 <= k < 32 ==> left[k] == (low <= k && mask[k])
  }

  ghost predicate MasksNewlines(data: string, block: nat, mask: Mask) {
    && 32 * block + 32 <= |data|
    && forall k {:trigger mask[k]} :: 0 <= k < 32 ==> mask[k] == (data[32 * block + k] == '\n')
  }

  /** Taking the lowest bit off takes the next newline. */
  lemma TakesLowest(data: string, block: nat, mask: Mask, left: seq<bool>, low: nat) returns (bit: nat)
    requires MasksNewlines(data, block, mask) && low <= 32 && IsLeft(mask, left, low) && Number(left) != 0
    ensures bit == TrailingZeros(left) && low <= bit < 32
    ensures IsLeft(mask, And(left, Decrement(left)), bit + 1)
    ensures Newlines(data, 32 * block + bit + 1) == Newlines(data, 32 * block + low) + [32 * block + bit]
    ensures |Newlines(data, 32 * block + bit)| <= 32 * block + bit
    ensures Newlines(data, 32 * block + bit) == Newlines(data, 32 * block + low)
  {
    ClearLowest(left);
    bit := TrailingZeros(left);
    assert left[bit];
    NoBitNoNewline(data, block, mask, left, low, bit);
  }

  lemma NothingLeft(data: string, block: nat, mask: Mask, left: seq<bool>, low: nat)
    requires MasksNewlines(data, block, mask) && low <= 32 && IsLeft(mask, left, low) && Number(left) == 0
    ensures Newlines(data, 32 * block + 32) == Newlines(data, 32 * block + low)
  {
    ZeroIsNoBits(left);
    NoBitNoNewline(data, block, mask, left, low, 32);
  }

  /** One bit from the mask to the offset list. */
  method TakeOffset(data: string, block: nat, ghost mask: Mask, newlines: seq<bool>, ghost low: nat,
      offsets: array<nat>, count: nat)
    returns (rest: seq<bool>, ghost next: nat)
    requires MasksNewlines(data, block, mask) && block < 2048 && 32 * block + 32 <= offsets.Length
    requires low <= 32 && IsLeft(mask, newlines, low) && Number(newlines) != 0
    requires count <= offsets.Length && offsets[..count] == Newlines(data, 32 * block + low)
    modifies offsets
    ensures low < next <= 32 && IsLeft(mask, rest, next)
    ensures count < offsets.Length && offsets[..count + 1] == Newlines(data, 32 * block + next)
  {
    next := TakesLowest(data, block, mask, newlines, low);
    var bit := TrailingZeros(newlines);
    offsets[count] := (block * 32 + bit) % 65536;
    rest := And(newlines, Decrement(newlines));
    next := next + 1;
  }

  /** Bits from the mask to the offset list, the lowest first. */
  method TakeOffsets(data: string, block: nat, mask: Mask, offsets: array<nat>, count: nat) returns (newlineCount: nat)
    requires MasksNewlines(data, block, mask) && block < 2048
    requires 32 * block + 32 <= offsets.Length && count <= offsets.Length
    requires offsets[..count] == Newlines(data, 32 * block)
    modifies offsets
    ensures newlineCount <= offsets.Length && offsets[..newlineCount] == Newlines(data, 32 * block + 32)
  {
    newlineCount := count;
    var newlines: seq<bool> := mask;
    ghost var low: nat := 0;
    while Number(newlines) != 0
      invariant low <= 32 && newlineCount <= offsets.Length && IsLeft(mask, newlines, low)
      invariant offsets[..newlineCount] == Newlines(data, 32 * block + low)
      decreases 32 - low
    {
      newlines, low := TakeOffset(data, block, mask, newlines, low, offsets, newlineCount);
      newlineCount := newlineCount + 1;
    }
    NothingLeft(data, block, mask, newlines, low);
  }

  function Min(a: nat, b: nat): nat {
    if a < b then a else b
  }

  /** Masks and newline offsets of as many blocks as there is data and room for. Offsets are 16-bit numbers, so the
      output must not hold more than 2048 blocks. */
  method ScanBlocks(data: string, out: array<Block>, offsets: array<nat>) returns (blocks: nat, newlineCount: nat)
    requires out.Length <= 2048
    modifies out, offsets
    ensures blocks == Min(|data| / 32, Min(out.Length, offsets.Length / 32))
    ensures forall k {:trigger out[k]} :: 0 <= k < blocks ==> MasksOf(data, k, out[k])
    ensures newlineCount <= offsets.Length && offsets[..newlineCount] == Newlines(data, 32 * blocks)
  {
    blocks := |data| / 32;
    if blocks > out.Length {
      blocks := out.Length;
    }
    var offsetBlocks := offsets.Length / 32;
    if blocks > offsetBlocks {
      blocks := offsetBlocks;
    }
    newlineCount := 0;
    for blockIndex := 0 to blocks
      invariant newlineCount <= offsets.Length && offsets[..newlineCount] == Newlines(data, 32 * blockIndex)
      invariant forall k {:trigger out[k]} :: 0 <= k < blockIndex ==> MasksOf(data, k, out[k])
    {
      var block := MaskBlock(data, blockIndex);
      out[blockIndex] := block;
      newlineCount := TakeOffsets(data, blockIndex, block.newlines, offsets, newlineCount);
    }
  }

  // ---------------------------------------------------------------- lines

  function NextNewline(source: string, from: nat): (e: nat)
    requires from <= |source|
    ensures from <= e <= |source| && (e < |source| ==> source[e] == '\n')
    ensures forall k :: from <= k < e ==> source[k] != '\n'
    decreases |source| - from
  {
    if from == |source| || source[from] == '\n' then from else NextNewline(source, from + 1)
  }

  /** The lines from `start` on; an empty last one does not count. */
  function LinesFrom(source: string, start: nat): seq<string>
    requires start <= |source|
    decreases |source| - start
  {
    var e := NextNewline(source, start);
    if start == |source| then []
    else if e == |source| then [source[start..]]
    else [source[start..e]] + LinesFrom(source, e + 1)
  }

  function Ended(lines: seq<string>): string {
    if lines == [] then "" else lines[0] + ("\n" + Ended(lines[1..]))
  }

  /** The lines, each with a newline behind it, are the text, up to the newline the last line may lack. */
  lemma {:induction false} LinesAreText(source: string, start: nat)
    requires start <= |source|
    ensures var t := Ended(LinesFrom(source, start));
            if start == |source| || source[|source| - 1] == '\n' then t == source[start..]
            else t == source[start..] + "\n"
    decreases |source| - start
  {
    var e := NextNewline(source, start);
    if start == |source| {
    } else if e == |source| {
    } else {
      LinesAreText(source, e + 1);
      CutLine(source, start, e);
      assert LinesFrom(source, start)[1..] == LinesFrom(source, e + 1);
    }
  }

  lemma CutLine(source: string, start: nat, e: nat)
    requires start <= e < |source| && source[e] == '\n'
    ensures source[start..] == source[start..e] + ("\n" + source[e + 1..])
    ensures source[start..] + "\n" == source[start..e] + ("\n" + (source[e + 1..] + "\n"))
  {
  }

  lemma {:induction false} LinesHaveNoNewline(source: string, start: nat, k: nat)
    requires start <= |source| && k < |LinesFrom(source, start)|
    ensures '\n' !in LinesFrom(source, start)[k]
    decreases |source| - start
  {
    var e := NextNewline(source, start);
    if k > 0 {
      LinesHaveNoNewline(source, e + 1, k - 1);
    }
  }
}
