/** The incremental hash tree of the chunk digests. Node 1 is the root, node i has the children 2i and 2i+1, and the
    second half of the array are the leaves, filled up to a power of two with copies of the last digest. The hash of
    a pair, which depends on the position too, is a parameter. */
module MerkleTree {

  /** The value of node `i` over the given leaves. */
  function Node<D>(pair: (D, D, nat) -> D, leaves: seq<D>, i: nat): D
    requires 1 <= i < 2 * |leaves|
    decreases 2 * |leaves| - i
  {
    if i >= |leaves| then leaves[i - |leaves|]
    else pair(Node(pair, leaves, 2 * i), Node(pair, leaves, 2 * i + 1), i)
  }

  function Root<D>(pair: (D, D, nat) -> D, leaves: seq<D>): D
    requires leaves != []
  {
    Node(pair, leaves, 1)
  }

  function BaseFrom(base: nat, n: nat): (b: nat)
    requires base > 0
    ensures b >= n && b >= base
    decreases n - base
  {
    if base < n then BaseFrom(2 * base, n) else base
  }

  /** The least power of two that is not below `n`. */
  function Base(n: nat): nat {
    BaseFrom(1, n)
  }

  /** The leaves of a tree built from scratch. */
  function Padded<D>(digests: seq<D>): (s: seq<D>)
    requires digests != []
    ensures |s| == Base(|digests|)
  {
    digests + seq(Base(|digests|) - |digests|, _ => digests[|digests| - 1])
  }

  ghost predicate Consistent<D>(pair: (D, D, nat) -> D, nodes: seq<D>, base: nat, i: nat)
    requires 1 <= i < base && |nodes| >= 2 * base
  {
    nodes[i] == pair(nodes[2 * i], nodes[2 * i + 1], i)
  }

  ghost predicate AllConsistent<D>(pair: (D, D, nat) -> D, nodes: seq<D>, base: nat, from: nat)
    requires |nodes| >= 2 * base
  {
    forall i {:trigger Consistent(pair, nodes, base, i)} :: 1 <= from <= i < base ==> Consistent(pair, nodes, base, i)
  }

  /** Consistent inner nodes hold the values of the recursive definition. */
  lemma {:induction false} ConsistentIsNode<D>(pair: (D, D, nat) -> D, nodes: seq<D>, base: nat, i: nat)
    requires base > 0 && |nodes| >= 2 * base && AllConsistent(pair, nodes, base, 1) && 1 <= i < 2 * base
    ensures nodes[i] == Node(pair, nodes[base..2 * base], i)
    decreases 2 * base - i
  {
    if i < base {
      assert Consistent(pair, nodes, base, i);
      ConsistentIsNode(pair, nodes, base, 2 * i);
      ConsistentIsNode(pair, nodes, base, 2 * i + 1);
    }
  }

  class Tree<D(==,0)> {
    const pair: (D, D, nat) -> D
    var nodes: array<D>
    var base: nat
    var count: nat
    /** The digest the padding was filled with when the tree was last built from scratch. */
    ghost var filler: D

    ghost predicate Valid()
      reads this, nodes
    {
      base == 0 ||
      (&& 0 < count <= base == Base(count) && nodes.Length >= 2 * base
       && AllConsistent(pair, nodes[..], base, 1)
       && (count < base ==> nodes[base + count] == nodes[base + count - 1])
       && forall k :: base + count < k < 2 * base ==> nodes[k] == filler)
    }

    ghost function Leaves(): seq<D>
      requires base == 0 || nodes.Length >= 2 * base
      reads this, nodes
    {
      nodes[base..2 * base]
    }

    constructor (pair: (D, D, nat) -> D)
      ensures Valid() && base == 0 && fresh(nodes) && this.pair == pair
    {
      this.pair := pair;
      nodes := new D[0];
      base, count, filler := 0, 0, *;
    }

    /** Recomputes the nodes above a changed leaf. */
    method FixPath(leaf: nat)
      requires 0 < base <= leaf < 2 * base <= nodes.Length
      requires forall i {:trigger Consistent(pair, nodes[..], base, i)} ::
        1 <= i < base && i != leaf / 2 ==> Consistent(pair, nodes[..], base, i)
      modifies nodes
      ensures AllConsistent(pair, nodes[..], base, 1)
      ensures forall k :: base <= k < nodes.Length ==> nodes[k] == old(nodes[k])
    {
      var position := leaf / 2;
      while position > 0
        invariant position < base
        invariant forall i {:trigger Consistent(pair, nodes[..], base, i)} ::
          1 <= i < base && i != position ==> Consistent(pair, nodes[..], base, i)
        invariant forall k :: base <= k < nodes.Length ==> nodes[k] == old(nodes[k])
      {
        ghost var before := nodes[..];
        nodes[position] := pair(nodes[2 * position], nodes[2 * position + 1], position);
        forall i | 1 <= i < base && i != position / 2
          ensures Consistent(pair, nodes[..], base, i)
        {
          if i != position {
            assert Consistent(pair, before, base, i);
          }
        }
        position := position / 2;
      }
    }

    method SetLeaf(leaf: nat, digest: D)
      requires 0 < base <= leaf < 2 * base <= nodes.Length && AllConsistent(pair, nodes[..], base, 1)
      modifies nodes
      ensures AllConsistent(pair, nodes[..], base, 1) && nodes[leaf] == digest
      ensures forall k :: base <= k < nodes.Length && k != leaf ==> nodes[k] == old(nodes[k])
    {
      ghost var before := nodes[..];
      nodes[leaf] := digest;
      forall i | 1 <= i < base && i != leaf / 2
        ensures Consistent(pair, nodes[..], base, i)
      {
        assert Consistent(pair, before, base, i);
      }
      FixPath(leaf);
    }

    method Rebuild(digests: seq<D>, newBase: nat)
      requires digests != [] && newBase == Base(|digests|)
      modifies this, nodes
      ensures Valid() && (nodes == old(nodes) || fresh(nodes))
      ensures base == newBase && count == |digests| && Leaves() == Padded(digests)
      ensures filler == digests[|digests| - 1]
    {
      base, count, filler := newBase, |digests|, digests[|digests| - 1];
      var treeSize := base * 2;
      if nodes.Length < treeSize {
        var capacity := nodes.Length * 2;
        if capacity < treeSize {
          capacity := treeSize;
        }
        nodes := new D[capacity];
      }
      FillLeaves(digests);
      FillInner(Padded(digests));
      forall k | base <= k < 2 * base
        ensures nodes[k] == Padded(digests)[k - base]
      {
        assert nodes[k] == nodes[base..2 * base][k - base];
      }
    }

    method FillLeaves(digests: seq<D>)
      requires digests != [] && base == Base(|digests|) && nodes.Length >= 2 * base
      modifies nodes
      ensures nodes[base..2 * base] == Padded(digests)
    {
      var n := |digests|;
      for i := 0 to n
        invariant nodes[base..base + i] == digests[..i]
      {
        nodes[base + i] := digests[i];
      }
      for i := n to base
        invariant nodes[base..base + i] == Padded(digests)[..i]
      {
        nodes[base + i] := digests[n - 1];
      }
    }

    method FillInner(ghost leaves: seq<D>)
      requires base > 0 && nodes.Length >= 2 * base && nodes[base..2 * base] == leaves
      modifies nodes
      ensures nodes[base..2 * base] == leaves && AllConsistent(pair, nodes[..], base, 1)
    {
      for i := base downto 1
        invariant AllConsistent(pair, nodes[..], base, i)
        invariant nodes[base..2 * base] == leaves
      {
        ghost var before := nodes[..];
        nodes[i] := pair(nodes[2 * i], nodes[2 * i + 1], i);
        forall k | i <= k < base
          ensures Consistent(pair, nodes[..], base, k)
        {
          if k != i {
            assert Consistent(pair, before, base, k);
          }
        }
        assert nodes[base..2 * base] == before[base..2 * base];
      }
    }

    /** Brings the leaves up to date and returns the root over them. Only the first padding leaf is refreshed, so
        the leaves are those of a tree built from scratch exactly when there is no second one or it was filled
        with the digest that is last now. */
    method HashTree(digests: seq<D>) returns (root: D)
      requires Valid() && digests != []
      modifies this, nodes
      ensures Valid() && (nodes == old(nodes) || fresh(nodes))
      ensures base == Base(|digests|) && count == |digests| && base > 0
      ensures Leaves()[..|digests|] == digests && root == Root(pair, Leaves())
      ensures filler == if old(base) == base && old(count) == count then old(filler) else digests[|digests| - 1]
      ensures Leaves() == Padded(digests) <==> base - |digests| <= 1 || digests[|digests| - 1] == filler
    {
      var newBase := 1;
      while newBase < |digests|
        invariant newBase > 0 && BaseFrom(newBase, |digests|) == Base(|digests|)
        decreases |digests| - newBase
      {
        newBase := newBase * 2;
      }
      if base != newBase || count != |digests| {
        Rebuild(digests, newBase);
      } else {
        Refresh(digests);
      }
      ConsistentIsNode(pair, nodes[..], base, 1);
      assert nodes[..][base..2 * base] == nodes[base..2 * base];
      LeavesArePadded(digests);
      root := nodes[1];
    }

    /** The same number of digests as before: only what differs is touched. */
    method Refresh(digests: seq<D>)
      requires Valid() && base > 0 && |digests| == count
      modifies nodes
      ensures Valid() && Leaves()[..|digests|] == digests
    {
      var n := |digests|;
      if n < base {
        UpdateLeaf(base + n, digests[n - 1]);
      }
      UpdateLeaves(digests);
      assert nodes[base + n - 1] == digests[n - 1];
      forall k | 0 <= k < n
        ensures Leaves()[k] == digests[k]
      {
        assert Leaves()[k] == nodes[base + k];
      }
    }

    method UpdateLeaf(leaf: nat, digest: D)
      requires 0 < base <= leaf < 2 * base <= nodes.Length && AllConsistent(pair, nodes[..], base, 1)
      modifies nodes
      ensures AllConsistent(pair, nodes[..], base, 1) && nodes[leaf] == digest
      ensures forall k :: base <= k < nodes.Length && k != leaf ==> nodes[k] == old(nodes[k])
    {
      if nodes[leaf] != digest {
        SetLeaf(leaf, digest);
      }
    }

    method UpdateLeaves(digests: seq<D>)
      requires 0 < base && |digests| <= base && 2 * base <= nodes.Length && AllConsistent(pair, nodes[..], base, 1)
      modifies nodes
      ensures AllConsistent(pair, nodes[..], base, 1)
      ensures forall k :: base <= k < base + |digests| ==> nodes[k] == digests[k - base]
      ensures forall k :: base + |digests| <= k < nodes.Length ==> nodes[k] == old(nodes[k])
    {
      for i := 0 to |digests|
        invariant AllConsistent(pair, nodes[..], base, 1)
        invariant forall k :: base <= k < base + i ==> nodes[k] == digests[k - base]
        invariant forall k :: base + |digests| <= k < nodes.Length ==> nodes[k] == old(nodes[k])
      {
        UpdateLeaf(base + i, digests[i]);
      }
    }

    lemma LeavesArePadded(digests: seq<D>)
      requires Valid() && base > 0 && |digests| == count && Leaves()[..|digests|] == digests
      ensures Leaves() == Padded(digests) <==> base - count <= 1 || digests[count - 1] == filler
    {
      var l, last := Leaves(), digests[count - 1];
      assert forall k :: 0 <= k < count ==> l[k] == digests[k];
      forall j | count < j < base
        ensures l[j] == filler
      {
        assert l[j] == nodes[base + j];
      }
      if base - count > 1 {
        assert l[count + 1] == filler && Padded(digests)[count + 1] == last;
      }
    }
  }

  // ---------------------------------------------------------------- incremental against built from scratch

  ghost predicate Injective<D(!new)>(pair: (D, D, nat) -> D) {
    forall a, b, c, d, i {:trigger pair(a, b, i), pair(c, d, i)} :: pair(a, b, i) == pair(c, d, i) ==> a == c && b == d
  }

  lemma {:induction false} EqualRootsEqualNodes<D(!new)>(pair: (D, D, nat) -> D, l: seq<D>, m: seq<D>, i: nat)
    requires Injective(pair) && |l| == |m| > 0 && Root(pair, l) == Root(pair, m) && 1 <= i < 2 * |l|
    ensures Node(pair, l, i) == Node(pair, m, i)
  {
    if i > 1 {
      EqualRootsEqualNodes(pair, l, m, i / 2);
      assert i == 2 * (i / 2) || i == 2 * (i / 2) + 1;
    }
  }

  /** With a pair hash free of collisions, equal roots mean equal leaves. Together with `HashTree` this says: the
      root equals that of a tree built from scratch exactly when the leaves do. */
  lemma EqualRootsEqualLeaves<D(!new)>(pair: (D, D, nat) -> D, l: seq<D>, m: seq<D>)
    requires Injective(pair) && |l| == |m| > 0
    ensures Root(pair, l) == Root(pair, m) <==> l == m
  {
    if Root(pair, l) == Root(pair, m) {
      forall k | 0 <= k < |l|
        ensures l[k] == m[k]
      {
        EqualRootsEqualNodes(pair, l, m, |l| + k);
      }
    }
  }

  // ---------------------------------------------------------------- the tree by halves

  function Power2(n: nat): (p: nat)
    ensures p > 0
  {
    if n == 0 then 1 else 2 * Power2(n - 1)
  }

  /** The hash of a row of leaves, numbered `i`: that of its halves, the left one first, numbered `2i` and `2i + 1`. */
  function ByHalves<D>(pair: (D, D, nat) -> D, leaves: seq<D>, i: nat, levels: nat): D
    requires |leaves| == Power2(levels)
  {
    if levels == 0 then leaves[0]
    else
      var half := Power2(levels - 1);
      pair(ByHalves(pair, leaves[..half], 2 * i, levels - 1), ByHalves(pair, leaves[half..], 2 * i + 1, levels - 1), i)
  }

  lemma {:induction false} NodeIsByHalves<D>(pair: (D, D, nat) -> D, leaves: seq<D>, i: nat, levels: nat, from: nat)
    requires leaves != [] && i > 0 && i * Power2(levels) == |leaves| + from && from + Power2(levels) <= |leaves|
    ensures Node(pair, leaves, i) == ByHalves(pair, leaves[from..from + Power2(levels)], i, levels)
    decreases levels
  {
    if levels > 0 {
      var half := Power2(levels - 1);
      HalfSteps(i, half);
      var row := leaves[from..from + Power2(levels)];
      assert row[..half] == leaves[from..from + half] && row[half..] == leaves[from + half..from + half + half];
      NodeIsByHalves(pair, leaves, 2 * i, levels - 1, from);
      NodeIsByHalves(pair, leaves, 2 * i + 1, levels - 1, from + half);
      Inner(i, half, |leaves|, from);
    }
  }

  lemma HalfSteps(i: nat, half: nat)
    ensures i * (2 * half) == 2 * i * half && (2 * i + 1) * half == 2 * i * half + half
  {
  }

  lemma Inner(i: nat, half: nat, n: nat, from: nat)
    requires i * (2 * half) == n + from && from + 2 * half <= n && half > 0
    ensures i < n
  {
    if i >= n {
      Grows(i, n, 2 * half);
    }
  }

  lemma Grows(i: nat, n: nat, width: nat)
    requires i >= n && width >= 2
    ensures i * width >= 2 * n
  {
    assert i * width == n * width + (i - n) * width;
    assert n * width == 2 * n + n * (width - 2);
  }

  /** The root of a row of leaves of a power of two: the tree by halves, left to right. */
  lemma RootIsByHalves<D>(pair: (D, D, nat) -> D, leaves: seq<D>, levels: nat)
    requires |leaves| == Power2(levels)
    ensures Root(pair, leaves) == ByHalves(pair, leaves, 1, levels)
  {
    NodeIsByHalves(pair, leaves, 1, levels, 0);
    assert leaves[0..0 + Power2(levels)] == leaves;
  }

  lemma {:induction false} BaseIsPower(base: nat, level: nat, n: nat) returns (levels: nat)
    requires base == Power2(level)
    ensures levels >= level && BaseFrom(base, n) == Power2(levels)
    ensures levels > level ==> Power2(levels - 1) < n
    decreases n - base
  {
    levels := level;
    if base < n {
      levels := BaseIsPower(2 * base, level + 1, n);
    }
  }

  /** So is every rebuilt tree: the digests, and copies of the last one up to the next power of two. */
  lemma PaddedRoot<D>(pair: (D, D, nat) -> D, digests: seq<D>) returns (levels: nat)
    requires digests != []
    ensures |digests| <= Power2(levels) && (levels > 0 ==> Power2(levels - 1) < |digests|)
    ensures Power2(levels) == |Padded(digests)|
    ensures forall k {:trigger Padded(digests)[k]} :: 0 <= k < Power2(levels) ==>
      Padded(digests)[k] == digests[if k < |digests| then k else |digests| - 1]
    ensures Root(pair, Padded(digests)) == ByHalves(pair, Padded(digests), 1, levels)
  {
    levels := BaseIsPower(1, 0, |digests|);
    RootIsByHalves(pair, Padded(digests), levels);
  }

  // ---------------------------------------------------------------- a stale padding leaf

  datatype Term = Leaf(n: nat) | Both(left: Term, right: Term, at: nat)

  /** Five digests leave three padding leaves. When the last digest changes, only the first is refreshed, and the
      root is not that of a tree built from scratch. */
  method StalePadding() returns (root: Term, fromScratch: Term)
    ensures root != fromScratch
  {
    var pair: (Term, Term, nat) -> Term := (l: Term, r: Term, at: nat) => Both(l, r, at);
    var tree := new Tree<Term>(pair);
    var before := [Leaf(0), Leaf(1), Leaf(2), Leaf(3), Leaf(4)];
    var after := before[4 := Leaf(5)];
    assert Base(5) == 8;
    root := tree.HashTree(before);
    root := tree.HashTree(after);
    fromScratch := Root(pair, Padded(after));
    EqualRootsEqualLeaves(pair, tree.Leaves(), Padded(after));
  }
}
