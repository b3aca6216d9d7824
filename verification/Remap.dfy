/** Renumbering a graph along an order of its nodes, so that the builder may run through it front to back. */
module Remap {
  import opened Graphs

  ghost predicate Sorted(s: seq<int>) {
    forall i, j :: 0 <= i < j < |s| ==> s[i] <= s[j]
  }

  // The library's sort of integers, of which only the result matters here.

  function Insert(x: int, s: seq<int>): seq<int> {
    if s == [] || x >= s[|s| - 1] then s + [x] else Insert(x, s[..|s| - 1]) + [s[|s| - 1]]
  }

  function SortInts(s: seq<int>): seq<int> {
    if s == [] then [] else Insert(s[|s| - 1], SortInts(s[..|s| - 1]))
  }

  lemma {:induction false} InsertKeeps(x: int, s: seq<int>)
    ensures |Insert(x, s)| == |s| + 1
    ensures forall y :: Times(Insert(x, s), y) == Times(s, y) + if x == y then 1 else 0
    ensures Sorted(s) ==> Sorted(Insert(x, s))
    ensures forall k :: 0 <= k <= |s| ==> Insert(x, s)[k] == x || Insert(x, s)[k] in s
  {
    if s == [] || x >= s[|s| - 1] {
      assert (s + [x])[..|s|] == s;
    } else {
      var t := s[..|s| - 1];
      InsertKeeps(x, t);
      var u := Insert(x, t);
      assert (u + [s[|s| - 1]])[..|s|] == u;
      assert forall y :: y in t ==> y in s;
      if Sorted(s) {
        assert forall y :: y in t ==> y <= s[|s| - 1];
      }
    }
  }

  lemma {:induction false} SortKeeps(s: seq<int>)
    ensures Sorted(SortInts(s)) && |SortInts(s)| == |s|
    ensures forall y :: Times(SortInts(s), y) == Times(s, y)
  {
    if s != [] {
      SortKeeps(s[..|s| - 1]);
      InsertKeeps(s[|s| - 1], SortInts(s[..|s| - 1]));
    }
  }

  // ---------------------------------------------------------------- renumbering

  /** `row` is a node's list under the new numbers when `before` is its list under the old ones. */
  ghost predicate Renumbered(order: seq<int>, before: seq<int>, row: seq<int>) {
    && |row| == |before| && InBounds(row, |order|) && Sorted(row)
    && forall j {:trigger Times(row, j)} :: 0 <= j < |order| ==> Times(row, j) == Times(before, order[j])
  }

  ghost predicate Inverse(pos: seq<int>, order: seq<int>) {
    && |pos| == |order|
    && forall x :: 0 <= x < |pos| ==> 0 <= pos[x] < |order| && order[pos[x]] == x
  }

  lemma TranslatedTimes(order: seq<int>, pos: seq<int>, s: seq<int>, row: seq<int>, x: int)
    requires IsPermutation(order, |order|) && Inverse(pos, order) && 0 <= x < |order|
    requires forall j {:trigger Times(row, j)} :: 0 <= j < |order| ==> Times(row, j) == Times(s, order[j])
    ensures forall j {:trigger Times(row + [pos[x]], j)} :: 0 <= j < |order| ==>
      Times(row + [pos[x]], j) == Times(s + [x], order[j])
  {
    assert (row + [pos[x]])[..|row|] == row && (s + [x])[..|s|] == s;
    forall j | 0 <= j < |order|
      ensures Times(row + [pos[x]], j) == Times(s + [x], order[j])
    {
      assert Times(row, j) == Times(s, order[j]);
      assert j < pos[x] || pos[x] < j ==> order[j] != order[pos[x]];
    }
  }

  method Invert(order: seq<int>) returns (pos: array<int>)
    requires IsPermutation(order, |order|)
    ensures fresh(pos) && Inverse(pos[..], order)
  {
    var n := |order|;
    pos := new int[n];
    for i := 0 to n
      invariant forall k :: 0 <= k < i ==> pos[order[k]] == k
    {
      pos[order[i]] := i;
    }
    forall x | 0 <= x < n
      ensures 0 <= pos[x] < n && order[pos[x]] == x
    {
      PermutationCovers(order, n, x);
      var k :| 0 <= k < n && order[k] == x;
      assert pos[order[k]] == k;
    }
  }

  method TranslateRow(order: seq<int>, pos: array<int>, deps: seq<int>) returns (row: seq<int>)
    requires IsPermutation(order, |order|) && Inverse(pos[..], order) && InBounds(deps, |order|)
    ensures Renumbered(order, deps, row)
  {
    row := [];
    ghost var p := pos[..];
    assert deps[..0] == [];
    for k := 0 to |deps|
      invariant |row| == k && InBounds(row, |order|)
      invariant forall j {:trigger Times(row, j)} :: 0 <= j < |order| ==> Times(row, j) == Times(deps[..k], order[j])
    {
      assert deps[k] in deps;
      TranslatedTimes(order, p, deps[..k], row, deps[k]);
      assert deps[..k + 1] == deps[..k] + [deps[k]];
      row := row + [pos[deps[k]]];
    }
    assert deps[..|deps|] == deps;
    if |row| > 1 {
      SortKeeps(row);
      ghost var unsorted := row;
      row := SortInts(row);
      forall y | y in row
        ensures 0 <= y < |order|
      {
        TimesPositive(row, y);
        TimesPositive(unsorted, y);
      }
    }
  }

  method RemapDependencies(order: seq<int>, g: Graph) returns (remapped: Graph)
    requires InRange(g) && IsPermutation(order, |g|)
    ensures |remapped| == |g|
    ensures forall i :: 0 <= i < |g| ==> Renumbered(order, g[order[i]], remapped[i])
  {
    var pos := Invert(order);
    remapped := [];
    for i := 0 to |order|
      invariant |remapped| == i && Inverse(pos[..], order)
      invariant forall k :: 0 <= k < i ==> Renumbered(order, g[order[k]], remapped[k])
    {
      assert InBounds(g[order[i]], |g|);
      var row := TranslateRow(order, pos, g[order[i]]);
      remapped := remapped + [row];
    }
  }

  /** The new graph is the old one with the nodes renamed. */
  lemma SameEdges(order: seq<int>, g: Graph, remapped: Graph, i: nat, j: nat)
    requires IsPermutation(order, |g|) && |remapped| == |g| && i < |g| && j < |g|
    requires forall k :: 0 <= k < |g| ==> Renumbered(order, g[order[k]], remapped[k])
    ensures j in remapped[i] <==> order[j] in g[order[i]]
    ensures Times(remapped[i], j) == Times(g[order[i]], order[j])
  {
    assert Renumbered(order, g[order[i]], remapped[i]);
    assert Times(remapped[i], j) == Times(g[order[i]], order[j]);
    TimesPositive(remapped[i], j);
    TimesPositive(g[order[i]], order[j]);
  }

  /** Along a topological order every node of the new graph depends on smaller numbers only. */
  lemma DependenciesPointBack(order: seq<int>, g: Graph, remapped: Graph, i: nat, j: int)
    requires IsTopologicalOrder(g, order) && |remapped| == |g| && i < |g|
    requires forall k :: 0 <= k < |g| ==> Renumbered(order, g[order[k]], remapped[k])
    requires j in remapped[i]
    ensures 0 <= j < i
  {
    assert Renumbered(order, g[order[i]], remapped[i]);
    SameEdges(order, g, remapped, i, j);
    assert NeedsOnly(g, order[i], order[..i]);
    var k :| 0 <= k < i && order[k] == order[j];
  }
}
