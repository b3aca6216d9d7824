/** Dependency graphs as the builder stores them: `g[i]` lists the nodes that node `i` depends on.
    A list may name a node several times, and nothing but a check makes its entries node numbers. */
module Graphs {

  type Graph = seq<seq<int>>

  ghost predicate InRange(g: Graph) {
    forall i :: 0 <= i < |g| ==> InBounds(g[i], |g|)
  }

  ghost predicate InBounds(s: seq<int>, n: nat) {
    forall x :: x in s ==> 0 <= x < n
  }

  /** The entry after position `k`, going back to the front at the end. */
  ghost function After(p: seq<int>, k: nat): int
    requires k < |p|
  {
    if k + 1 < |p| then p[k + 1] else p[0]
  }

  /** Each node of `p` depends on the one after it, the last one on the first. */
  ghost predicate IsCycle(g: Graph, p: seq<int>) {
    p != [] && forall k :: 0 <= k < |p| ==> NeedsNext(g, p, k)
  }

  ghost predicate NeedsNext(g: Graph, p: seq<int>, k: nat)
    requires k < |p|
  {
    0 <= p[k] < |g| && After(p, k) in g[p[k]]
  }

  ghost predicate Cyclic(g: Graph) {
    exists p :: IsCycle(g, p)
  }

  ghost predicate IsPermutation(order: seq<int>, n: nat) {
    && |order| == n
    && (forall i :: 0 <= i < n ==> 0 <= order[i] < n)
    && (forall i, j :: 0 <= i < j < n ==> order[i] != order[j])
  }

  /** Every node comes once, and after everything it depends on. */
  ghost predicate IsTopologicalOrder(g: Graph, order: seq<int>) {
    && IsPermutation(order, |g|)
    && (forall i {:trigger NeedsOnly(g, order[i], order[..i])} :: 0 <= i < |order| ==>
          NeedsOnly(g, order[i], order[..i]))
  }

  ghost predicate NeedsOnly(g: Graph, x: int, earlier: seq<int>) {
    0 <= x < |g| && forall d {:trigger d in g[x]} :: d in g[x] ==> d in earlier
  }

  /** A path along dependencies, from a node to something it needs. */
  ghost predicate IsPath(g: Graph, p: seq<int>) {
    && p != []
    && (forall k :: 0 <= k < |p| ==> 0 <= p[k] < |g|)
    && (forall k :: 0 <= k < |p| - 1 ==> p[k + 1] in g[p[k]])
  }

  // ---------------------------------------------------------------- orders and cycles

  ghost function IndexOf(order: seq<int>, x: int): (i: nat)
    requires x in order
    ensures i < |order| && order[i] == x
  {
    var i :| 0 <= i < |order| && order[i] == x;
    i
  }

  lemma {:induction false} DistinctIntoBound(s: seq<int>, n: nat)
    requires forall i :: 0 <= i < |s| ==> 0 <= s[i] < n
    requires forall i, j :: 0 <= i < j < |s| ==> s[i] != s[j]
    ensures |s| <= n
    ensures |s| == n ==> forall x :: 0 <= x < n ==> x in s
  {
    assert |s| > 0 ==> 0 <= s[0] < n;
    if n == 0 {
    } else if n - 1 in s {
      var i :| 0 <= i < |s| && s[i] == n - 1;
      var t := s[..i] + s[i + 1..];
      DistinctIntoBound(t, n - 1);
      if |s| == n {
        forall x | 0 <= x < n
          ensures x in s
        {
          if x < n - 1 {
            assert x in t;
          }
        }
      }
    } else {
      DistinctIntoBound(s, n - 1);
    }
  }

  /** A list that misses nothing below `n` has at least `n` entries. */
  lemma {:induction false} CoveringLength(s: seq<int>, n: nat)
    requires forall x :: 0 <= x < n ==> x in s
    ensures |s| >= n
  {
    if n > 0 {
      assert n - 1 in s;
      var i :| 0 <= i < |s| && s[i] == n - 1;
      var t := s[..i] + s[i + 1..];
      forall x | 0 <= x < n - 1
        ensures x in t
      {
        assert x in s;
      }
      CoveringLength(t, n - 1);
    }
  }

  lemma PermutationCovers(order: seq<int>, n: nat, x: int)
    requires IsPermutation(order, n) && 0 <= x < n
    ensures x in order
  {
    DistinctIntoBound(order, n);
  }

  /** The positions along a cycle would have to fall for ever. */
  lemma {:induction false} PositionsFallAlongCycle(g: Graph, order: seq<int>, p: seq<int>, k: nat)
    requires IsTopologicalOrder(g, order) && IsCycle(g, p) && k < |p|
    requires forall x :: 0 <= x < |g| ==> x in order
    requires NeedsNext(g, p, k) && NeedsNext(g, p, 0)
    ensures IndexOf(order, p[k]) + k <= IndexOf(order, p[0])
  {
    if k > 0 {
      assert NeedsNext(g, p, k - 1);
      PositionsFallAlongCycle(g, order, p, k - 1);
      DependencyComesBefore(g, order, p[k - 1], p[k]);
    }
  }

  lemma DependencyComesBefore(g: Graph, order: seq<int>, x: int, d: int)
    requires IsTopologicalOrder(g, order)
    requires 0 <= x < |g| && x in order && d in order && d in g[x]
    ensures IndexOf(order, d) < IndexOf(order, x)
  {
    var i := IndexOf(order, x);
    assert NeedsOnly(g, order[i], order[..i]);
    var j :| 0 <= j < i && order[j] == d;
    assert IndexOf(order, d) == j;
  }

  lemma OrderedHasNoCycle(g: Graph, order: seq<int>, p: seq<int>)
    requires IsTopologicalOrder(g, order)
    ensures !IsCycle(g, p)
  {
    if IsCycle(g, p) {
      forall x | 0 <= x < |g|
        ensures x in order
      {
        PermutationCovers(order, |g|, x);
      }
      var last := |p| - 1;
      assert NeedsNext(g, p, last) && NeedsNext(g, p, 0);
      DependencyComesBefore(g, order, p[last], p[0]);
      PositionsFallAlongCycle(g, order, p, last);
    }
  }

  lemma OrderedIsAcyclic(g: Graph, order: seq<int>)
    requires IsTopologicalOrder(g, order)
    ensures !Cyclic(g)
  {
    forall p: seq<int>
      ensures !IsCycle(g, p)
    {
      OrderedHasNoCycle(g, order, p);
    }
  }

  /** Node `x` waits for some node of `waiting`. */
  ghost predicate WaitsFor(g: Graph, waiting: set<int>, x: int) {
    0 <= x < |g| && exists d :: d in g[x] && d in waiting
  }

  lemma ExtendPath(g: Graph, walk: seq<int>, d: int)
    requires IsPath(g, walk) && 0 <= d < |g| && d in g[walk[|walk| - 1]]
    ensures IsPath(g, walk + [d])
  {
    var next := walk + [d];
    forall k | 0 <= k < |next| - 1
      ensures next[k + 1] in g[next[k]]
    {
      if k < |walk| - 1 {
        assert walk[k + 1] in g[walk[k]];
      }
    }
  }

  lemma ClosedPathIsCycle(g: Graph, walk: seq<int>, j: nat)
    requires IsPath(g, walk) && j < |walk| && walk[j] in g[walk[|walk| - 1]]
    ensures Cyclic(g)
  {
    var p := walk[j..];
    forall k | 0 <= k < |p|
      ensures NeedsNext(g, p, k)
    {
      if k + 1 < |p| {
        assert walk[(j + k) + 1] in g[walk[j + k]];
      }
    }
    assert IsCycle(g, p);
  }

  /** Nodes that all wait for one of themselves contain a cycle: follow the waiting from any of them
      until a node comes a second time. */
  lemma {:induction false} WaitingNodesHaveCycle(g: Graph, waiting: set<int>, walk: seq<int>)
    requires forall x :: x in waiting ==> WaitsFor(g, waiting, x)
    requires IsPath(g, walk) && walk[|walk| - 1] in waiting
    ensures Cyclic(g)
    decreases waiting - (set x | x in walk)
  {
    var last := walk[|walk| - 1];
    assert WaitsFor(g, waiting, last);
    var d :| d in g[last] && d in waiting;
    if d in walk {
      var j :| 0 <= j < |walk| && walk[j] == d;
      ClosedPathIsCycle(g, walk, j);
    } else {
      assert WaitsFor(g, waiting, d);
      ExtendPath(g, walk, d);
      assert d in waiting - (set x | x in walk) && d !in waiting - (set x | x in walk + [d]);
      WaitingNodesHaveCycle(g, waiting, walk + [d]);
    }
  }

  lemma UnfinishedNodesHaveCycle(g: Graph, waiting: set<int>, x: int)
    requires x in waiting
    requires forall y :: y in waiting ==> WaitsFor(g, waiting, y)
    ensures Cyclic(g)
  {
    assert WaitsFor(g, waiting, x);
    WaitingNodesHaveCycle(g, waiting, [x]);
  }

  // ---------------------------------------------------------------- who waits for a node

  ghost function Times(s: seq<int>, x: int): nat {
    if s == [] then 0 else Times(s[..|s| - 1], x) + if s[|s| - 1] == x then 1 else 0
  }

  ghost function Repeat(x: int, k: nat): (s: seq<int>)
    ensures |s| == k
  {
    if k == 0 then [] else Repeat(x, k - 1) + [x]
  }

  /** The first `i` nodes in order, each as often as it names `d`. */
  ghost function Dependents(g: Graph, d: int, i: nat): seq<int>
    requires i <= |g|
  {
    if i == 0 then [] else Dependents(g, d, i - 1) + Repeat(i - 1, Times(g[i - 1], d))
  }

  lemma {:induction false} TimesAppend(s: seq<int>, t: seq<int>, y: int)
    ensures Times(s + t, y) == Times(s, y) + Times(t, y)
  {
    if t == [] {
      assert s + t == s;
    } else {
      var u := t[..|t| - 1];
      TimesAppend(s, u, y);
      assert (s + t)[..|s + t| - 1] == s + u;
    }
  }

  lemma TimesPrefix(s: seq<int>, k: nat, y: int)
    requires k < |s|
    ensures Times(s[..k + 1], y) == Times(s[..k], y) + if s[k] == y then 1 else 0
  {
    assert s[..k + 1][..k] == s[..k];
  }

  lemma TimesAtMost(s: seq<int>, k: nat, y: int)
    requires k <= |s|
    ensures Times(s[..k], y) <= Times(s, y)
  {
    assert s == s[..k] + s[k..];
    TimesAppend(s[..k], s[k..], y);
  }

  lemma {:induction false} TimesPositive(s: seq<int>, x: int)
    ensures Times(s, x) > 0 <==> x in s
  {
    if s != [] {
      var t := s[..|s| - 1];
      TimesPositive(t, x);
      assert s == t + [s[|s| - 1]];
    }
  }

  lemma {:induction false} TimesRepeat(x: int, k: nat, y: int)
    ensures Times(Repeat(x, k), y) == if x == y then k else 0
  {
    if k > 0 {
      TimesRepeat(x, k - 1, y);
      assert Repeat(x, k)[..k - 1] == Repeat(x, k - 1);
    }
  }

  lemma {:induction false} DependentsTimes(g: Graph, d: int, i: nat, x: int)
    requires i <= |g|
    ensures Times(Dependents(g, d, i), x) == if 0 <= x < i then Times(g[x], d) else 0
  {
    if i > 0 {
      DependentsTimes(g, d, i - 1, x);
      TimesRepeat(i - 1, Times(g[i - 1], d), x);
      TimesAppend(Dependents(g, d, i - 1), Repeat(i - 1, Times(g[i - 1], d)), x);
    }
  }

  lemma DependentsMembers(g: Graph, d: int, x: int)
    ensures x in Dependents(g, d, |g|) <==> 0 <= x < |g| && d in g[x]
  {
    DependentsTimes(g, d, |g|, x);
    TimesPositive(Dependents(g, d, |g|), x);
    if 0 <= x < |g| {
      TimesPositive(g[x], d);
    }
  }

  lemma {:induction false} DependentsMonotone(g: Graph, d: int, i: nat, j: nat)
    requires i <= j <= |g|
    ensures |Dependents(g, d, i)| <= |Dependents(g, d, j)|
    decreases j
  {
    if i < j {
      DependentsMonotone(g, d, i, j - 1);
    }
  }

  /** `row` names each node as often as that node names `node`. */
  ghost predicate ListsDependents(g: Graph, node: int, row: seq<int>) {
    && InBounds(row, |g|)
    && forall x {:trigger Times(row, x)} :: 0 <= x < |g| ==> Times(row, x) == Times(g[x], node)
  }

  lemma DependentsListed(g: Graph, node: int)
    ensures ListsDependents(g, node, Dependents(g, node, |g|))
  {
    var row := Dependents(g, node, |g|);
    forall x | x in row
      ensures 0 <= x < |g|
    {
      DependentsMembers(g, node, x);
    }
    forall x | 0 <= x < |g|
      ensures Times(row, x) == Times(g[x], node)
    {
      DependentsTimes(g, node, |g|, x);
    }
  }

  /** How often the numbers below `n` occur in `s`, added up. */
  ghost function TimesBelow(s: seq<int>, n: nat): nat {
    if n == 0 then 0 else TimesBelow(s, n - 1) + Times(s, n - 1)
  }

  lemma {:induction false} TimesBelowEmpty(n: nat)
    ensures TimesBelow([], n) == 0
  {
    if n > 0 {
      TimesBelowEmpty(n - 1);
    }
  }

  lemma {:induction false} TimesBelowAppend(s: seq<int>, x: int, n: nat)
    ensures TimesBelow(s + [x], n) == TimesBelow(s, n) + if 0 <= x < n then 1 else 0
  {
    if n > 0 {
      TimesBelowAppend(s, x, n - 1);
      assert (s + [x])[..|s|] == s;
    }
  }

  lemma {:induction false} TimesBelowTotal(s: seq<int>, n: nat)
    requires InBounds(s, n)
    ensures TimesBelow(s, n) == |s|
  {
    if s == [] {
      TimesBelowEmpty(n);
    } else {
      var t := s[..|s| - 1];
      assert s == t + [s[|s| - 1]];
      assert s[|s| - 1] in s && forall x :: x in t ==> x in s;
      TimesBelowTotal(t, n);
      TimesBelowAppend(t, s[|s| - 1], n);
    }
  }

  /** Where the dependents of `d` begin when those of all nodes among the first `i` are laid end to end. */
  ghost function Start(g: Graph, d: nat, i: nat): nat
    requires i <= |g|
  {
    if d == 0 then 0 else Start(g, d - 1, i) + |Dependents(g, d - 1, i)|
  }

  ghost function EdgeCount(g: Graph, i: nat): nat
    requires i <= |g|
  {
    if i == 0 then 0 else EdgeCount(g, i - 1) + |g[i - 1]|
  }

  lemma {:induction false} StartMonotone(g: Graph, d: nat, e: nat, i: nat)
    requires d <= e && i <= |g|
    ensures Start(g, d, i) <= Start(g, e, i)
  {
    if d < e {
      StartMonotone(g, d, e - 1, i);
    }
  }

  lemma {:induction false} StartStep(g: Graph, d: nat, i: nat)
    requires 0 < i <= |g|
    ensures Start(g, d, i) == Start(g, d, i - 1) + TimesBelow(g[i - 1], d)
  {
    if d > 0 {
      StartStep(g, d - 1, i);
    }
  }

  /** Each edge is counted once, whichever end it is counted at. */
  lemma {:induction false} EveryEdgeHasItsPlace(g: Graph, i: nat)
    requires InRange(g) && i <= |g|
    ensures Start(g, |g|, i) == EdgeCount(g, i)
  {
    if i == 0 {
      StartEmpty(g, |g|);
    } else {
      EveryEdgeHasItsPlace(g, i - 1);
      StartStep(g, |g|, i);
      TimesBelowTotal(g[i - 1], |g|);
    }
  }

  lemma {:induction false} StartEmpty(g: Graph, d: nat)
    ensures Start(g, d, 0) == 0
  {
    if d > 0 {
      StartEmpty(g, d - 1);
    }
  }

  // ---------------------------------------------------------------- dependencies still open

  /** How many entries of `s` are not in `done`. */
  ghost function Open(s: seq<int>, done: set<int>): nat {
    if s == [] then 0
    else Open(s[..|s| - 1], done) + if s[|s| - 1] in done then 0 else 1
  }

  lemma {:induction false} OpenNothingDone(s: seq<int>)
    ensures Open(s, {}) == |s|
  {
    if s != [] {
      OpenNothingDone(s[..|s| - 1]);
    }
  }

  lemma {:induction false} OpenIsZero(s: seq<int>, done: set<int>)
    ensures Open(s, done) == 0 <==> forall x :: x in s ==> x in done
  {
    if s != [] {
      var t := s[..|s| - 1];
      OpenIsZero(t, done);
      assert s == t + [s[|s| - 1]];
      assert s[|s| - 1] in s;
      assert forall x :: x in s <==> x in t || x == s[|s| - 1];
    }
  }

  lemma {:induction false} OpenAfter(s: seq<int>, done: set<int>, x: int)
    requires x !in done
    ensures Open(s, done) == Open(s, done + {x}) + Times(s, x)
  {
    if s != [] {
      var t := s[..|s| - 1];
      OpenAfter(t, done, x);
      TimesPrefix(s, |t|, x);
      assert s[..|t| + 1] == s;
    }
  }

  lemma SeenRoom(g: Graph, done: set<int>, node: int, row: seq<int>, j: nat, x: int)
    requires 0 <= x < |g| && node !in done && ListsDependents(g, node, row) && j <= |row|
    ensures Times(row[..j], x) <= Times(g[x], node) <= Open(g[x], done)
    ensures Open(g[x], done) == Open(g[x], done + {node}) + Times(g[x], node)
  {
    assert Times(row, x) == Times(g[x], node);
    TimesAtMost(row, j, x);
    OpenAfter(g[x], done, node);
  }

  /** The dependents of `d` found among the first `i` nodes and `k` entries of node `i`. */
  ghost function DependentsSoFar(g: Graph, d: int, i: nat, k: nat): seq<int>
    requires i <= |g| && (i < |g| ==> k <= |g[i]|)
  {
    Dependents(g, d, i) + if i < |g| then Repeat(i, Times(g[i][..k], d)) else []
  }

  lemma SoFarNext(g: Graph, d: nat, i: nat, k: nat)
    requires d < |g| && i < |g| && k < |g[i]|
    ensures DependentsSoFar(g, d, i, k + 1) == DependentsSoFar(g, d, i, k) + if g[i][k] == d then [i] else []
  {
    TimesPrefix(g[i], k, d);
  }

  lemma SoFarNextNode(g: Graph, d: nat, i: nat)
    requires i < |g|
    ensures DependentsSoFar(g, d, i, |g[i]|) == DependentsSoFar(g, d, i + 1, 0)
  {
    assert g[i][..|g[i]|] == g[i];
    assert i + 1 < |g| ==> g[i + 1][..0] == [];
  }

  lemma NothingSoFar(g: Graph, d: nat)
    requires d < |g|
    ensures DependentsSoFar(g, d, 0, 0) == []
  {
    assert g[0][..0] == [];
  }
}
