/** Ordering a dependency graph: Kahn's algorithm over the dependents of every node, which a counting
    sort lays end to end in one array. All work arrays come from a pool and hold stale numbers. */
module TopoSort {
  import opened Graphs

  datatype SortResult =
    | Ordered(order: seq<int>)
    | InvalidDependency
    | DependencyCycle

  /** The pooled work arrays. The length of an array is the capacity of the slice it stands for. */
  class TopoScratch {
    var inDegree: array<int>
    var queue: array<int>
    var adjIndex: array<int>
    var adjCursor: array<int>
    var adjData: array<int>

    ghost predicate Distinct()
      reads this
    {
      && inDegree != queue && inDegree != adjIndex && inDegree != adjCursor && inDegree != adjData
      && queue != adjIndex && queue != adjCursor && queue != adjData
      && adjIndex != adjCursor && adjIndex != adjData && adjCursor != adjData
    }

    constructor ()
      ensures Distinct()
      ensures fresh(inDegree) && fresh(queue) && fresh(adjIndex) && fresh(adjCursor) && fresh(adjData)
    {
      inDegree, queue, adjIndex := new int[0], new int[0], new int[0];
      adjCursor, adjData := new int[0], new int[0];
    }
  }

  method EnsureLength(a: array<int>, length: nat) returns (b: array<int>)
    ensures b.Length >= length
    ensures b == a || fresh(b)
  {
    if a.Length < length {
      b := new int[length];
    } else {
      b := a;
    }
  }

  // ---------------------------------------------------------------- the adjacency array

  ghost predicate Counted(g: Graph, adjIndex: seq<int>, i: nat, k: nat)
    requires i <= |g| && (i < |g| ==> k <= |g[i]|) && (i == |g| ==> k == 0)
    requires |adjIndex| > |g|
  {
    && adjIndex[0] == 0
    && forall e :: 1 <= e <= |g| ==> adjIndex[e] == CountSoFar(g, e - 1, i, k)
  }

  ghost function CountSoFar(g: Graph, d: int, i: nat, k: nat): nat
    requires i <= |g| && (i < |g| ==> k <= |g[i]|)
  {
    |Dependents(g, d, i)| + if i < |g| then Times(g[i][..k], d) else 0
  }

  lemma CountRowStart(g: Graph, adjIndex: seq<int>, i: nat)
    requires i < |g| && |adjIndex| > |g|
    ensures Counted(g, adjIndex, i, |g[i]|) <==> Counted(g, adjIndex, i + 1, 0)
  {
    assert g[i][..|g[i]|] == g[i];
    assert i + 1 < |g| ==> g[i + 1][..0] == [];
    forall d: nat | d < |g|
      ensures CountSoFar(g, d, i, |g[i]|) == CountSoFar(g, d, i + 1, 0)
    {
    }
  }

  lemma CountNext(g: Graph, adjIndex: seq<int>, i: nat, k: nat)
    requires i < |g| && k < |g[i]| && |adjIndex| > |g|
    requires Counted(g, adjIndex, i, k) && 0 <= g[i][k] < |g|
    ensures Counted(g, adjIndex[g[i][k] + 1 := adjIndex[g[i][k] + 1] + 1], i, k + 1)
  {
    forall d: nat | d < |g|
      ensures CountSoFar(g, d, i, k + 1) == CountSoFar(g, d, i, k) + if d == g[i][k] then 1 else 0
    {
      TimesPrefix(g[i], k, d);
    }
  }

  method CountEdges(g: Graph, inDegree: array<int>, adjIndex: array<int>) returns (ok: bool)
    requires inDegree.Length >= |g| && adjIndex.Length > |g| && inDegree != adjIndex
    modifies inDegree, adjIndex
    ensures ok <==> InRange(g)
    ensures ok ==> forall i :: 0 <= i < |g| ==> inDegree[i] == |g[i]|
    ensures ok ==> Counted(g, adjIndex[..], |g|, 0)
  {
    for i := 0 to |g| + 1
      invariant forall j :: 0 <= j < i ==> adjIndex[j] == 0
    {
      adjIndex[i] := 0;
    }
    for i := 0 to |g|
      invariant forall j :: 0 <= j < i ==> inDegree[j] == |g[j]| && InBounds(g[j], |g|)
      invariant Counted(g, adjIndex[..], i, 0)
    {
      inDegree[i] := |g[i]|;
      for k := 0 to |g[i]|
        invariant forall j :: 0 <= j <= i ==> inDegree[j] == |g[j]|
        invariant InBounds(g[i][..k], |g|)
        invariant Counted(g, adjIndex[..], i, k)
      {
        var dep := g[i][k];
        if dep < 0 || dep >= |g| {
          assert dep in g[i] && !InBounds(g[i], |g|);
          return false;
        }
        CountNext(g, adjIndex[..], i, k);
        adjIndex[dep + 1] := adjIndex[dep + 1] + 1;
        assert g[i][..k + 1] == g[i][..k] + [dep];
      }
      assert g[i][..|g[i]|] == g[i];
      CountRowStart(g, adjIndex[..], i);
    }
    return true;
  }

  /** Turns counts into the places where the stretches of that length begin. */
  method SumPrefixes(adjIndex: array<int>, n: nat, ghost starts: seq<int>)
    requires adjIndex.Length > n && |starts| == n + 1 && adjIndex[0] == starts[0]
    requires forall d :: 1 <= d <= n ==> starts[d] == starts[d - 1] + adjIndex[d]
    modifies adjIndex
    ensures forall d :: 0 <= d <= n ==> adjIndex[d] == starts[d]
  {
    for i := 1 to n + 1
      invariant forall d :: 0 <= d < i ==> adjIndex[d] == starts[d]
      invariant forall d :: i <= d <= n ==> adjIndex[d] == old(adjIndex[d])
    {
      adjIndex[i] := adjIndex[i] + adjIndex[i - 1];
    }
  }

  ghost function Starts(g: Graph): (starts: seq<int>)
    ensures |starts| == |g| + 1
    ensures forall d {:trigger starts[d]} :: 0 <= d <= |g| ==> starts[d] == Start(g, d, |g|)
  {
    seq(|g| + 1, d requires 0 <= d <= |g| => Start(g, d, |g|))
  }

  lemma CountsGiveStarts(g: Graph, counts: seq<int>)
    requires |counts| > |g| && Counted(g, counts, |g|, 0)
    ensures counts[0] == Starts(g)[0]
    ensures forall d :: 1 <= d <= |g| ==> Starts(g)[d] == Starts(g)[d - 1] + counts[d]
  {
    forall d | 1 <= d <= |g|
      ensures Starts(g)[d] == Starts(g)[d - 1] + counts[d]
    {
      assert counts[d] == CountSoFar(g, d - 1, |g|, 0);
    }
  }

  ghost predicate Filled(g: Graph, cursor: seq<int>, data: seq<int>, i: nat, k: nat)
    requires i <= |g| && (i < |g| ==> k <= |g[i]|)
    requires |cursor| >= |g|
  {
    forall d {:trigger RowFilled(g, cursor[d], data, d, i, k)} :: 0 <= d < |g| ==>
      RowFilled(g, cursor[d], data, d, i, k)
  }

  ghost predicate RowFilled(g: Graph, end: int, data: seq<int>, d: nat, i: nat, k: nat)
    requires i <= |g| && (i < |g| ==> k <= |g[i]|)
  {
    Holds(data, Start(g, d, |g|), end, Start(g, d + 1, |g|), DependentsSoFar(g, d, i, k))
  }

  /** `row` is what `data` holds from `from` on, up to `end`, with room to grow up to `limit`. */
  ghost predicate Holds(data: seq<int>, from: int, end: int, limit: int, row: seq<int>) {
    0 <= from <= end <= limit <= |data| && data[from..end] == row
  }

  lemma FillRowStart(g: Graph, cursor: seq<int>, data: seq<int>, i: nat)
    requires i < |g| && |cursor| >= |g|
    requires Filled(g, cursor, data, i, |g[i]|)
    ensures Filled(g, cursor, data, i + 1, 0)
  {
    forall d | 0 <= d < |g|
      ensures RowFilled(g, cursor[d], data, d, i + 1, 0)
    {
      assert RowFilled(g, cursor[d], data, d, i, |g[i]|);
      SoFarNextNode(g, d, i);
    }
  }

  lemma RoomForNext(g: Graph, d: nat, i: nat, k: nat)
    requires d < |g| && i < |g| && k < |g[i]| && g[i][k] == d
    ensures Start(g, d, |g|) + |DependentsSoFar(g, d, i, k)| < Start(g, d + 1, |g|)
  {
    TimesPrefix(g[i], k, d);
    TimesAtMost(g[i], k + 1, d);
    DependentsMonotone(g, d, i + 1, |g|);
  }

  lemma HoldsOneMore(data: seq<int>, from: int, end: int, limit: int, row: seq<int>, x: int)
    requires Holds(data, from, end, limit, row) && end < limit
    ensures Holds(data[end := x], from, end + 1, limit, row + [x])
  {
    assert data[end := x][from..end + 1] == data[from..end] + [x];
  }

  lemma HoldsElsewhere(data: seq<int>, from: int, end: int, limit: int, row: seq<int>, at: int, x: int)
    requires Holds(data, from, end, limit, row) && 0 <= at < |data| && !(from <= at < limit)
    ensures Holds(data[at := x], from, end, limit, row)
  {
    assert data[at := x][from..end] == data[from..end];
  }

  lemma RowsApart(g: Graph, d: nat, dep: nat, at: int)
    requires d < |g| && dep < |g| && d != dep
    requires Start(g, dep, |g|) <= at < Start(g, dep + 1, |g|)
    ensures !(Start(g, d, |g|) <= at < Start(g, d + 1, |g|))
  {
    if d < dep {
      StartMonotone(g, d + 1, dep, |g|);
    } else {
      StartMonotone(g, dep + 1, d, |g|);
    }
  }

  lemma FillNext(g: Graph, cursor: seq<int>, data: seq<int>, i: nat, k: nat)
    requires i < |g| && k < |g[i]| && |cursor| >= |g|
    requires Filled(g, cursor, data, i, k) && 0 <= g[i][k] < |g|
    ensures 0 <= cursor[g[i][k]] < |data|
    ensures Filled(g, cursor[g[i][k] := cursor[g[i][k]] + 1], data[cursor[g[i][k]] := i], i, k + 1)
  {
    var dep := g[i][k];
    assert RowFilled(g, cursor[dep], data, dep, i, k);
    var at := cursor[dep];
    RoomForNext(g, dep, i, k);
    HoldsOneMore(data, Start(g, dep, |g|), at, Start(g, dep + 1, |g|), DependentsSoFar(g, dep, i, k), i);
    var cursor' := cursor[dep := at + 1];
    forall d | 0 <= d < |g|
      ensures RowFilled(g, cursor'[d], data[at := i], d, i, k + 1)
    {
      SoFarNext(g, d, i, k);
      if d != dep {
        assert RowFilled(g, cursor[d], data, d, i, k);
        RowsApart(g, d, dep, at);
        HoldsElsewhere(data, Start(g, d, |g|), cursor[d], Start(g, d + 1, |g|), DependentsSoFar(g, d, i, k), at, i);
      }
    }
  }

  ghost predicate RowComplete(g: Graph, data: seq<int>, d: nat)
    requires d < |g|
  {
    && 0 <= Start(g, d, |g|) <= Start(g, d + 1, |g|) <= |data|
    && data[Start(g, d, |g|)..Start(g, d + 1, |g|)] == Dependents(g, d, |g|)
  }

  lemma RowFits(g: Graph, d: nat)
    requires InRange(g) && d < |g|
    ensures Start(g, d + 1, |g|) <= EdgeCount(g, |g|)
  {
    EveryEdgeHasItsPlace(g, |g|);
    StartMonotone(g, d + 1, |g|, |g|);
  }

  lemma RowStarts(g: Graph, data: seq<int>, d: nat)
    requires d < |g| && Start(g, d + 1, |g|) <= |data| && DependentsSoFar(g, d, 0, 0) == []
    ensures RowFilled(g, Start(g, d, |g|), data, d, 0, 0)
  {
  }

  lemma FillStart(g: Graph, cursor: seq<int>, data: seq<int>)
    requires InRange(g) && |cursor| >= |g| && |data| >= EdgeCount(g, |g|)
    requires forall d {:trigger cursor[d]} :: 0 <= d < |g| ==> cursor[d] == Start(g, d, |g|)
    ensures Filled(g, cursor, data, 0, 0)
  {
    forall d | 0 <= d < |g|
      ensures RowFilled(g, cursor[d], data, d, 0, 0)
    {
      RowFits(g, d);
      NothingSoFar(g, d);
      RowStarts(g, data, d);
    }
  }

  lemma FillEnd(g: Graph, cursor: seq<int>, data: seq<int>)
    requires |cursor| >= |g| && Filled(g, cursor, data, |g|, 0)
    ensures forall d :: 0 <= d < |g| ==> RowComplete(g, data, d)
  {
    forall d | 0 <= d < |g|
      ensures RowComplete(g, data, d)
    {
      assert RowFilled(g, cursor[d], data, d, |g|, 0);
      var from := Start(g, d, |g|);
      assert |data[from..cursor[d]]| == cursor[d] - from;
    }
  }

  method CopyStarts(adjIndex: array<int>, cursor: array<int>, n: nat)
    requires adjIndex.Length >= n && cursor.Length >= n && adjIndex != cursor
    modifies cursor
    ensures forall d {:trigger cursor[d]} :: 0 <= d < n ==> cursor[d] == adjIndex[d]
  {
    for i := 0 to n
      invariant forall d {:trigger cursor[d]} :: 0 <= d < i ==> cursor[d] == adjIndex[d]
    {
      cursor[i] := adjIndex[i];
    }
  }

  /** Every list is empty and its cursor stands at its start. */
  method PlaceCursors(g: Graph, adjIndex: array<int>, cursor: array<int>, ghost data: array<int>)
    requires InRange(g)
    requires adjIndex.Length > |g| && cursor.Length >= |g| && data.Length >= EdgeCount(g, |g|)
    requires adjIndex != cursor && cursor != data
    requires forall d {:trigger adjIndex[d]} :: 0 <= d <= |g| ==> adjIndex[d] == Start(g, d, |g|)
    modifies cursor
    ensures Filled(g, cursor[..], data[..], 0, 0)
  {
    CopyStarts(adjIndex, cursor, |g|);
    ghost var c := cursor[..];
    forall d {:trigger c[d]} | 0 <= d < |g|
      ensures c[d] == Start(g, d, |g|)
    {
      assert cursor[d] == adjIndex[d];
    }
    FillStart(g, c, data[..]);
  }

  /** Node `i` goes to the lists of all it needs. */
  method FillFrom(g: Graph, i: nat, cursor: array<int>, data: array<int>)
    requires InRange(g) && i < |g| && cursor.Length >= |g| && cursor != data
    requires Filled(g, cursor[..], data[..], i, 0)
    modifies cursor, data
    ensures Filled(g, cursor[..], data[..], i, |g[i]|)
  {
    ghost var c, d := cursor[..], data[..];
    for k := 0 to |g[i]|
      invariant c == cursor[..] && d == data[..] && Filled(g, c, d, i, k)
    {
      var dep := g[i][k];
      assert InBounds(g[i], |g|) && dep in g[i];
      FillNext(g, c, d, i, k);
      c, d := c[dep := c[dep] + 1], d[c[dep] := i];
      data[cursor[dep]] := i;
      cursor[dep] := cursor[dep] + 1;
    }
  }

  /** Lays the dependents of each node end to end, each list complete and in order. */
  method FillAdjacency(g: Graph, adjIndex: array<int>, cursor: array<int>, data: array<int>)
    requires InRange(g)
    requires adjIndex.Length > |g| && cursor.Length >= |g| && data.Length >= EdgeCount(g, |g|)
    requires adjIndex != cursor && adjIndex != data && cursor != data
    requires forall d {:trigger adjIndex[d]} :: 0 <= d <= |g| ==> adjIndex[d] == Start(g, d, |g|)
    modifies cursor, data
    ensures forall d :: 0 <= d < |g| ==> RowComplete(g, data[..], d)
  {
    PlaceCursors(g, adjIndex, cursor, data);
    for i := 0 to |g|
      invariant Filled(g, cursor[..], data[..], i, 0)
    {
      FillFrom(g, i, cursor, data);
      FillRowStart(g, cursor[..], data[..], i);
    }
    FillEnd(g, cursor[..], data[..]);
  }

  // ---------------------------------------------------------------- Kahn's algorithm

  ghost function Members(s: seq<int>): set<int> {
    set x | x in s
  }

  /** What the loop over the queue keeps. The first `head` entries of the queue are finished; the degrees
      of the others are still to be lowered for the entries of `seen`, a part of the dependents of the
      node at work. */
  ghost predicate Queued(g: Graph, degree: seq<int>, queue: seq<int>, order: seq<int>, seen: seq<int>) {
    && |degree| >= |g|
    && order <= queue
    && (forall i :: 0 <= i < |queue| ==> 0 <= queue[i] < |g|)
    && (forall i, j :: 0 <= i < j < |queue| ==> queue[i] != queue[j])
    && (forall i {:trigger NeedsOnly(g, queue[i], queue[..i])} :: 0 <= i < |queue| ==>
          NeedsOnly(g, queue[i], queue[..i]))
    && (forall x {:trigger DegreeRight(g, degree[x], queue, order, seen, x)} :: 0 <= x < |g| ==>
          DegreeRight(g, degree[x], queue, order, seen, x))
  }

  ghost predicate DegreeRight(g: Graph, degree: int, queue: seq<int>, order: seq<int>, seen: seq<int>, x: int)
    requires 0 <= x < |g|
  {
    && degree == Open(g[x], Members(order)) - Times(seen, x)
    && (x in queue <==> degree == 0)
  }

  lemma DegreeLowered(g: Graph, degree: int, queue: seq<int>, order: seq<int>, row: seq<int>, j: nat, node: int)
    requires order <= queue && |order| < |queue| && queue[|order|] == node && node !in order
    requires j < |row| && ListsDependents(g, node, row) && 0 <= row[j] < |g|
    requires DegreeRight(g, degree, queue, order, row[..j], row[j])
    ensures row[j] !in queue
    ensures DegreeRight(g, degree - 1, if degree - 1 == 0 then queue + [row[j]] else queue, order, row[..j + 1], row[j])
    ensures degree - 1 == 0 ==> NeedsOnly(g, row[j], queue)
  {
    SeenRoom(g, Members(order), node, row, j + 1, row[j]);
    TimesPrefix(row, j, row[j]);
    if degree - 1 == 0 {
      OpenIsZero(g[row[j]], Members(order) + {node});
    }
  }

  lemma DegreeKept(g: Graph, degree: int, queue: seq<int>, order: seq<int>, row: seq<int>, j: nat, x: int)
    requires j < |row| && 0 <= x < |g| && x != row[j]
    requires DegreeRight(g, degree, queue, order, row[..j], x)
    ensures DegreeRight(g, degree, queue, order, row[..j + 1], x)
    ensures DegreeRight(g, degree, queue + [row[j]], order, row[..j + 1], x)
  {
    TimesPrefix(row, j, x);
  }

  lemma Enqueued(g: Graph, queue: seq<int>, next: int)
    requires forall i :: 0 <= i < |queue| ==> NeedsOnly(g, queue[i], queue[..i])
    requires NeedsOnly(g, next, queue)
    ensures forall i :: 0 <= i < |queue + [next]| ==> NeedsOnly(g, (queue + [next])[i], (queue + [next])[..i])
  {
    var queue' := queue + [next];
    forall i | 0 <= i < |queue'|
      ensures NeedsOnly(g, queue'[i], queue'[..i])
    {
      if i < |queue| {
        assert NeedsOnly(g, queue[i], queue[..i]);
        assert queue'[..i] == queue[..i];
      } else {
        assert queue'[..i] == queue;
      }
    }
  }

  /** Lowering the degree of the next dependent, which joins the queue when nothing is left to wait for. */
  lemma LowerDegree(g: Graph, degree: seq<int>, queue: seq<int>, order: seq<int>, node: int, row: seq<int>, j: nat)
    returns (degree': seq<int>, queue': seq<int>)
    requires |order| < |queue| && queue[|order|] == node && node !in order
    requires j < |row| && ListsDependents(g, node, row)
    requires Queued(g, degree, queue, order, row[..j])
    ensures 0 <= row[j] < |g| <= |degree|
    ensures degree' == degree[row[j] := degree[row[j]] - 1]
    ensures queue' == if degree'[row[j]] == 0 then queue + [row[j]] else queue
    ensures Queued(g, degree', queue', order, row[..j + 1]) && |queue'| <= |g|
  {
    var next := row[j];
    assert next in row;
    assert DegreeRight(g, degree[next], queue, order, row[..j], next);
    DegreeLowered(g, degree[next], queue, order, row, j, node);
    if degree[next] - 1 == 0 {
      Enqueued(g, queue, next);
    }
    degree' := degree[next := degree[next] - 1];
    queue' := if degree[next] - 1 == 0 then queue + [next] else queue;
    OtherDegreesKept(g, degree, queue, queue', order, row, j);
    DistinctIntoBound(queue', |g|);
  }

  lemma OtherDegreesKept(g: Graph, degree: seq<int>, queue: seq<int>, queue': seq<int>, order: seq<int>, row: seq<int>,
                         j: nat)
    requires j < |row| && |degree| >= |g| && (queue' == queue || queue' == queue + [row[j]])
    requires forall x {:trigger DegreeRight(g, degree[x], queue, order, row[..j], x)} :: 0 <= x < |g| ==>
      DegreeRight(g, degree[x], queue, order, row[..j], x)
    ensures forall x {:trigger degree[x]} :: 0 <= x < |g| && x != row[j] ==>
      DegreeRight(g, degree[x], queue', order, row[..j + 1], x)
  {
    forall x {:trigger degree[x]} | 0 <= x < |g| && x != row[j]
      ensures DegreeRight(g, degree[x], queue', order, row[..j + 1], x)
    {
      assert DegreeRight(g, degree[x], queue, order, row[..j], x);
      DegreeKept(g, degree[x], queue, order, row, j, x);
    }
  }

  lemma DegreeSettled(g: Graph, degree: int, queue: seq<int>, order: seq<int>, node: int, row: seq<int>, x: int)
    requires 0 <= x < |g| && node !in order && ListsDependents(g, node, row)
    requires DegreeRight(g, degree, queue, order, row, x)
    ensures DegreeRight(g, degree, queue, order + [node], [], x)
  {
    assert Members(order + [node]) == Members(order) + {node};
    assert Times(row, x) == Times(g[x], node);
    OpenAfter(g[x], Members(order), node);
  }

  lemma NodeFinished(g: Graph, degree: seq<int>, queue: seq<int>, order: seq<int>, node: int, row: seq<int>)
    requires |order| < |queue| && queue[|order|] == node && node !in order
    requires ListsDependents(g, node, row) && Queued(g, degree, queue, order, row)
    ensures Queued(g, degree, queue, order + [node], [])
  {
    forall x | 0 <= x < |g|
      ensures DegreeRight(g, degree[x], queue, order + [node], [], x)
    {
      assert DegreeRight(g, degree[x], queue, order, row, x);
      DegreeSettled(g, degree[x], queue, order, node, row, x);
    }
  }

  lemma AllOrdered(g: Graph, degree: seq<int>, order: seq<int>)
    requires Queued(g, degree, order, order, []) && |order| == |g|
    ensures IsTopologicalOrder(g, order)
  {
  }

  /** When the queue runs dry early, everything left waits for something left. */
  lemma SomeLeft(g: Graph, degree: seq<int>, order: seq<int>)
    requires InRange(g) && Queued(g, degree, order, order, []) && |order| != |g|
    ensures Cyclic(g)
  {
    DistinctIntoBound(order, |g|);
    var waiting := set x: int | 0 <= x < |g| && x !in order;
    if forall x :: 0 <= x < |g| ==> x in order {
      CoveringLength(order, |g|);
    }
    var first :| 0 <= first < |g| && first !in order;
    forall x | x in waiting
      ensures WaitsFor(g, waiting, x)
    {
      assert DegreeRight(g, degree[x], order, order, [], x);
      OpenIsZero(g[x], Members(order));
      var d :| d in g[x] && d !in Members(order);
      assert InBounds(g[x], |g|);
      assert d in g[x] && d in waiting;
    }
    UnfinishedNodesHaveCycle(g, waiting, first);
  }

  lemma QueueStart(g: Graph, degree: seq<int>, queue: seq<int>)
    requires |degree| >= |g| && forall i :: 0 <= i < |g| ==> degree[i] == |g[i]|
    requires forall k :: 0 <= k < |queue| ==> 0 <= queue[k] < |g| && g[queue[k]] == []
    requires forall k, l :: 0 <= k < l < |queue| ==> queue[k] < queue[l]
    requires forall x :: 0 <= x < |g| && g[x] == [] ==> x in queue
    ensures Queued(g, degree, queue, [], [])
  {
    forall x | 0 <= x < |g|
      ensures DegreeRight(g, degree[x], queue, [], [], x)
    {
      assert Members([]) == {};
      OpenNothingDone(g[x]);
    }
  }

  method EnqueueReady(g: Graph, inDegree: array<int>, queue: array<int>) returns (count: nat)
    requires inDegree != queue && inDegree.Length >= |g| && queue.Length >= |g|
    requires forall i :: 0 <= i < |g| ==> inDegree[i] == |g[i]|
    modifies queue
    ensures count <= |g| && Queued(g, inDegree[..], queue[..count], [], [])
  {
    count := 0;
    for i := 0 to |g|
      invariant count <= i
      invariant forall k :: 0 <= k < count ==> 0 <= queue[k] < i && g[queue[k]] == []
      invariant forall k, l :: 0 <= k < l < count ==> queue[k] < queue[l]
      invariant forall x :: 0 <= x < i && g[x] == [] ==> x in queue[..count]
    {
      if inDegree[i] == 0 {
        queue[count] := i;
        assert queue[..count + 1] == queue[..count] + [i];
        count := count + 1;
      }
    }
    QueueStart(g, inDegree[..], queue[..count]);
  }

  /** The stretch of `data` that `index` marks for `d` lists the dependents of `d`. */
  ghost predicate RowListed(g: Graph, index: seq<int>, data: seq<int>, d: nat)
    requires d < |g| < |index|
  {
    && 0 <= index[d] <= index[d + 1] <= |data|
    && ListsDependents(g, d, data[index[d]..index[d + 1]])
  }

  ghost predicate Adjacent(g: Graph, index: seq<int>, data: seq<int>) {
    |g| < |index| && forall d :: 0 <= d < |g| ==> RowListed(g, index, data, d)
  }

  lemma FilledIsAdjacent(g: Graph, index: seq<int>, data: seq<int>)
    requires |g| < |index|
    requires forall d {:trigger index[d]} :: 0 <= d <= |g| ==> index[d] == Start(g, d, |g|)
    requires forall d :: 0 <= d < |g| ==> RowComplete(g, data, d)
    ensures Adjacent(g, index, data)
  {
    forall d | 0 <= d < |g|
      ensures RowListed(g, index, data, d)
    {
      assert RowComplete(g, data, d);
      assert index[d] == Start(g, d, |g|) && index[d + 1] == Start(g, d + 1, |g|);
      DependentsListed(g, d);
    }
  }

  method BuildAdjacency(g: Graph, adjIndex: array<int>, cursor: array<int>, data: array<int>)
    requires InRange(g)
    requires adjIndex.Length > |g| && cursor.Length >= |g| && data.Length >= EdgeCount(g, |g|)
    requires adjIndex != cursor && adjIndex != data && cursor != data
    requires Counted(g, adjIndex[..], |g|, 0)
    modifies adjIndex, cursor, data
    ensures Adjacent(g, adjIndex[..], data[..])
  {
    CountsGiveStarts(g, adjIndex[..]);
    SumPrefixes(adjIndex, |g|, Starts(g));
    FillAdjacency(g, adjIndex, cursor, data);
    FilledIsAdjacent(g, adjIndex[..], data[..]);
  }

  /** Lowers one degree and queues the node when nothing is left to wait for. */
  method Lower(inDegree: array<int>, queue: array<int>, next: int, count: nat) returns (after: nat)
    requires inDegree != queue && 0 <= next < inDegree.Length && count <= queue.Length
    requires inDegree[next] == 1 ==> count < queue.Length
    modifies inDegree, queue
    ensures inDegree[..] == old(inDegree[..])[next := old(inDegree[next]) - 1] && after <= queue.Length
    ensures queue[..after] ==
            if old(inDegree[next]) == 1 then old(queue[..count]) + [next] else old(queue[..count])
  {
    after := count;
    inDegree[next] := inDegree[next] - 1;
    if inDegree[next] == 0 {
      queue[count] := next;
      after := count + 1;
    }
  }

  /** Lowers the degrees of the dependents of one node and queues those that become ready. */
  method Release(g: Graph, inDegree: array<int>, queue: array<int>, adjData: array<int>, start: nat, end: nat,
                 ghost order: seq<int>, node: int, ready: nat)
    returns (count: nat)
    requires inDegree != queue && inDegree != adjData && queue != adjData
    requires inDegree.Length >= |g| && queue.Length >= |g|
    requires start <= end <= adjData.Length && ListsDependents(g, node, adjData[start..end])
    requires |order| < ready <= |g| && queue[|order|] == node && node !in order
    requires Queued(g, inDegree[..], queue[..ready], order, [])
    modifies inDegree, queue
    ensures |order| < count <= |g| && queue[|order|] == node
    ensures Queued(g, inDegree[..], queue[..count], order, adjData[start..end])
  {
    count := ready;
    ghost var row := adjData[start..end];
    ghost var degree, queued := inDegree[..], queue[..ready];
    assert row[..0] == [];
    for j := start to end
      invariant |order| < count <= |g| && count == |queued| && queued[|order|] == node
      invariant inDegree[..] == degree && queue[..count] == queued
      invariant Queued(g, degree, queued, order, row[..j - start])
    {
      var next := adjData[j];
      assert row[j - start] == next;
      ghost var degree', queued' := LowerDegree(g, degree, queued, order, node, row, j - start);
      count := Lower(inDegree, queue, next, count);
      degree, queued := degree', queued';
    }
    assert row[..end - start] == row;
  }

  method Drain(g: Graph, inDegree: array<int>, queue: array<int>, adjIndex: array<int>, adjData: array<int>, ready: nat)
    returns (order: seq<int>)
    requires inDegree != queue && inDegree != adjIndex && inDegree != adjData && queue != adjIndex && queue != adjData
    requires inDegree.Length >= |g| && queue.Length >= |g|
    requires Adjacent(g, adjIndex[..], adjData[..])
    requires ready <= |g| && Queued(g, inDegree[..], queue[..ready], [], [])
    modifies inDegree, queue
    ensures Queued(g, inDegree[..], order, order, [])
  {
    order := [];
    var count := ready;
    while |order| < count
      invariant |order| <= count <= |g|
      invariant Queued(g, inDegree[..], queue[..count], order, [])
      decreases |g| - |order|
    {
      var node := queue[|order|];
      assert node == queue[..count][|order|] && node !in order;
      assert RowListed(g, adjIndex[..], adjData[..], node);
      var start, end := adjIndex[node], adjIndex[node + 1];
      assert adjData[..][start..end] == adjData[start..end];
      count := Release(g, inDegree, queue, adjData, start, end, order, node, count);
      NodeFinished(g, inDegree[..], queue[..count], order, node, adjData[start..end]);
      order := order + [node];
    }
    assert order == queue[..count];
  }

  method Order(g: Graph, inDegree: array<int>, queue: array<int>, adjIndex: array<int>, adjCursor: array<int>,
               adjData: array<int>)
    returns (r: SortResult)
    requires g != []
    requires inDegree != queue && inDegree != adjIndex && inDegree != adjCursor && inDegree != adjData
    requires queue != adjIndex && queue != adjCursor && queue != adjData
    requires adjIndex != adjCursor && adjIndex != adjData && adjCursor != adjData
    requires inDegree.Length >= |g| && queue.Length >= |g| && adjIndex.Length > |g|
    requires adjCursor.Length >= |g| && adjData.Length >= EdgeCount(g, |g|)
    modifies inDegree, queue, adjIndex, adjCursor, adjData
    ensures r.InvalidDependency? <==> !InRange(g)
    ensures r.DependencyCycle? ==> Cyclic(g)
    ensures r.Ordered? ==> IsTopologicalOrder(g, r.order)
  {
    var ok := CountEdges(g, inDegree, adjIndex);
    if !ok {
      return InvalidDependency;
    }
    BuildAdjacency(g, adjIndex, adjCursor, adjData);
    var ready := EnqueueReady(g, inDegree, queue);
    if ready == 0 {
      assert queue[..ready] == [];
      SomeLeft(g, inDegree[..], []);
      return DependencyCycle;
    }
    var order := Drain(g, inDegree, queue, adjIndex, adjData, ready);
    if |order| != |g| {
      SomeLeft(g, inDegree[..], order);
      return DependencyCycle;
    }
    AllOrdered(g, inDegree[..], order);
    return Ordered(order);
  }

  /** `Ordered` with a topological order exactly for acyclic graphs, an error saying which of the two
      other cases holds, whatever the scratch arrays held before. */
  method Sort(g: Graph, scratch: TopoScratch) returns (r: SortResult)
    requires scratch.Distinct()
    modifies scratch, scratch.inDegree, scratch.queue, scratch.adjIndex, scratch.adjCursor, scratch.adjData
    ensures scratch.Distinct()
    ensures r.InvalidDependency? <==> !InRange(g)
    ensures r.DependencyCycle? <==> InRange(g) && Cyclic(g)
    ensures r.Ordered? <==> InRange(g) && !Cyclic(g)
    ensures r.Ordered? ==> IsTopologicalOrder(g, r.order)
  {
    var n := |g|;
    if n == 0 {
      OrderedIsAcyclic(g, []);
      return Ordered([]);
    }
    scratch.inDegree := EnsureLength(scratch.inDegree, n);
    scratch.adjIndex := EnsureLength(scratch.adjIndex, n + 1);
    var totalEdges := 0;
    for i := 0 to n
      invariant totalEdges == EdgeCount(g, i)
    {
      totalEdges := totalEdges + |g[i]|;
    }
    scratch.adjData := EnsureLength(scratch.adjData, totalEdges);
    scratch.adjCursor := EnsureLength(scratch.adjCursor, n);
    scratch.queue := EnsureLength(scratch.queue, n);
    r := Order(g, scratch.inDegree, scratch.queue, scratch.adjIndex, scratch.adjCursor, scratch.adjData);
    if r.Ordered? {
      OrderedIsAcyclic(g, r.order);
    }
  }
}
