/** What the builder does before anything runs: checking the graph, counting what each node needs and listing
    who waits for it. */
module DagSetup {
  import opened Graphs
  import opened DagBuild
  import opened DagInvariant

  datatype Setup =
    | NothingToBuild
    | InvalidDependency
    | Prepared(pending: seq<int>, dependents: seq<seq<int>>)

  ghost predicate Usable(g: Graph, pairs: nat) {
    |g| == pairs && InRange(g) && forall i :: 0 <= i < |g| ==> |g[i]| <= pairs
  }

  ghost predicate Listed(g: Graph, dependents: seq<seq<int>>, i: nat, k: nat)
    requires i <= |g| && (i < |g| ==> k <= |g[i]|)
  {
    && |dependents| == |g|
    && forall d :: 0 <= d < |g| ==> dependents[d] == DependentsSoFar(g, d, i, k)
  }

  lemma ListNext(g: Graph, dependents: seq<seq<int>>, i: nat, k: nat)
    requires i < |g| && k < |g[i]| && Listed(g, dependents, i, k) && 0 <= g[i][k] < |g|
    ensures Listed(g, dependents[g[i][k] := dependents[g[i][k]] + [i]], i, k + 1)
  {
    forall d: nat | d < |g|
      ensures DependentsSoFar(g, d, i, k + 1) == DependentsSoFar(g, d, i, k) + if g[i][k] == d then [i] else []
    {
      SoFarNext(g, d, i, k);
    }
  }

  lemma ListNextNode(g: Graph, dependents: seq<seq<int>>, i: nat)
    requires i < |g| && Listed(g, dependents, i, |g[i]|)
    ensures Listed(g, dependents, i + 1, 0)
  {
    forall d: nat | d < |g|
      ensures DependentsSoFar(g, d, i, |g[i]|) == DependentsSoFar(g, d, i + 1, 0)
    {
      SoFarNextNode(g, d, i);
    }
  }

  lemma ListStart(g: Graph)
    ensures Listed(g, seq(|g|, _ => []), 0, 0)
  {
    forall d: nat | d < |g|
      ensures DependentsSoFar(g, d, 0, 0) == []
    {
      NothingSoFar(g, d);
    }
  }

  lemma ListedIsValid(g: Graph, dependents: seq<seq<int>>)
    requires InRange(g) && Listed(g, dependents, |g|, 0)
    ensures ValidConfig(Config(g, dependents))
  {
    forall d | 0 <= d < |g|
      ensures ListsDependents(g, d, dependents[d])
    {
      DependentsListed(g, d);
      assert dependents[d] == DependentsSoFar(g, d, |g|, 0) == Dependents(g, d, |g|);
    }
  }

  /** The counters and lists are those the run starts from; an error says that the graph does not fit. */
  method Prepare(pairs: nat, g: Graph) returns (r: Setup)
    ensures r.NothingToBuild? <==> pairs == 0
    ensures r.InvalidDependency? <==> pairs > 0 && !Usable(g, pairs)
    ensures r.Prepared? ==> ValidConfig(Config(g, r.dependents))
    ensures r.Prepared? ==> r.pending == Init(Config(g, r.dependents)).pending
  {
    if pairs == 0 {
      return NothingToBuild;
    }
    if |g| != pairs {
      return InvalidDependency;
    }
    var pending := seq(pairs, _ => 0);
    var dependents: seq<seq<int>> := seq(pairs, _ => []);
    ListStart(g);
    for i := 0 to |g|
      invariant |pending| == pairs && forall j :: 0 <= j < i ==> pending[j] == |g[j]| <= pairs
      invariant forall j :: 0 <= j < i ==> InBounds(g[j], |g|)
      invariant Listed(g, dependents, i, 0)
    {
      if |g[i]| > pairs {
        return InvalidDependency;
      }
      pending := pending[i := |g[i]|];
      assert g[i][..0] == [];
      for k := 0 to |g[i]|
        invariant InBounds(g[i][..k], |g|)
        invariant Listed(g, dependents, i, k)
      {
        var dep := g[i][k];
        if dep < 0 || dep >= pairs {
          assert dep in g[i] && !InBounds(g[i], |g|);
          return InvalidDependency;
        }
        ListNext(g, dependents, i, k);
        dependents := dependents[dep := dependents[dep] + [i]];
        assert g[i][..k + 1] == g[i][..k] + [dep];
      }
      assert g[i][..|g[i]|] == g[i];
      ListNextNode(g, dependents, i);
    }
    ListedIsValid(g, dependents);
    return Prepared(pending, dependents);
  }
}
