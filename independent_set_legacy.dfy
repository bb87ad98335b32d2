/**
 * geco/mips/independent_set.py: the older independent-set builder.
 *
 * It keeps the caller's node labels: node graph.nodes[i] gets the binary
 * variable named str(node) at handle i, valued 1. It then adds
 * x_u + x_v <= 1 for every unordered pair of nodes yielded by
 * itertools.combinations(graph.nodes, 2), whether or not the pair is an
 * edge, and maximises. The feasible assignments are therefore those that
 * select at most one node, whatever the graph.
 */
module IndependentSetLegacy {
  import opened Common
  import opened Mip
  import opened Graphs
  import Naming
  import Combinations
  import IndependentSet

  /** The model independent_set(graph, name) of this file builds. */
  ghost predicate IsLegacyModel(model: Model, lg: Labelled<int>, name: string) {
    model.name == name && model.removed == {} && model.sense == Maximize &&
    |model.vars| == |lg.nodes| &&
    (forall i :: 0 <= i < |lg.nodes| ==> model.vars[i] == BinaryVar(Naming.IntToString(lg.nodes[i]), 1.0)) &&
    model.conss == IndependentSet.EdgeConss(Combinations.Pairs(|lg.nodes|))
  }

  /** One variable str(node) per node, in graph.nodes order. */
  method AddLabelVars(m0: Model, nodes: seq<int>) returns (model: Model)
    requires m0.vars == [] && m0.removed == {}
    ensures model == m0.(vars := model.vars) && |model.vars| == |nodes|
    ensures forall i :: 0 <= i < |nodes| ==> model.vars[i] == BinaryVar(Naming.IntToString(nodes[i]), 1.0)
  {
    model := m0;
    for i := 0 to |nodes|
      invariant model == m0.(vars := model.vars) && |model.vars| == i
      invariant forall j :: 0 <= j < i ==> model.vars[j] == BinaryVar(Naming.IntToString(nodes[j]), 1.0)
    {
      model := model.AddVar(BinaryVar(Naming.IntToString(nodes[i]), 1.0));
    }
  }

  /**
   * The handles of the pair (nodes[i], nodes[j]) are i and j, because the
   * labels are distinct and so are their names; so the constraint over the
   * pair of labels is the constraint over the pair of positions.
   */
  method LegacyIndependentSet(lg: Labelled<int>, name: string) returns (model: Model)
    requires IsLabelled(lg)
    ensures IsLegacyModel(model, lg, name) && model.WellFormed()
  {
    var n := |lg.nodes|;
    model := AddLabelVars(NewModel(name), lg.nodes);
    var pairs := Combinations.Pairs(n);
    forall k | 0 <= k < |pairs| ensures pairs[k].0 < n && pairs[k].1 < n {
      Combinations.PairIndexOf(n, k);
    }
    model := IndependentSet.AddEdgeConss(model, pairs);
    model := model.SetSense(Maximize);
    assert model.conss[0..] == model.conss;
    IndependentSet.EdgeConssLive(model, pairs, 0);
  }

  /** The variable names are pairwise distinct, so the name-keyed dictionary loses none. */
  lemma LegacyNamesDistinct(model: Model, lg: Labelled<int>, name: string, i: nat, j: nat)
    requires IsLegacyModel(model, lg, name) && IsLabelled(lg)
    requires i < j < |lg.nodes|
    ensures model.vars[i].name != model.vars[j].name
  {
    DistinctOnce(lg.nodes, lg.nodes[i]);
    PositionsDiffer(lg.nodes, i, j);
    Naming.IntToStringInjective(lg.nodes[i], lg.nodes[j]);
  }

  /** n variables and C(n, 2) constraints, whatever the edges. */
  lemma LegacyCounts(model: Model, lg: Labelled<int>, name: string)
    requires IsLegacyModel(model, lg, name)
    ensures model.NumVars() == |lg.nodes|
    ensures 2 * model.NumConss() == |lg.nodes| * (|lg.nodes| - 1)
  {
    Combinations.PairsCount(|lg.nodes|);
  }

  /** The feasible assignments are the 0/1 vectors that select at most one node. */
  lemma LegacyFeasibleIff(model: Model, lg: Labelled<int>, name: string, x: seq<int>)
    requires IsLegacyModel(model, lg, name)
    ensures Feasible(model, x) <==> |x| == |lg.nodes| && Binary01(x) && |IndependentSet.Selected(x)| <= 1
  {
    var n := |lg.nodes|;
    if |x| == n {
      assert IndependentSet.UnitVars(model, n);
      IndependentSet.NodeBounds(model, n, x);
      if Binary01(x) {
        CompleteIsLabelled(n);
        RelabelIsGraph(Complete(n));
        IndependentSet.EdgeConssMeaning(Graph(n, Combinations.Pairs(n)), x);
        IndependentSet.CompleteIndependentIffSmall(n, x);
      }
    }
  }

  /** Every nonempty graph gets optimum 1, the independence number of the complete graph. */
  lemma LegacyOptimum(model: Model, lg: Labelled<int>, name: string)
    requires IsLegacyModel(model, lg, name) && |lg.nodes| >= 1
    ensures IsOptimum(model, 1.0)
  {
    var n := |lg.nodes|;
    var one := seq(n, i => if i == 0 then 1 else 0);
    assert IndependentSet.Selected(one) == {0};
    LegacyFeasibleIff(model, lg, name, one);
    assert IndependentSet.UnitVars(model, n);
    IndependentSet.ObjectiveIsSize(model, n, one);
    assert Feasible(model, one) && Objective(model, one) == 1.0;
    forall x | Feasible(model, x) ensures Better(model, 1.0, Objective(model, x)) {
      LegacyFeasibleIff(model, lg, name, x);
      IndependentSet.ObjectiveIsSize(model, n, x);
    }
  }

  /** Two nodes and no edge: selecting both is an independent set of two nodes. */
  lemma EdgelessPairIndependent()
    ensures IsLabelled(Labelled([0, 1], []))
    ensures IndependentSet.Independent(Relabel(Labelled([0, 1], [])), IndependentSet.Selected([1, 1]))
    ensures |IndependentSet.Selected([1, 1])| == 2
  {
    assert IndependentSet.Selected([1, 1]) == {0, 1};
  }

  /** Two nodes and no edge: both nodes form an independent set, yet the model rejects it. */
  lemma LegacyRejectsIndependentPair(model: Model, name: string)
    requires IsLegacyModel(model, Labelled([0, 1], []), name)
    ensures IsLabelled(Labelled([0, 1], []))
    ensures IndependentSet.Independent(Relabel(Labelled([0, 1], [])), IndependentSet.Selected([1, 1]))
    ensures !Feasible(model, [1, 1])
  {
    EdgelessPairIndependent();
    LegacyFeasibleIff(model, Labelled([0, 1], []), name, [1, 1]);
  }

  /** The edge formulation of the same graph accepts that pair and reaches 2. */
  lemma EdgelessPairOptimum(model: Model, name: string)
    requires IndependentSet.IsIndependentSetModel(model, Graph(2, []), name)
    ensures Feasible(model, [1, 1]) && IsOptimum(model, 2.0)
  {
    var g := Graph(2, []);
    var both := [1, 1];
    assert IndependentSet.Selected(both) == {0, 1};
    IndependentSet.FeasibleIffIndependent(model, g, name, both);
    IndependentSet.ObjectiveIsSize(model, 2, both);
    forall x | Feasible(model, x) ensures Better(model, 2.0, Objective(model, x)) {
      IndependentSet.FeasibleIffIndependent(model, g, name, x);
      IndependentSet.ObjectiveIsSize(model, 2, x);
      assert IndependentSet.Selected(x) <= {0, 1};
      SubsetCard(IndependentSet.Selected(x), {0, 1});
    }
  }
}
