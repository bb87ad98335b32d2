/**
 * geco/mips/max_cut.py, empty_edge: the "Odd-Cycle MaxCut" start model, one
 * binary variable per edge carrying the edge's weight and no constraint at
 * all. The odd-cycle inequalities that would make it a maximum-cut model are
 * never added, so the model is the relaxation in which every edge may be
 * "cut" independently: its optimum is the total positive weight, which is at
 * least the weight of every cut and, on an odd cycle of positive weights,
 * strictly more.
 */
module MaxCutLegacy {
  import opened Mip
  import opened Graphs
  import MaxCut

  /** The model empty_edge(graph) returns, over the weights w of graph.edges. */
  ghost predicate IsEmptyEdgeModel(model: Model, lg: Labelled<int>, w: seq<real>) {
    MaxCut.IsWeighted(lg, w) &&
    model.name == "Odd-Cycle MaxCut" && model.removed == {} && model.sense == Maximize &&
    model.vars == MaxCut.NamedVars(MaxCut.EdgeNames(lg.edges), w) && model.conss == []
  }

  method EmptyEdge(lg: Labelled<int>, w: seq<real>) returns (model: Model)
    requires MaxCut.IsWeighted(lg, w)
    ensures IsEmptyEdgeModel(model, lg, w) && model.WellFormed()
    ensures model.NumVars() == |lg.edges| && model.NumConss() == 0
  {
    var unused;
    model, unused := MaxCut.AddEdgeVars(NewModel("Odd-Cycle MaxCut"), MaxCut.EdgeNames(lg.edges), w);
    model := model.SetSense(Maximize);
  }

  // ---------------------------------------------------------------- meaning

  /** The name-free part of the model: binary edge variables with the weights as objective. */
  ghost predicate EmptyEdgeShape(model: Model, w: seq<real>) {
    MaxCut.NaiveObjs(model, 0, w) && model.conss == [] && model.sense == Maximize
  }

  lemma EmptyEdgeModelShape(model: Model, lg: Labelled<int>, w: seq<real>)
    requires IsEmptyEdgeModel(model, lg, w)
    ensures EmptyEdgeShape(model, w)
  {
    assert model.vars == [] + MaxCut.NamedVars(MaxCut.EdgeNames(lg.edges), w);
    MaxCut.NamedObjs(model, [], MaxCut.EdgeNames(lg.edges), w);
  }

  /** Every 0/1 choice of edges is feasible, and nothing else is. */
  lemma EmptyEdgeFeasibleIff(model: Model, lg: Labelled<int>, w: seq<real>, x: seq<int>)
    requires IsEmptyEdgeModel(model, lg, w)
    ensures Feasible(model, x) <==> |x| == |lg.edges| && Binary01(x)
  {
    EmptyEdgeModelShape(model, lg, w);
    if |x| == |model.vars| {
      MaxCut.BinaryVarsBounds(model, 0, w, x);
    }
  }

  /** The total of the positive weights among w[k], w[k+1], ... */
  function PositiveFrom(w: seq<real>, k: nat): real
    decreases |w| - k
  {
    if k >= |w| then 0.0 else (if w[k] > 0.0 then w[k] else 0.0) + PositiveFrom(w, k + 1)
  }

  /** Choose exactly the edges of positive weight. */
  function PositiveEdges(w: seq<real>): (x: seq<int>)
    ensures |x| == |w| && Binary01(x)
    ensures forall k :: 0 <= k < |w| ==> (x[k] == 1 <==> w[k] > 0.0)
  {
    seq(|w|, k requires 0 <= k < |w| => if w[k] > 0.0 then 1 else 0)
  }

  lemma {:induction false} TermsBelowPositive(w: seq<real>, x: seq<int>, k: nat)
    requires |x| == |w| && Binary01(x)
    ensures MaxCut.EdgeTermsFrom(w, x, 0, k) <= PositiveFrom(w, k)
    decreases |w| - k
  {
    if k < |w| {
      TermsBelowPositive(w, x, k + 1);
      assert x[k] == 0 || x[k] == 1;
    }
  }

  lemma {:induction false} PositiveEdgesTerms(w: seq<real>, k: nat)
    ensures MaxCut.EdgeTermsFrom(w, PositiveEdges(w), 0, k) == PositiveFrom(w, k)
    decreases |w| - k
  {
    if k < |w| {
      PositiveEdgesTerms(w, k + 1);
    }
  }

  /** The optimum of empty_edge is the total positive weight, reached by choosing the positive edges. */
  lemma EmptyEdgeOptimum(model: Model, lg: Labelled<int>, w: seq<real>)
    requires IsEmptyEdgeModel(model, lg, w)
    ensures Feasible(model, PositiveEdges(w)) && Objective(model, PositiveEdges(w)) == PositiveFrom(w, 0)
    ensures IsOptimum(model, PositiveFrom(w, 0))
  {
    EmptyEdgeModelShape(model, lg, w);
    var best := PositiveEdges(w);
    EmptyEdgeFeasibleIff(model, lg, w, best);
    MaxCut.NaiveObjective(model, 0, w, best);
    PositiveEdgesTerms(w, 0);
    forall x | Feasible(model, x) ensures Better(model, PositiveFrom(w, 0), Objective(model, x)) {
      EmptyEdgeFeasibleIff(model, lg, w, x);
      MaxCut.NaiveObjective(model, 0, w, x);
      TermsBelowPositive(w, x, 0);
    }
  }

  lemma {:induction false} CutBelowPositive(g: Graph, w: seq<real>, s: seq<int>, k: nat)
    requires |w| == |g.edges|
    ensures MaxCut.CutWeightFrom(g, w, s, k) <= PositiveFrom(w, k)
    decreases |w| - k
  {
    if k < |w| {
      CutBelowPositive(g, w, s, k + 1);
    }
  }

  /** empty_edge relaxes maximum cut: its optimum bounds the weight of the largest cut from above. */
  lemma EmptyEdgeRelaxes(model: Model, lg: Labelled<int>, w: seq<real>, u: real, v: real)
    requires IsEmptyEdgeModel(model, lg, w) && IsMaxCut(lg, w, u) && IsOptimum(model, v)
    ensures u <= v
  {
    var s :| MaxCut.IsSides(s, |lg.nodes|) && MaxCut.CutWeight(Relabel(lg), w, s) == u;
    CutBelowPositive(Relabel(lg), w, s, 0);
    EmptyEdgeOptimum(model, lg, w);
    var best := PositiveEdges(w);
    assert Better(model, v, Objective(model, best));
  }

  /** The largest cut of graph lg with weights w weighs u. */
  ghost predicate IsMaxCut(lg: Labelled<int>, w: seq<real>, u: real) {
    IsLabelled(lg) && MaxCut.IsMaxCut(Relabel(lg), w, u)
  }

  /** On the unit-weight triangle the relaxation reaches 3 while no cut weighs more than 2. */
  lemma EmptyEdgeK3(model: Model)
    requires IsEmptyEdgeModel(model, MaxCut.K3(), [1.0, 1.0, 1.0])
    ensures model.NumVars() == 3 && model.NumConss() == 0
    ensures IsOptimum(model, 3.0) && IsMaxCut(MaxCut.K3(), [1.0, 1.0, 1.0], 2.0)
  {
    var w := [1.0, 1.0, 1.0];
    EmptyEdgeOptimum(model, MaxCut.K3(), w);
    assert PositiveFrom(w, 3) == 0.0;
    assert PositiveFrom(w, 0) == 3.0;
    MaxCut.K3Relabel();
    MaxCut.TriangleMaxCutUnit();
  }
}
