/**
 * geco/mips/max_cut/generic.py, naive: the node/edge formulation of
 * weighted maximum cut.
 *
 * The graph keeps its labels. Node graph.nodes[i] has the binary variable
 * str(node) at handle i, with objective 0; edge graph.edges[k] has the
 * binary variable undirected_edge_name(u, v) at handle n + k, with the
 * edge's weight as objective. Per edge, in edge order, y_uv <= 2 - x_u - x_v
 * and y_uv <= x_u + x_v; when some weight is negative also y_uv >= x_u - x_v
 * and y_uv >= x_v - x_u. The model maximises.
 *
 * A side assignment s puts node i on side s[i] (0 or 1); an edge is cut when
 * its ends lie on different sides. The model's optimum is the largest total
 * weight of cut edges.
 */
module MaxCut {
  import opened Common
  import opened Mip
  import opened Graphs
  import Naming

  /** graph.edges(data=True) with the "weight" of edge k at w[k]. */
  ghost predicate IsWeighted(lg: Labelled<int>, w: seq<real>) {
    IsLabelled(lg) && |w| == |lg.edges|
  }

  predicate NonNegative(w: seq<real>) {
    forall k :: 0 <= k < |w| ==> w[k] >= 0.0
  }

  /** addVar(lb=0, ub=1, obj=0, name=str(v), vtype="B") */
  function NodeVar(node: int): Var {
    BinaryVar(Naming.IntToString(node), 0.0)
  }

  /** addVar(lb=0, ub=1, obj=weight, name=undirected_edge_name(u, v), vtype="B") */
  function EdgeVar(e: (int, int), weight: real): Var {
    BinaryVar(Naming.UndirectedEdgeName(e.0, e.1), weight)
  }

  // ---------------------------------------------------------------- cuts

  /** A side (0 or 1) for each of n nodes. */
  predicate IsSides(s: seq<int>, n: nat) {
    |s| == n && Binary01(s)
  }

  /** The edge joins nodes on different sides (a self-loop never does). */
  predicate IsCut(s: seq<int>, e: Edge) {
    e.0 < |s| && e.1 < |s| && s[e.0] != s[e.1]
  }

  /** The weight of the cut edges among edges k, k+1, ... */
  function CutWeightFrom(g: Graph, w: seq<real>, s: seq<int>, k: nat): real
    decreases |g.edges| - k
  {
    if k >= |g.edges| || k >= |w| then 0.0
    else (if IsCut(s, g.edges[k]) then w[k] else 0.0) + CutWeightFrom(g, w, s, k + 1)
  }

  function CutWeight(g: Graph, w: seq<real>, s: seq<int>): real {
    CutWeightFrom(g, w, s, 0)
  }

  /** v is the largest weight a cut of g attains. */
  ghost predicate IsMaxCut(g: Graph, w: seq<real>, v: real) {
    (exists s :: IsSides(s, g.n) && CutWeight(g, w, s) == v) &&
    forall s :: IsSides(s, g.n) ==> CutWeight(g, w, s) <= v
  }

  /** Only the sides of the nodes matter. */
  lemma {:induction false} CutWeightPrefix(g: Graph, w: seq<real>, x: seq<int>, k: nat)
    requires IsGraph(g) && g.n <= |x|
    ensures CutWeightFrom(g, w, x[..g.n], k) == CutWeightFrom(g, w, x, k)
    decreases |g.edges| - k
  {
    if k < |g.edges| && k < |w| {
      CutWeightPrefix(g, w, x, k + 1);
    }
  }

  // ---------------------------------------------------------------- naive

  /** y_uv <= 2 - x_u - x_v and y_uv <= x_u + x_v, for edge e (as node handles) whose variable is y. */
  function CutBounds(e: Edge, y: Handle): seq<Cons> {
    [Cons(Quicksum([(e.0, 1.0), (e.1, 1.0), (y, 1.0)]), Le, 2.0),
     Cons(Quicksum([(e.0, -1.0), (e.1, -1.0), (y, 1.0)]), Le, 0.0)]
  }

  /** y_uv >= x_u - x_v and y_uv >= x_v - x_u. */
  function SignBounds(e: Edge, y: Handle): seq<Cons> {
    [Cons(Quicksum([(e.0, 1.0), (e.1, -1.0), (y, -1.0)]), Le, 0.0),
     Cons(Quicksum([(e.0, -1.0), (e.1, 1.0), (y, -1.0)]), Le, 0.0)]
  }

  /** The constraints naive adds for one edge, four of them when some weight is negative. */
  function NaiveBlock(e: Edge, y: Handle, four: bool): seq<Cons> {
    CutBounds(e, y) + (if four then SignBounds(e, y) else [])
  }

  function NaiveBlocks(es: seq<Edge>, n: nat, four: bool): (bs: seq<seq<Cons>>)
    ensures |bs| == |es| && forall k :: 0 <= k < |es| ==> bs[k] == NaiveBlock(es[k], n + k, four)
  {
    seq(|es|, k requires 0 <= k < |es| => NaiveBlock(es[k], n + k, four))
  }

  /** All constraints of naive over the relabelled graph g. */
  function NaiveConss(g: Graph, four: bool): seq<Cons> {
    Flatten(NaiveBlocks(g.edges, g.n, four))
  }

  /** The node variables, in graph.nodes order. */
  function NodeVars(nodes: seq<int>): (vs: seq<Var>)
    ensures |vs| == |nodes| && forall i :: 0 <= i < |nodes| ==> vs[i] == NodeVar(nodes[i])
  {
    seq(|nodes|, i requires 0 <= i < |nodes| => NodeVar(nodes[i]))
  }

  /** undirected_edge_name of every edge, in graph.edges order. */
  function EdgeNames(edges: seq<(int, int)>): (names: seq<string>)
    ensures |names| == |edges| && forall k :: 0 <= k < |edges| ==> names[k] != []
  {
    seq(|edges|, k requires 0 <= k < |edges| => Naming.UndirectedEdgeName(edges[k].0, edges[k].1))
  }

  /** Binary variables with the given names and objective coefficients. */
  function NamedVars(names: seq<string>, w: seq<real>): (vs: seq<Var>)
    requires |w| == |names|
    ensures |vs| == |names| && forall k :: 0 <= k < |names| ==> vs[k] == BinaryVar(names[k], w[k])
  {
    seq(|names|, k requires 0 <= k < |names| => BinaryVar(names[k], w[k]))
  }

  /** The edge variables, in graph.edges order. */
  function EdgeVars(edges: seq<(int, int)>, w: seq<real>): (vs: seq<Var>)
    requires |w| == |edges|
  {
    NamedVars(EdgeNames(edges), w)
  }

  /** The node variables, then the edge variables. */
  ghost predicate NaiveVars(model: Model, lg: Labelled<int>, w: seq<real>) {
    |w| == |lg.edges| && model.vars == NodeVars(lg.nodes) + EdgeVars(lg.edges, w)
  }

  /** The model naive(graph) returns, over the weights w of graph.edges. */
  ghost predicate IsNaiveModel(model: Model, lg: Labelled<int>, w: seq<real>) {
    IsWeighted(lg, w) &&
    model.name == "Naive MaxCut" && model.removed == {} && model.sense == Maximize &&
    NaiveVars(model, lg, w) && model.conss == NaiveConss(Relabel(lg), !NonNegative(w))
  }

  method AddNodeVars(m0: Model, nodes: seq<int>) returns (model: Model)
    requires m0.vars == []
    ensures model == m0.(vars := NodeVars(nodes))
  {
    ghost var vs := NodeVars(nodes);
    model := m0;
    for i := 0 to |nodes|
      invariant model == m0.(vars := vs[..i])
    {
      model := model.AddVar(NodeVar(nodes[i]));
      assert vs[..i + 1] == vs[..i] + [vs[i]];
    }
    assert vs[..|nodes|] == vs;
  }

  /** One variable per edge, in edge order, noting whether every weight is non-negative. */
  method AddEdgeVars(m0: Model, names: seq<string>, w: seq<real>) returns (model: Model, allNonNegative: bool)
    requires |w| == |names| && forall k :: 0 <= k < |names| ==> names[k] != []
    ensures model == m0.(vars := m0.vars + NamedVars(names, w))
    ensures allNonNegative <==> NonNegative(w)
  {
    ghost var vs := NamedVars(names, w);
    model, allNonNegative := m0, true;
    for k := 0 to |names|
      invariant model == m0.(vars := m0.vars + vs[..k])
      invariant allNonNegative <==> forall j :: 0 <= j < k ==> w[j] >= 0.0
    {
      model := model.AddVar(BinaryVar(names[k], w[k]));
      assert vs[..k + 1] == vs[..k] + [vs[k]];
      assert m0.vars + vs[..k + 1] == (m0.vars + vs[..k]) + [vs[k]];
      if w[k] < 0.0 {
        allNonNegative := false;
      }
    }
    assert vs[..|names|] == vs;
  }

  /** The constraints of one edge, in the order naive adds them. */
  method AddNaiveBlock(m0: Model, e: Edge, y: Handle, four: bool) returns (model: Model)
    ensures model == m0.(conss := m0.conss + NaiveBlock(e, y, four))
  {
    var u, v := e.0, e.1;
    model := m0.AddCons(Cons(Quicksum([(u, 1.0), (v, 1.0), (y, 1.0)]), Le, 2.0));
    model := model.AddCons(Cons(Quicksum([(u, -1.0), (v, -1.0), (y, 1.0)]), Le, 0.0));
    if four {
      model := model.AddCons(Cons(Quicksum([(u, 1.0), (v, -1.0), (y, -1.0)]), Le, 0.0));
      model := model.AddCons(Cons(Quicksum([(u, -1.0), (v, 1.0), (y, -1.0)]), Le, 0.0));
    }
  }

  /** The per-edge constraints, edge by edge. */
  method AddNaiveConss(m0: Model, es: seq<Edge>, n: nat, four: bool) returns (model: Model)
    ensures model == m0.(conss := m0.conss + Flatten(NaiveBlocks(es, n, four)))
  {
    ghost var bs := NaiveBlocks(es, n, four);
    model := m0;
    for k := 0 to |es|
      invariant model == m0.(conss := m0.conss + Flatten(bs[..k]))
    {
      var next := AddNaiveBlock(model, es[k], n + k, four);
      BlockAppended(m0, model, next, bs, k);
      model := next;
    }
    assert bs[..|es|] == bs;
  }

  /** The constraints of edge k mention its two nodes and its own variable. */
  lemma NaiveBlocksBounded(es: seq<Edge>, n: nat, four: bool)
    requires forall k :: 0 <= k < |es| ==> es[k].0 < n && es[k].1 < n
    ensures forall j, h :: 0 <= j < |Flatten(NaiveBlocks(es, n, four))| && h in Flatten(NaiveBlocks(es, n, four))[j].expr
              ==> h < n + |es|
  {
    var bs: seq<seq<Cons>> := NaiveBlocks(es, n, four);
    forall k: nat, j: nat, h: Handle | 0 <= k < |bs| && 0 <= j < |bs[k]| && h in bs[k][j].expr ensures h < n + |es| {
      var e := es[k];
      KeysOfTriple(e.0, e.1, n + k, 1.0, 1.0, 1.0);
      KeysOfTriple(e.0, e.1, n + k, -1.0, -1.0, 1.0);
      KeysOfTriple(e.0, e.1, n + k, 1.0, -1.0, -1.0);
      KeysOfTriple(e.0, e.1, n + k, -1.0, 1.0, -1.0);
    }
    FlattenBounded(bs, n + |es|);
  }

  /** With nothing deleted, the per-edge constraints mention only live variables. */
  lemma NaiveWellFormed(model: Model, es: seq<Edge>, n: nat, four: bool)
    requires forall k :: 0 <= k < |es| ==> es[k].0 < n && es[k].1 < n
    requires model.removed == {} && |model.vars| == n + |es| && model.conss == Flatten(NaiveBlocks(es, n, four))
    ensures model.WellFormed()
  {
    NaiveBlocksBounded(es, n, four);
  }

  method Naive(lg: Labelled<int>, w: seq<real>) returns (model: Model)
    requires IsWeighted(lg, w)
    ensures IsNaiveModel(model, lg, w) && model.WellFormed()
  {
    var n := |lg.nodes|;
    model := AddNodeVars(NewModel("Naive MaxCut"), lg.nodes);
    var allNonNegative;
    model, allNonNegative := AddEdgeVars(model, EdgeNames(lg.edges), w);
    model := model.SetSense(Maximize);
    var g := Relabel(lg);
    model := AddNaiveConss(model, g.edges, g.n, !allNonNegative);
    NaiveWellFormed(model, g.edges, g.n, !allNonNegative);
  }

  // ---------------------------------------------------------------- meaning

  /** Meeting an edge's constraints: y = 1 only on a cut edge, and with four of them y = 1 on every cut edge. */
  lemma CutBoundsMeaning(e: Edge, y: Handle, x: seq<int>)
    requires e.0 < y && e.1 < y && y < |x| && Binary01(x)
    ensures SatisfiesAll(CutBounds(e, y), x) <==> (x[y] == 1 ==> x[e.0] != x[e.1])
  {
    var c0 := Cons(Quicksum([(e.0, 1.0), (e.1, 1.0), (y, 1.0)]), Le, 2.0);
    var c1 := Cons(Quicksum([(e.0, -1.0), (e.1, -1.0), (y, 1.0)]), Le, 0.0);
    EvalTriple(e.0, e.1, y, 1.0, 1.0, 1.0, x);
    EvalTriple(e.0, e.1, y, -1.0, -1.0, 1.0, x);
    assert x[e.0] == 0 || x[e.0] == 1;
    assert x[e.1] == 0 || x[e.1] == 1;
    assert x[y] == 0 || x[y] == 1;
    SatisfiesAllAppend([c0], [c1], x);
    assert [c0] + [c1] == CutBounds(e, y);
    SatisfiesOne(c0, x);
    SatisfiesOne(c1, x);
  }

  lemma SignBoundsMeaning(e: Edge, y: Handle, x: seq<int>)
    requires e.0 < y && e.1 < y && y < |x| && Binary01(x)
    ensures SatisfiesAll(SignBounds(e, y), x) <==> (x[e.0] != x[e.1] ==> x[y] == 1)
  {
    var c2 := Cons(Quicksum([(e.0, 1.0), (e.1, -1.0), (y, -1.0)]), Le, 0.0);
    var c3 := Cons(Quicksum([(e.0, -1.0), (e.1, 1.0), (y, -1.0)]), Le, 0.0);
    EvalTriple(e.0, e.1, y, 1.0, -1.0, -1.0, x);
    EvalTriple(e.0, e.1, y, -1.0, 1.0, -1.0, x);
    assert x[e.0] == 0 || x[e.0] == 1;
    assert x[e.1] == 0 || x[e.1] == 1;
    assert x[y] == 0 || x[y] == 1;
    SatisfiesAllAppend([c2], [c3], x);
    assert [c2] + [c3] == SignBounds(e, y);
    SatisfiesOne(c2, x);
    SatisfiesOne(c3, x);
  }

  /** Meeting an edge's constraints: y = 1 only on a cut edge, and with four of them y = 1 on every cut edge. */
  lemma NaiveBlockMeaning(e: Edge, y: Handle, four: bool, x: seq<int>)
    requires e.0 < y && e.1 < y && y < |x| && Binary01(x)
    ensures SatisfiesAll(NaiveBlock(e, y, four), x) <==>
            (x[y] == 1 ==> x[e.0] != x[e.1]) && (four && x[e.0] != x[e.1] ==> x[y] == 1)
  {
    CutBoundsMeaning(e, y, x);
    SignBoundsMeaning(e, y, x);
    SatisfiesAllAppend(CutBounds(e, y), if four then SignBounds(e, y) else [], x);
  }

  /** Each edge variable is at most its edge's cut indicator, and equal to it with four constraints per edge. */
  ghost predicate EdgeVarsAgree(g: Graph, x: seq<int>, four: bool) {
    forall k :: 0 <= k < |g.edges| ==> EdgeVarAgrees(g, x, four, k)
  }

  predicate EdgeVarAgrees(g: Graph, x: seq<int>, four: bool, k: nat)
    requires k < |g.edges|
  {
    g.n + k < |x| &&
    (x[g.n + k] == 1 ==> IsCut(x, g.edges[k])) && (four && IsCut(x, g.edges[k]) ==> x[g.n + k] == 1)
  }

  lemma BinaryVarsBounds(model: Model, n: nat, w: seq<real>, x: seq<int>)
    requires NaiveObjs(model, n, w) && |x| == |model.vars|
    ensures (forall h :: 0 <= h < |x| && h !in model.removed ==> InBounds(model.vars[h], x[h])) <==> Binary01(x)
  {
    forall h | 0 <= h < |x| ensures InBounds(model.vars[h], x[h]) <==> (x[h] == 0 || x[h] == 1) {
      BinaryBounds(model.vars[h].name, if h < n then 0.0 else w[h - n], x[h]);
    }
  }

  /** Binary variables valued 0 at the n node handles and w[k] at edge handle n + k, none deleted. */
  ghost predicate NaiveObjs(model: Model, n: nat, w: seq<real>) {
    model.removed == {} && |model.vars| == n + |w| &&
    forall h :: 0 <= h < |model.vars| ==> model.vars[h] == BinaryVar(model.vars[h].name, if h < n then 0.0 else w[h - n])
  }

  lemma NaiveModelObjs(model: Model, lg: Labelled<int>, w: seq<real>)
    requires NaiveVars(model, lg, w) && model.removed == {}
    ensures NaiveObjs(model, |lg.nodes|, w)
  {
    var nv := NodeVars(lg.nodes);
    forall i | 0 <= i < |nv| ensures nv[i] == BinaryVar(nv[i].name, 0.0) {
      assert nv[i] == NodeVar(lg.nodes[i]);
    }
    NamedObjs(model, nv, EdgeNames(lg.edges), w);
  }

  lemma NamedObjs(model: Model, nv: seq<Var>, names: seq<string>, w: seq<real>)
    requires |w| == |names| && model.removed == {} && model.vars == nv + NamedVars(names, w)
    requires forall i :: 0 <= i < |nv| ==> nv[i] == BinaryVar(nv[i].name, 0.0)
    ensures NaiveObjs(model, |nv|, w)
  {
    var n := |nv|;
    forall h | 0 <= h < |model.vars|
      ensures model.vars[h] == BinaryVar(model.vars[h].name, if h < n then 0.0 else w[h - n])
    {
      if h >= n {
        assert model.vars[h] == NamedVars(names, w)[h - n];
      } else {
        assert model.vars[h] == nv[h];
      }
    }
  }

  /** x meets every constraint exactly when its edge variables agree with the cut of its node variables. */
  lemma NaiveConssMeaning(g: Graph, four: bool, x: seq<int>)
    requires IsGraph(g) && |x| == g.n + |g.edges| && Binary01(x)
    ensures SatisfiesAll(NaiveConss(g, four), x) <==> EdgeVarsAgree(g, x, four)
  {
    var bs := NaiveBlocks(g.edges, g.n, four);
    SatisfiesFlatten(bs, x);
    forall k | 0 <= k < |g.edges| ensures SatisfiesAll(bs[k], x) <==> EdgeVarAgrees(g, x, four, k) {
      NaiveBlockMeaning(g.edges[k], g.n + k, four, x);
    }
  }

  /** A naive model over a graph on positions, as the semantic lemmas below need it. */
  ghost predicate NaiveShape(model: Model, g: Graph, w: seq<real>) {
    IsGraph(g) && |w| == |g.edges| && NaiveObjs(model, g.n, w) && model.conss == NaiveConss(g, !NonNegative(w))
  }

  lemma NaiveModelShape(model: Model, lg: Labelled<int>, w: seq<real>)
    requires IsNaiveModel(model, lg, w)
    ensures NaiveShape(model, Relabel(lg), w)
  {
    NaiveModelObjs(model, lg, w);
    RelabelIsGraph(lg);
  }

  lemma ShapeFeasibleIff(model: Model, g: Graph, w: seq<real>, x: seq<int>)
    requires NaiveShape(model, g, w)
    ensures Feasible(model, x) <==> |x| == g.n + |g.edges| && Binary01(x) && EdgeVarsAgree(g, x, !NonNegative(w))
  {
    if |x| == |model.vars| {
      BinaryVarsBounds(model, g.n, w, x);
      if Binary01(x) {
        NaiveConssMeaning(g, !NonNegative(w), x);
        assert SatisfiesAll(model.conss, x) <==> forall k :: 0 <= k < |model.conss| ==> Satisfies(model.conss[k], x);
      }
    }
  }

  /** The feasible assignments: 0/1 values on which every edge variable agrees with its edge as above. */
  lemma NaiveFeasibleIff(model: Model, lg: Labelled<int>, w: seq<real>, x: seq<int>)
    requires IsNaiveModel(model, lg, w)
    ensures Feasible(model, x) <==>
            |x| == |lg.nodes| + |lg.edges| && Binary01(x) && EdgeVarsAgree(Relabel(lg), x, !NonNegative(w))
  {
    NaiveModelShape(model, lg, w);
    ShapeFeasibleIff(model, Relabel(lg), w, x);
  }

  /** Σ w[j] * x[n + j] over edges j >= k. */
  function EdgeTermsFrom(w: seq<real>, x: seq<int>, n: nat, k: nat): real
    decreases |w| - k
  {
    if k >= |w| || n + k >= |x| then 0.0 else w[k] * (x[n + k] as real) + EdgeTermsFrom(w, x, n, k + 1)
  }

  lemma {:induction false} NaiveObjectiveEdges(model: Model, n: nat, w: seq<real>, x: seq<int>, k: nat)
    requires NaiveObjs(model, n, w) && |x| == |model.vars|
    ensures ObjectiveFrom(model, x, n + k) == EdgeTermsFrom(w, x, n, k)
    decreases |w| - k
  {
    if k < |w| {
      NaiveObjectiveEdges(model, n, w, x, k + 1);
      assert model.vars[n + k].obj == w[k];
      assert ObjectiveFrom(model, x, n + k) == w[k] * (x[n + k] as real) + ObjectiveFrom(model, x, n + k + 1);
    }
  }

  lemma {:induction false} NaiveObjectiveNodes(model: Model, n: nat, w: seq<real>, x: seq<int>, i: nat)
    requires NaiveObjs(model, n, w) && |x| == |model.vars| && i <= n
    ensures ObjectiveFrom(model, x, i) == ObjectiveFrom(model, x, n)
    decreases n - i
  {
    if i < n {
      NaiveObjectiveNodes(model, n, w, x, i + 1);
      assert model.vars[i].obj == 0.0;
    }
  }

  /** The objective is the total weight of the edges whose variable is one. */
  lemma NaiveObjective(model: Model, n: nat, w: seq<real>, x: seq<int>)
    requires NaiveObjs(model, n, w) && |x| == |model.vars|
    ensures Objective(model, x) == EdgeTermsFrom(w, x, n, 0)
  {
    NaiveObjectiveNodes(model, n, w, x, 0);
    NaiveObjectiveEdges(model, n, w, x, 0);
  }

  /** Edge terms never exceed the cut weight: an edge variable of one marks a cut edge, and a zero one loses only a non-negative weight. */
  lemma {:induction false} EdgeTermsBelowCut(g: Graph, w: seq<real>, x: seq<int>, four: bool, k: nat)
    requires |w| == |g.edges| && |x| == g.n + |g.edges| && Binary01(x)
    requires EdgeVarsAgree(g, x, four) && (!four ==> NonNegative(w))
    ensures EdgeTermsFrom(w, x, g.n, k) <= CutWeightFrom(g, w, x, k)
    decreases |w| - k
  {
    if k < |w| {
      EdgeTermsBelowCut(g, w, x, four, k + 1);
      assert EdgeVarAgrees(g, x, four, k);
      assert x[g.n + k] == 0 || x[g.n + k] == 1;
    }
  }

  /** Every feasible assignment is worth at most the cut its node variables describe. */
  lemma ShapeFeasibleBelowCut(model: Model, g: Graph, w: seq<real>, x: seq<int>)
    requires NaiveShape(model, g, w) && Feasible(model, x)
    ensures IsSides(x[..g.n], g.n)
    ensures Objective(model, x) <= CutWeight(g, w, x[..g.n])
  {
    ShapeFeasibleIff(model, g, w, x);
    NaiveObjective(model, g.n, w, x);
    EdgeTermsBelowCut(g, w, x, !NonNegative(w), 0);
    CutWeightPrefix(g, w, x, 0);
  }

  /** The assignment that puts the nodes on sides s and sets each edge variable to its cut indicator. */
  function CutAssignment(g: Graph, s: seq<int>): (x: seq<int>)
    ensures |x| == |s| + |g.edges|
  {
    s + seq(|g.edges|, k requires 0 <= k < |g.edges| => if IsCut(s, g.edges[k]) then 1 else 0)
  }

  lemma {:induction false} CutTermsFrom(g: Graph, w: seq<real>, s: seq<int>, k: nat)
    requires IsGraph(g) && |s| == g.n && |w| == |g.edges|
    ensures EdgeTermsFrom(w, CutAssignment(g, s), g.n, k) == CutWeightFrom(g, w, s, k)
    decreases |w| - k
  {
    if k < |w| {
      CutTermsFrom(g, w, s, k + 1);
      var x := CutAssignment(g, s);
      assert x[g.n + k] == if IsCut(s, g.edges[k]) then 1 else 0;
    }
  }

  /** The cut assignment's edge variables are the cut indicators, as every naive model accepts. */
  lemma CutAssignmentAgrees(g: Graph, s: seq<int>, four: bool)
    requires IsGraph(g) && IsSides(s, g.n)
    ensures Binary01(CutAssignment(g, s)) && EdgeVarsAgree(g, CutAssignment(g, s), four)
  {
    var x := CutAssignment(g, s);
    forall k | 0 <= k < |g.edges| ensures EdgeVarAgrees(g, x, four, k) {
      var e := g.edges[k];
      assert x[e.0] == s[e.0] && x[e.1] == s[e.1];
      assert x[g.n + k] == if IsCut(s, e) then 1 else 0;
    }
    forall h | 0 <= h < |x| ensures x[h] == 0 || x[h] == 1 {
      if h < g.n { assert x[h] == s[h]; }
    }
  }

  lemma ShapeCutAttained(model: Model, g: Graph, w: seq<real>, s: seq<int>)
    requires NaiveShape(model, g, w) && IsSides(s, g.n)
    ensures Feasible(model, CutAssignment(g, s)) && Objective(model, CutAssignment(g, s)) == CutWeight(g, w, s)
  {
    var x := CutAssignment(g, s);
    CutAssignmentAgrees(g, s, !NonNegative(w));
    ShapeFeasibleIff(model, g, w, x);
    NaiveObjective(model, g.n, w, x);
    CutTermsFrom(g, w, s, 0);
  }

  lemma ShapeOptimumIsMaxCut(model: Model, g: Graph, w: seq<real>, v: real)
    requires NaiveShape(model, g, w) && model.sense == Maximize
    ensures IsOptimum(model, v) <==> IsMaxCut(g, w, v)
  {
    if IsOptimum(model, v) {
      var x :| Feasible(model, x) && Objective(model, x) == v;
      ShapeFeasibleBelowCut(model, g, w, x);
      forall t | IsSides(t, g.n) ensures CutWeight(g, w, t) <= v {
        ShapeCutAttained(model, g, w, t);
      }
      assert CutWeight(g, w, x[..g.n]) == v;
    }
    if IsMaxCut(g, w, v) {
      var s :| IsSides(s, g.n) && CutWeight(g, w, s) == v;
      ShapeCutAttained(model, g, w, s);
      forall x | Feasible(model, x) ensures Better(model, v, Objective(model, x)) {
        ShapeFeasibleBelowCut(model, g, w, x);
      }
    }
  }

  /** Every cut is attained: its assignment is feasible and worth the cut's weight. */
  lemma NaiveCutAttained(model: Model, lg: Labelled<int>, w: seq<real>, s: seq<int>)
    requires IsNaiveModel(model, lg, w) && IsSides(s, |lg.nodes|)
    ensures Feasible(model, CutAssignment(Relabel(lg), s))
    ensures Objective(model, CutAssignment(Relabel(lg), s)) == CutWeight(Relabel(lg), w, s)
  {
    NaiveModelShape(model, lg, w);
    ShapeCutAttained(model, Relabel(lg), w, s);
  }

  /** naive(graph) solves maximum cut: its optimum is exactly the largest cut weight, for any weights. */
  lemma NaiveOptimumIsMaxCut(model: Model, lg: Labelled<int>, w: seq<real>, v: real)
    requires IsNaiveModel(model, lg, w)
    ensures IsOptimum(model, v) <==> IsMaxCut(Relabel(lg), w, v)
  {
    NaiveModelShape(model, lg, w);
    ShapeOptimumIsMaxCut(model, Relabel(lg), w, v);
  }

  /** n + m variables; 2m constraints when no weight is negative, 4m otherwise. */
  lemma NaiveCounts(model: Model, lg: Labelled<int>, w: seq<real>)
    requires IsNaiveModel(model, lg, w)
    ensures model.NumVars() == |lg.nodes| + |lg.edges|
    ensures model.NumConss() == (if NonNegative(w) then 2 else 4) * |lg.edges|
  {
    var four := !NonNegative(w);
    var g := Relabel(lg);
    FlattenSize(NaiveBlocks(g.edges, g.n, four), if four then 4 else 2);
  }

  /** The edge-variable dictionary is keyed by an undirected name: both orientations share it, and distinct edges of a graph get distinct names. */
  lemma EdgeNamesDistinct(lg: Labelled<int>, w: seq<real>, k: nat, l: nat)
    requires IsWeighted(lg, w) && k < l < |lg.edges|
    ensures EdgeVar(lg.edges[k], w[k]).name != EdgeVar(lg.edges[l], w[l]).name
    ensures EdgeVar(lg.edges[k], w[k]).name == EdgeVar((lg.edges[k].1, lg.edges[k].0), w[k]).name
  {
    var a, b := lg.edges[k], lg.edges[l];
    assert !SamePair(a, b);
    Naming.EdgeNameInjective(a.0, a.1, b.0, b.1);
    Naming.EdgeNameSymmetric(a.0, a.1);
  }

  // ---------------------------------------------------------------- the triangle K3

  /** nx.complete_graph(3) with integer labels. */
  function K3(): Labelled<int> {
    Labelled([0, 1, 2], [(0, 1), (0, 2), (1, 2)])
  }

  lemma K3Labelled()
    ensures IsLabelled(K3())
  {
    var lg := K3();
    assert Distinct(lg.nodes) by {
      forall i, j | 0 <= i < j < 3 ensures lg.nodes[i] != lg.nodes[j] {}
    }
  }

  lemma K3Relabel()
    ensures IsLabelled(K3()) && Relabel(K3()) == Graph(3, [(0, 1), (0, 2), (1, 2)])
  {
    K3Labelled();
    var lg := K3();
    PositionOfDistinct(lg.nodes, 0);
    PositionOfDistinct(lg.nodes, 1);
    PositionOfDistinct(lg.nodes, 2);
    var g := Relabel(lg);
    assert g.edges[0] == (0, 1) && g.edges[1] == (0, 2) && g.edges[2] == (1, 2);
  }

  /** On a triangle the cut weight is the weight of the edges whose ends differ. */
  lemma TriangleCutWeight(w: seq<real>, s: seq<int>)
    requires |w| == 3 && |s| == 3
    ensures CutWeight(Graph(3, [(0, 1), (0, 2), (1, 2)]), w, s) ==
            (if s[0] != s[1] then w[0] else 0.0) + (if s[0] != s[2] then w[1] else 0.0) +
            (if s[1] != s[2] then w[2] else 0.0)
  {
    var g := Graph(3, [(0, 1), (0, 2), (1, 2)]);
    assert CutWeightFrom(g, w, s, 3) == 0.0;
    assert CutWeightFrom(g, w, s, 2) == (if s[1] != s[2] then w[2] else 0.0);
    assert CutWeightFrom(g, w, s, 1) == (if s[0] != s[2] then w[1] else 0.0) + CutWeightFrom(g, w, s, 2);
  }

  /** With unit weights the largest cut of the triangle weighs 2. */
  lemma TriangleMaxCutUnit()
    ensures IsMaxCut(Graph(3, [(0, 1), (0, 2), (1, 2)]), [1.0, 1.0, 1.0], 2.0)
  {
    var g, w := Graph(3, [(0, 1), (0, 2), (1, 2)]), [1.0, 1.0, 1.0];
    TriangleCutWeight(w, [0, 1, 1]);
    assert IsSides([0, 1, 1], 3);
    forall t | IsSides(t, 3) ensures CutWeight(g, w, t) <= 2.0 {
      TriangleCutWeight(w, t);
      assert t[0] == 0 || t[0] == 1;
      assert t[1] == 0 || t[1] == 1;
      assert t[2] == 0 || t[2] == 1;
    }
  }

  /** With weights -1 no cut beats the empty one, which weighs 0. */
  lemma TriangleMaxCutNegative()
    ensures IsMaxCut(Graph(3, [(0, 1), (0, 2), (1, 2)]), [-1.0, -1.0, -1.0], 0.0)
  {
    var g, w := Graph(3, [(0, 1), (0, 2), (1, 2)]), [-1.0, -1.0, -1.0];
    TriangleCutWeight(w, [0, 0, 0]);
    assert IsSides([0, 0, 0], 3);
    forall t | IsSides(t, 3) ensures CutWeight(g, w, t) <= 0.0 {
      TriangleCutWeight(w, t);
    }
  }

  /** naive on K3 with weight 1: 6 variables, 2 constraints per edge, optimum 2. */
  lemma NaiveK3Unit(model: Model)
    requires IsNaiveModel(model, K3(), [1.0, 1.0, 1.0])
    ensures model.NumVars() == 6 && model.NumConss() == 6 && model.sense == Maximize
    ensures IsOptimum(model, 2.0)
  {
    K3Relabel();
    NaiveCounts(model, K3(), [1.0, 1.0, 1.0]);
    TriangleMaxCutUnit();
    NaiveOptimumIsMaxCut(model, K3(), [1.0, 1.0, 1.0], 2.0);
  }

  /** naive on K3 with weight -1: 6 variables, 4 constraints per edge, optimum 0. */
  lemma NaiveK3Negative(model: Model)
    requires IsNaiveModel(model, K3(), [-1.0, -1.0, -1.0])
    ensures model.NumVars() == 6 && model.NumConss() == 12 && model.sense == Maximize
    ensures IsOptimum(model, 0.0)
  {
    K3Relabel();
    var w := [-1.0, -1.0, -1.0];
    assert !NonNegative(w) by { assert w[0] < 0.0; }
    NaiveCounts(model, K3(), w);
    TriangleMaxCutNegative();
    NaiveOptimumIsMaxCut(model, K3(), w, 0.0);
  }
}
