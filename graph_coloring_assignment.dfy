/**
 * geco/mips/graph_coloring/generic.py, assignment and assignment_asymmetric:
 * the assignment formulations of vertex colouring with h = color_upperbound
 * colours.
 *
 * After the nodes are relabelled 0..n-1, vertex v and colour c have the
 * binary variable x_{v}_{c} (objective 0) at handle v * h + c, in
 * itertools.product order, and colour c has the binary variable w_{c}
 * (objective 1) at handle n * h + c. Each vertex takes exactly one colour
 * (Σ_c x_vc == 1), and for every edge uv and colour c, x_uc + x_vc <= w_c.
 * The model minimises Σ_c w_c, so its optimum is the fewest colours any
 * proper colouring needs for the ends of the edges (an isolated vertex costs
 * nothing). assignment_asymmetric adds w_c <= Σ_v x_vc for every colour and
 * w_c <= w_{c-1} for every colour but the first.
 */
module ColoringAssignment {
  import opened Common
  import opened Mip
  import opened Graphs
  import opened Coloring
  import Naming

  /** addVar(lb=0, ub=1, obj=0, name=f"x_{vertex}_{color}", vtype="B") */
  function XVar(v: nat, c: nat): Var {
    BinaryVar(PairName("x", v, c), 0.0)
  }

  /** addVar(lb=0, ub=1, obj=1, name=f"w_{color}", vtype="B") */
  function WVar(c: nat): Var {
    BinaryVar("w_" + Naming.IntToString(c), 1.0)
  }

  /** The x variables in itertools.product(graph.nodes, colors) order. */
  function XVars(n: nat, h: nat): (vs: seq<Var>)
    ensures |vs| == n * h && forall k :: 0 <= k < n * h ==> h > 0 && vs[k] == XVar(k / h, k % h)
    ensures forall k :: 0 <= k < |vs| ==> vs[k].name != ""
  {
    if h == 0 then [] else seq(n * h, k requires 0 <= k < n * h => XVar(k / h, k % h))
  }

  function WVars(h: nat): (vs: seq<Var>)
    ensures |vs| == h && forall c :: 0 <= c < h ==> vs[c] == WVar(c)
  {
    seq(h, c requires 0 <= c < h => WVar(c))
  }

  /** constraint (2): Σ_c x_vc == 1 */
  function OneColour(v: nat, h: nat): Cons {
    Cons(Quicksum(UnitTerms(Row(v, h))), Eq, 1.0)
  }

  function OneColourConss(n: nat, h: nat): (cs: seq<Cons>)
    ensures |cs| == n && forall v :: 0 <= v < n ==> cs[v] == OneColour(v, h)
  {
    seq(n, v requires 0 <= v < n => OneColour(v, h))
  }

  /** constraint (3): x_uc + x_vc <= w_c */
  function EdgeColour(e: Edge, c: nat, n: nat, h: nat): Cons {
    Cons(Quicksum([(Cell(e.0, c, h), 1.0), (Cell(e.1, c, h), 1.0), (n * h + c, -1.0)]), Le, 0.0)
  }

  function EdgeBlock(e: Edge, n: nat, h: nat): (cs: seq<Cons>)
    ensures |cs| == h && forall c :: 0 <= c < h ==> cs[c] == EdgeColour(e, c, n, h)
  {
    seq(h, c requires 0 <= c < h => EdgeColour(e, c, n, h))
  }

  function EdgeBlocks(es: seq<Edge>, n: nat, h: nat): (bs: seq<seq<Cons>>)
    ensures |bs| == |es| && forall k :: 0 <= k < |es| ==> bs[k] == EdgeBlock(es[k], n, h)
  {
    seq(|es|, k requires 0 <= k < |es| => EdgeBlock(es[k], n, h))
  }

  function AssignmentConss(g: Graph, h: nat): seq<Cons> {
    OneColourConss(g.n, h) + Flatten(EdgeBlocks(g.edges, g.n, h))
  }

  /** The model assignment(graph, h, name) returns. */
  ghost predicate IsAssignmentModel(model: Model, lg: Labelled<int>, h: nat, name: string) {
    IsLabelled(lg) &&
    model.name == name && model.removed == {} && model.sense == Minimize &&
    model.vars == XVars(|lg.nodes|, h) + WVars(h) && model.conss == AssignmentConss(Relabel(lg), h)
  }

  // ---------------------------------------------------------------- building

  method AddXVars(m0: Model, n: nat, h: nat) returns (model: Model)
    ensures model == m0.(vars := m0.vars + XVars(n, h))
  {
    var vs := XVars(n, h);
    model := m0;
    for k := 0 to |vs|
      invariant model == m0.(vars := m0.vars + vs[..k])
    {
      model := model.AddVar(vs[k]);
      assert vs[..k + 1] == vs[..k] + [vs[k]];
      assert m0.vars + vs[..k + 1] == (m0.vars + vs[..k]) + [vs[k]];
    }
    assert vs[..|vs|] == vs;
  }

  method AddWVars(m0: Model, h: nat) returns (model: Model)
    ensures model == m0.(vars := m0.vars + WVars(h))
  {
    ghost var vs := WVars(h);
    model := m0;
    for c := 0 to h
      invariant model == m0.(vars := m0.vars + vs[..c])
    {
      model := model.AddVar(WVar(c));
      assert vs[..c + 1] == vs[..c] + [vs[c]];
      assert m0.vars + vs[..c + 1] == (m0.vars + vs[..c]) + [vs[c]];
    }
    assert vs[..h] == vs;
  }

  method AddOneColourConss(m0: Model, n: nat, h: nat) returns (model: Model)
    ensures model == m0.(conss := m0.conss + OneColourConss(n, h))
  {
    ghost var cs := OneColourConss(n, h);
    model := m0;
    for v := 0 to n
      invariant model == m0.(conss := m0.conss + cs[..v])
    {
      model := model.AddCons(OneColour(v, h));
      assert cs[..v + 1] == cs[..v] + [cs[v]];
      assert m0.conss + cs[..v + 1] == (m0.conss + cs[..v]) + [cs[v]];
    }
    assert cs[..n] == cs;
  }

  /** for color in colors: model.addCons(x[u, color] + x[v, color] <= w[color]) */
  method AddEdgeBlock(m0: Model, e: Edge, n: nat, h: nat) returns (model: Model)
    ensures model == m0.(conss := m0.conss + EdgeBlock(e, n, h))
  {
    ghost var cs := EdgeBlock(e, n, h);
    model := m0;
    for c := 0 to h
      invariant model == m0.(conss := m0.conss + cs[..c])
    {
      model := model.AddCons(EdgeColour(e, c, n, h));
      assert cs[..c + 1] == cs[..c] + [cs[c]];
      assert m0.conss + cs[..c + 1] == (m0.conss + cs[..c]) + [cs[c]];
    }
    assert cs[..h] == cs;
  }

  method AddEdgeConss(m0: Model, es: seq<Edge>, n: nat, h: nat) returns (model: Model)
    ensures model == m0.(conss := m0.conss + Flatten(EdgeBlocks(es, n, h)))
  {
    ghost var bs := EdgeBlocks(es, n, h);
    model := m0;
    for k := 0 to |es|
      invariant model == m0.(conss := m0.conss + Flatten(bs[..k]))
    {
      var next := AddEdgeBlock(model, es[k], n, h);
      BlockAppended(m0, model, next, bs, k);
      model := next;
    }
    assert bs[..|es|] == bs;
  }

  /** Every constraint of assignment mentions only variables of the model. */
  lemma AssignmentBounded(g: Graph, h: nat)
    requires IsGraph(g)
    ensures forall j, i :: 0 <= j < |AssignmentConss(g, h)| && i in AssignmentConss(g, h)[j].expr ==> i < g.n * h + h
  {
    var n := g.n;
    var one := OneColourConss(n, h);
    forall v, i | 0 <= v < n && i in one[v].expr ensures i < n * h + h {
      QuicksumKeys(UnitTerms(Row(v, h)));
      var c :| 0 <= c < h && UnitTerms(Row(v, h))[c].0 == i;
      CellBelow(n, h, v, c);
    }
    var bs: seq<seq<Cons>> := EdgeBlocks(g.edges, n, h);
    forall k, j, i | 0 <= k < |bs| && 0 <= j < |bs[k]| && i in bs[k][j].expr ensures i < n * h + h {
      var e := g.edges[k];
      KeysOfTriple(Cell(e.0, j, h), Cell(e.1, j, h), n * h + j, 1.0, 1.0, -1.0);
      CellBelow(n, h, e.0, j);
      CellBelow(n, h, e.1, j);
    }
    FlattenBounded(bs, n * h + h);
    var all := AssignmentConss(g, h);
    forall j, i | 0 <= j < |all| && i in all[j].expr ensures i < n * h + h {
      if j < n {
        assert all[j] == one[j];
      } else {
        assert all[j] == Flatten(bs)[j - n];
      }
    }
  }

  lemma AssignmentCounts(g: Graph, h: nat)
    ensures |AssignmentConss(g, h)| == g.n + |g.edges| * h
  {
    FlattenSize(EdgeBlocks(g.edges, g.n, h), h);
  }

  /** The variables of assignment, before any constraint. */
  method AssignmentVars(name: string, n: nat, h: nat) returns (model: Model)
    ensures model == Model(name, XVars(n, h) + WVars(h), {}, [], Minimize)
  {
    ghost var xs, ws := XVars(n, h), WVars(h);
    model := NewModel(name);
    model := AddXVars(model, n, h);
    assert model.vars == [] + xs == xs;
    model := AddWVars(model, h);
    assert model.vars == xs + ws;
  }

  lemma AssignmentWellFormed(model: Model, g: Graph, h: nat)
    requires IsGraph(g) && model.removed == {} && |model.vars| == g.n * h + h
    requires model.conss == AssignmentConss(g, h)
    ensures model.WellFormed() && model.NumVars() == g.n * h + h && model.NumConss() == g.n + |g.edges| * h
  {
    AssignmentBounded(g, h);
    AssignmentCounts(g, h);
  }

  method Assignment(lg: Labelled<int>, h: nat, name: string) returns (model: Model)
    requires IsLabelled(lg)
    ensures IsAssignmentModel(model, lg, h, name) && model.WellFormed()
    ensures model.NumVars() == |lg.nodes| * h + h && model.NumConss() == |lg.nodes| + |lg.edges| * h
  {
    var g := Relabel(lg);
    model := AssignmentVars(name, g.n, h);
    model := AddOneColourConss(model, g.n, h);
    model := AddEdgeConss(model, g.edges, g.n, h);
    model := model.SetSense(Minimize);
    RelabelIsGraph(lg);
    AssignmentWellFormed(model, g, h);
  }

  // ---------------------------------------------------------------- meaning of the constraints

  /** Vertex v has exactly one colour. */
  ghost predicate HasOneColour(x: seq<int>, v: nat, h: nat) {
    exists c :: OnlyAt(Row(v, h), x, c)
  }

  ghost predicate EachOneColour(x: seq<int>, n: nat, h: nat) {
    forall v :: 0 <= v < n ==> HasOneColour(x, v, h)
  }

  /** Both ends of an edge have colour c only if w_c is one, and never both. */
  predicate EdgeRespects(g: Graph, x: seq<int>, h: nat, k: nat, c: nat)
    requires k < |g.edges|
  {
    At(x, Cell(g.edges[k].0, c, h)) + At(x, Cell(g.edges[k].1, c, h)) <= At(x, g.n * h + c)
  }

  ghost predicate EdgesRespected(g: Graph, x: seq<int>, h: nat) {
    forall k, c :: 0 <= k < |g.edges| && 0 <= c < h ==> EdgeRespects(g, x, h, k, c)
  }

  lemma RowZeroOne(n: nat, h: nat, v: nat, x: seq<int>)
    requires v < n && |x| == n * h + h && Binary01(x)
    ensures ZeroOneOn(Row(v, h), x)
  {
    forall c | 0 <= c < h ensures Row(v, h)[c] < |x| {
      CellBelow(n, h, v, c);
    }
  }

  lemma OneColourMeaning(n: nat, h: nat, v: nat, x: seq<int>)
    requires v < n && |x| == n * h + h && Binary01(x)
    ensures Satisfies(OneColour(v, h), x) <==> HasOneColour(x, v, h)
  {
    RowZeroOne(n, h, v, x);
    EvalUnitTerms(Row(v, h), x);
    Coloring.PicksOne(Row(v, h), x);
  }

  lemma EdgeColourMeaning(g: Graph, h: nat, k: nat, c: nat, x: seq<int>)
    requires IsGraph(g) && k < |g.edges| && c < h && |x| == g.n * h + h
    ensures Satisfies(EdgeColour(g.edges[k], c, g.n, h), x) <==> EdgeRespects(g, x, h, k, c)
  {
    var e := g.edges[k];
    CellBelow(g.n, h, e.0, c);
    CellBelow(g.n, h, e.1, c);
    EvalTriple(Cell(e.0, c, h), Cell(e.1, c, h), g.n * h + c, 1.0, 1.0, -1.0, x);
  }

  lemma EdgeBlockMeaning(g: Graph, h: nat, k: nat, x: seq<int>)
    requires IsGraph(g) && k < |g.edges| && |x| == g.n * h + h
    ensures SatisfiesAll(EdgeBlock(g.edges[k], g.n, h), x) <==> forall c :: 0 <= c < h ==> EdgeRespects(g, x, h, k, c)
  {
    forall c | 0 <= c < h ensures Satisfies(EdgeBlock(g.edges[k], g.n, h)[c], x) <==> EdgeRespects(g, x, h, k, c) {
      EdgeColourMeaning(g, h, k, c, x);
    }
  }

  /** The constraints of assignment say: one colour per vertex, and each edge respects every colour. */
  lemma AssignmentConssMeaning(g: Graph, h: nat, x: seq<int>)
    requires IsGraph(g) && |x| == g.n * h + h && Binary01(x)
    ensures SatisfiesAll(AssignmentConss(g, h), x) <==> EachOneColour(x, g.n, h) && EdgesRespected(g, x, h)
  {
    var one := OneColourConss(g.n, h);
    var bs := EdgeBlocks(g.edges, g.n, h);
    SatisfiesAllAppend(one, Flatten(bs), x);
    forall v | 0 <= v < g.n ensures Satisfies(one[v], x) <==> HasOneColour(x, v, h) {
      OneColourMeaning(g.n, h, v, x);
    }
    SatisfiesFlatten(bs, x);
    forall k | 0 <= k < |bs| ensures SatisfiesAll(bs[k], x) <==> forall c :: 0 <= c < h ==> EdgeRespects(g, x, h, k, c) {
      EdgeBlockMeaning(g, h, k, x);
    }
  }

  // ---------------------------------------------------------------- the model without its names

  /** Objective 0 on the n * h x variables, 1 on the h w variables. */
  function AssignmentObjs(n: nat, h: nat): (objs: seq<real>)
    ensures |objs| == n * h + h
    ensures forall i :: 0 <= i < n * h + h ==> objs[i] == (if i < n * h then 0.0 else 1.0)
  {
    seq(n * h + h, i requires 0 <= i < n * h + h => if i < n * h then 0.0 else 1.0)
  }

  /** What the meaning of an assignment model depends on. */
  ghost predicate AssignmentShape(model: Model, g: Graph, h: nat) {
    IsGraph(g) && BinaryObjs(model, AssignmentObjs(g.n, h)) && model.sense == Minimize &&
    model.conss == AssignmentConss(g, h)
  }

  lemma XWObjs(n: nat, h: nat, vs: seq<Var>)
    requires vs == XVars(n, h) + WVars(h)
    ensures forall i :: 0 <= i < n * h + h ==> vs[i] == BinaryVar(vs[i].name, AssignmentObjs(n, h)[i])
  {
    var xs := XVars(n, h);
    var ws := WVars(h);
    forall i | 0 <= i < n * h + h ensures vs[i] == BinaryVar(vs[i].name, AssignmentObjs(n, h)[i]) {
      if i < n * h {
        assert vs[i] == xs[i];
      } else {
        assert vs[i] == ws[i - n * h];
      }
    }
  }

  lemma AssignmentModelShape(model: Model, lg: Labelled<int>, h: nat, name: string)
    requires IsAssignmentModel(model, lg, h, name)
    ensures AssignmentShape(model, Relabel(lg), h)
  {
    RelabelIsGraph(lg);
    XWObjs(|lg.nodes|, h, model.vars);
  }

  /** A 0/1 assignment is feasible exactly when every vertex has one colour and every edge respects every colour. */
  lemma ShapeFeasibleIff(model: Model, g: Graph, h: nat, x: seq<int>)
    requires AssignmentShape(model, g, h)
    ensures Feasible(model, x) <==>
              |x| == g.n * h + h && Binary01(x) && EachOneColour(x, g.n, h) && EdgesRespected(g, x, h)
  {
    BinaryObjsFeasible(model, AssignmentObjs(g.n, h), x);
    if |x| == g.n * h + h && Binary01(x) {
      AssignmentConssMeaning(g, h, x);
    }
  }

  lemma AssignmentFeasibleIff(model: Model, lg: Labelled<int>, h: nat, name: string, x: seq<int>)
    requires IsAssignmentModel(model, lg, h, name)
    ensures Feasible(model, x) <==>
              |x| == |lg.nodes| * h + h && Binary01(x) &&
              EachOneColour(x, |lg.nodes|, h) && EdgesRespected(Relabel(lg), x, h)
  {
    AssignmentModelShape(model, lg, h, name);
    ShapeFeasibleIff(model, Relabel(lg), h, x);
  }

  // ---------------------------------------------------------------- the optimum

  /** Vertex v is an end of some edge. */
  ghost predicate Touched(g: Graph, v: nat) {
    exists k :: 0 <= k < |g.edges| && (g.edges[k].0 == v || g.edges[k].1 == v)
  }

  /** The colours col gives to ends of edges: the colours the w variables must pay for. */
  ghost function UsedColours(g: Graph, col: seq<nat>): set<nat> {
    set v | 0 <= v < |col| && Touched(g, v) :: col[v]
  }

  ghost predicate ProperWithin(g: Graph, col: seq<nat>, h: nat) {
    Proper(g, col) && Within(col, h)
  }

  /** v is the fewest colours on the ends of edges of any proper colouring with colours below h. */
  ghost predicate FewestColours(g: Graph, h: nat, v: nat) {
    IsGraph(g) &&
    (exists col :: ProperWithin(g, col, h) && |UsedColours(g, col)| == v) &&
    forall col :: ProperWithin(g, col, h) ==> v <= |UsedColours(g, col)|
  }

  /** The colours d in [c, h) with w_d set, w_d at handle base + d. */
  ghost function WSetFrom(x: seq<int>, base: nat, h: nat, c: nat): set<nat> {
    set d: nat | c <= d < h && WAt(x, base, d) == 1
  }

  /** The value of the variable at handle base + d. */
  function WAt(x: seq<int>, base: nat, d: nat): int {
    At(x, base + d)
  }

  function WOnes(x: seq<int>, base: nat, h: nat, c: nat): nat
    decreases h - c
  {
    if c >= h then 0 else (if At(x, base + c) == 1 then 1 else 0) + WOnes(x, base, h, c + 1)
  }

  lemma {:induction false} WOnesCard(x: seq<int>, base: nat, h: nat, c: nat)
    ensures WOnes(x, base, h, c) == |WSetFrom(x, base, h, c)|
    decreases h - c
  {
    if c < h {
      WOnesCard(x, base, h, c + 1);
      var here: set<nat> := if At(x, base + c) == 1 then {c} else {};
      assert WSetFrom(x, base, h, c) == here + WSetFrom(x, base, h, c + 1);
    } else {
      assert WSetFrom(x, base, h, c) == {};
    }
  }

  lemma {:induction false} XPartObjective(n: nat, h: nat, x: seq<int>, i: nat)
    requires |x| == n * h + h && i <= n * h
    ensures WeightedFrom(AssignmentObjs(n, h), x, i) == WeightedFrom(AssignmentObjs(n, h), x, n * h)
    decreases n * h - i
  {
    if i < n * h {
      XPartObjective(n, h, x, i + 1);
    }
  }

  lemma {:induction false} WPartObjective(n: nat, h: nat, x: seq<int>, c: nat)
    requires |x| == n * h + h && c <= h && Binary01(x)
    ensures WeightedFrom(AssignmentObjs(n, h), x, n * h + c) == WOnes(x, n * h, h, c) as real
    decreases h - c
  {
    if c < h {
      WPartObjective(n, h, x, c + 1);
      assert x[n * h + c] == 0 || x[n * h + c] == 1;
    }
  }

  /** The objective counts the w variables set to one. */
  lemma AssignmentObjective(model: Model, g: Graph, h: nat, x: seq<int>)
    requires AssignmentShape(model, g, h) && |x| == g.n * h + h && Binary01(x)
    ensures Objective(model, x) == |WSetFrom(x, g.n * h, h, 0)| as real
  {
    var objs := AssignmentObjs(g.n, h);
    BinaryObjsObjective(model, objs, x, 0);
    XPartObjective(g.n, h, x, 0);
    WPartObjective(g.n, h, x, 0);
    WOnesCard(x, g.n * h, h, 0);
  }

  // ---------------------------------------------------------------- decoding

  ghost function ColourOf(x: seq<int>, v: nat, h: nat): (c: nat)
    requires HasOneColour(x, v, h)
    ensures OnlyAt(Row(v, h), x, c)
  {
    var c: nat :| OnlyAt(Row(v, h), x, c); c
  }

  /** The colouring an assignment stands for: vertex v takes the colour c with x_vc == 1. */
  ghost function Decode(x: seq<int>, n: nat, h: nat): (col: seq<nat>)
    requires EachOneColour(x, n, h)
    ensures |col| == n && forall v :: 0 <= v < n ==> OnlyAt(Row(v, h), x, col[v])
  {
    seq(n, v requires 0 <= v < n => ColourOf(x, v, h))
  }

  /** The two ends of edge k get different colours, and both colours have w set. */
  lemma DecodeEdge(g: Graph, h: nat, x: seq<int>, k: nat)
    requires IsGraph(g) && |x| == g.n * h + h && Binary01(x)
    requires EachOneColour(x, g.n, h) && EdgesRespected(g, x, h) && k < |g.edges|
    ensures Decode(x, g.n, h)[g.edges[k].0] != Decode(x, g.n, h)[g.edges[k].1]
    ensures At(x, g.n * h + Decode(x, g.n, h)[g.edges[k].0]) == 1
    ensures At(x, g.n * h + Decode(x, g.n, h)[g.edges[k].1]) == 1
  {
    var col := Decode(x, g.n, h);
    var u, w := g.edges[k].0, g.edges[k].1;
    var cu, cw := col[u], col[w];
    CellBelow(g.n, h, u, cu);
    CellBelow(g.n, h, w, cw);
    CellBelow(g.n, h, u, cw);
    CellBelow(g.n, h, w, cu);
    assert Row(u, h)[cu] == Cell(u, cu, h) && Row(w, h)[cw] == Cell(w, cw, h);
    assert x[g.n * h + cu] <= 1 && x[g.n * h + cw] <= 1;
    assert EdgeRespects(g, x, h, k, cu) && EdgeRespects(g, x, h, k, cw);
    assert x[Cell(w, cu, h)] == 0;
  }

  /** A feasible assignment decodes to a proper colouring whose edge colours all have w set. */
  lemma DecodeProper(g: Graph, h: nat, x: seq<int>)
    requires IsGraph(g) && |x| == g.n * h + h && Binary01(x)
    requires EachOneColour(x, g.n, h) && EdgesRespected(g, x, h)
    ensures ProperWithin(g, Decode(x, g.n, h), h)
    ensures UsedColours(g, Decode(x, g.n, h)) <= WSetFrom(x, g.n * h, h, 0)
  {
    DecodeDiffers(g, h, x);
    DecodePaid(g, h, x);
  }

  lemma DecodeDiffers(g: Graph, h: nat, x: seq<int>)
    requires IsGraph(g) && |x| == g.n * h + h && Binary01(x)
    requires EachOneColour(x, g.n, h) && EdgesRespected(g, x, h)
    ensures ProperWithin(g, Decode(x, g.n, h), h)
  {
    var col := Decode(x, g.n, h);
    forall k | 0 <= k < |g.edges| ensures col[g.edges[k].0] != col[g.edges[k].1] {
      DecodeEdge(g, h, x, k);
    }
  }

  lemma DecodePaid(g: Graph, h: nat, x: seq<int>)
    requires IsGraph(g) && |x| == g.n * h + h && Binary01(x)
    requires EachOneColour(x, g.n, h) && EdgesRespected(g, x, h)
    ensures UsedColours(g, Decode(x, g.n, h)) <= WSetFrom(x, g.n * h, h, 0)
  {
    var col := Decode(x, g.n, h);
    forall c | c in UsedColours(g, col) ensures c in WSetFrom(x, g.n * h, h, 0) {
      var v :| 0 <= v < |col| && Touched(g, v) && col[v] == c;
      var k :| 0 <= k < |g.edges| && (g.edges[k].0 == v || g.edges[k].1 == v);
      DecodeEdge(g, h, x, k);
    }
  }

  // ---------------------------------------------------------------- encoding

  /** The assignment of a colouring: x_vc is one when v has colour c, w_c when c is used on an edge. */
  ghost function Encode(g: Graph, col: seq<nat>, h: nat): (x: seq<int>)
    requires |col| == g.n
    ensures |x| == g.n * h + h
  {
    seq(g.n * h + h, i requires 0 <= i < g.n * h + h =>
      if i < g.n * h then (if h > 0 && i / h < |col| && col[i / h] == i % h then 1 else 0)
      else if i - g.n * h in UsedColours(g, col) then 1 else 0)
  }

  lemma EncodeX(g: Graph, col: seq<nat>, h: nat, v: nat, c: nat)
    requires |col| == g.n && v < g.n && c < h
    ensures Cell(v, c, h) < g.n * h
    ensures Encode(g, col, h)[Cell(v, c, h)] == if col[v] == c then 1 else 0
  {
    var k := Cell(v, c, h);
    CellBelow(g.n, h, v, c);
    CellSplit(k, h);
    Coloring.CellInjective(h, k / h, k % h, v, c);
  }

  lemma EncodeW(g: Graph, col: seq<nat>, h: nat, c: nat)
    requires |col| == g.n && c < h
    ensures Encode(g, col, h)[g.n * h + c] == if c in UsedColours(g, col) then 1 else 0
  {
  }

  lemma EncodeEdge(g: Graph, col: seq<nat>, h: nat, k: nat, c: nat)
    requires ProperWithin(g, col, h) && k < |g.edges| && c < h
    ensures EdgeRespects(g, Encode(g, col, h), h, k, c)
  {
    var u, w := g.edges[k].0, g.edges[k].1;
    EncodeX(g, col, h, u, c);
    EncodeX(g, col, h, w, c);
    EncodeW(g, col, h, c);
    assert Touched(g, u) && Touched(g, w);
    assert col[u] in UsedColours(g, col) && col[w] in UsedColours(g, col);
  }

  /** The encoding of a proper colouring is feasible, and its w variables are the colours used on edges. */
  lemma EncodeFeasible(g: Graph, col: seq<nat>, h: nat)
    requires IsGraph(g) && ProperWithin(g, col, h)
    ensures Binary01(Encode(g, col, h))
    ensures EachOneColour(Encode(g, col, h), g.n, h) && EdgesRespected(g, Encode(g, col, h), h)
    ensures WSetFrom(Encode(g, col, h), g.n * h, h, 0) == UsedColours(g, col)
  {
    var x := Encode(g, col, h);
    forall v | 0 <= v < g.n ensures HasOneColour(x, v, h) {
      var r := Row(v, h);
      forall c | 0 <= c < h ensures r[c] < |x| && x[r[c]] == (if col[v] == c then 1 else 0) {
        EncodeX(g, col, h, v, c);
      }
      assert OnlyAt(r, x, col[v]);
    }
    forall k, c | 0 <= k < |g.edges| && 0 <= c < h ensures EdgeRespects(g, x, h, k, c) {
      EncodeEdge(g, col, h, k, c);
    }
    forall c | c in UsedColours(g, col) ensures c in WSetFrom(x, g.n * h, h, 0) {
      var v :| 0 <= v < |col| && Touched(g, v) && col[v] == c;
      EncodeW(g, col, h, c);
    }
    forall c | c in WSetFrom(x, g.n * h, h, 0) ensures c in UsedColours(g, col) {
      EncodeW(g, col, h, c);
    }
  }

  // ---------------------------------------------------------------- the optimum theorem

  /** A feasible point pays at least for the colours its decoding uses on edges. */
  lemma FeasibleBound(model: Model, g: Graph, h: nat, x: seq<int>)
    requires AssignmentShape(model, g, h) && Feasible(model, x)
    ensures |x| == g.n * h + h && EachOneColour(x, g.n, h)
    ensures ProperWithin(g, Decode(x, g.n, h), h)
    ensures |UsedColours(g, Decode(x, g.n, h))| as real <= Objective(model, x)
  {
    ShapeFeasibleIff(model, g, h, x);
    DecodeProper(g, h, x);
    AssignmentObjective(model, g, h, x);
    SubsetCard(UsedColours(g, Decode(x, g.n, h)), WSetFrom(x, g.n * h, h, 0));
  }

  /** Every proper colouring is reached by a feasible point paying exactly its edge colours. */
  lemma EncodeObjective(model: Model, g: Graph, h: nat, col: seq<nat>)
    requires AssignmentShape(model, g, h) && ProperWithin(g, col, h)
    ensures Feasible(model, Encode(g, col, h))
    ensures Objective(model, Encode(g, col, h)) == |UsedColours(g, col)| as real
  {
    EncodeFeasible(g, col, h);
    ShapeFeasibleIff(model, g, h, Encode(g, col, h));
    AssignmentObjective(model, g, h, Encode(g, col, h));
  }

  lemma FewestIsOptimum(model: Model, g: Graph, h: nat, v: nat)
    requires AssignmentShape(model, g, h) && FewestColours(g, h, v)
    ensures IsOptimum(model, v as real)
  {
    var col :| ProperWithin(g, col, h) && |UsedColours(g, col)| == v;
    EncodeObjective(model, g, h, col);
    forall x | Feasible(model, x) ensures Better(model, v as real, Objective(model, x)) {
      FeasibleBound(model, g, h, x);
    }
  }

  lemma OptimumIsFewest(model: Model, g: Graph, h: nat, r: real)
    requires AssignmentShape(model, g, h) && IsOptimum(model, r)
    ensures exists v: nat :: r == v as real && FewestColours(g, h, v)
  {
    var best :| Feasible(model, best) && Objective(model, best) == r;
    FeasibleBound(model, g, h, best);
    var col := Decode(best, g.n, h);
    EncodeObjective(model, g, h, col);
    var v := |UsedColours(g, col)|;
    forall other | ProperWithin(g, other, h) ensures v <= |UsedColours(g, other)| {
      EncodeObjective(model, g, h, other);
    }
    assert FewestColours(g, h, v);
  }

  /**
   * The optimum of assignment is the fewest colours a proper colouring with
   * colours below h needs on the ends of the edges; there is no other optimum.
   */
  lemma AssignmentOptimum(model: Model, lg: Labelled<int>, h: nat, name: string, r: real)
    requires IsAssignmentModel(model, lg, h, name)
    ensures IsOptimum(model, r) <==> exists v: nat :: r == v as real && FewestColours(Relabel(lg), h, v)
  {
    AssignmentModelShape(model, lg, h, name);
    if IsOptimum(model, r) {
      OptimumIsFewest(model, Relabel(lg), h, r);
    }
    forall v: nat | r == v as real && FewestColours(Relabel(lg), h, v) ensures IsOptimum(model, r) {
      FewestIsOptimum(model, Relabel(lg), h, v);
    }

  }

  // ---------------------------------------------------------------- the 5-cycle

  lemma Cycle5Touched(v: nat)
    requires v < 5
    ensures Touched(Cycle5(), v)
  {
    var es := Cycle5().edges;
    assert es[0] == (0, 1) && es[2] == (1, 2) && es[3] == (2, 3) && es[4] == (3, 4);
  }

  /** [0, 1, 0, 1, 2] colours the 5-cycle with three colours. */
  lemma Cycle5Colouring()
    ensures ProperWithin(Cycle5(), [0, 1, 0, 1, 2], 5) && UsedColours(Cycle5(), [0, 1, 0, 1, 2]) == {0, 1, 2}
    ensures |UsedColours(Cycle5(), [0, 1, 0, 1, 2])| == 3
  {
    var g := Cycle5();
    var col: seq<nat> := [0, 1, 0, 1, 2];
    var es := g.edges;
    assert es[0] == (0, 1) && es[1] == (0, 4) && es[2] == (1, 2) && es[3] == (2, 3) && es[4] == (3, 4);
    assert ProperWithin(g, col, 5);
    Cycle5Touched(0);
    Cycle5Touched(1);
    Cycle5Touched(4);
    assert UsedColours(g, col) == {0, 1, 2};
  }

  /** Every proper colouring of the 5-cycle uses at least three colours. */
  lemma Cycle5AtLeastThree(col: seq<nat>)
    requires ProperWithin(Cycle5(), col, 5)
    ensures 3 <= |UsedColours(Cycle5(), col)|
  {
    Cycle5ThreeColours(col);
    var a, b, c :| 0 <= a < 5 && 0 <= b < 5 && 0 <= c < 5 &&
                   col[a] != col[b] && col[a] != col[c] && col[b] != col[c];
    Cycle5Touched(a);
    Cycle5Touched(b);
    Cycle5Touched(c);
    ThreeCard(col[a], col[b], col[c], UsedColours(Cycle5(), col));
  }

  lemma Cycle5Fewest()
    ensures FewestColours(Cycle5(), 5, 3)
  {
    Cycle5IsGraph();
    Cycle5Colouring();
    forall col | ProperWithin(Cycle5(), col, 5) ensures 3 <= |UsedColours(Cycle5(), col)| {
      Cycle5AtLeastThree(col);
    }
  }

  /** assignment(nx.cycle_graph(5), 5): 30 variables, 30 constraints, optimum 3. */
  lemma AssignmentCycle5(model: Model, name: string)
    requires IsAssignmentModel(model, Cycle5Labelled(), 5, name)
    ensures model.NumVars() == 30 && model.NumConss() == 30 && IsOptimum(model, 3.0)
  {
    Cycle5Relabel();
    AssignmentCounts(Cycle5(), 5);
    Cycle5Fewest();
    AssignmentOptimum(model, Cycle5Labelled(), 5, name, 3.0);
  }
}
