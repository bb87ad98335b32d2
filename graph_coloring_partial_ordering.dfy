/**
 * geco/mips/graph_coloring/generic.py, _partial_ordering_base_model,
 * partial_ordering and hybrid_partial_ordering: the formulations POP and
 * POP2 of Jabrayilov and Mutzel with h = color_upperbound colours 0..h-1.
 *
 * After the nodes are relabelled 0..n-1 the binary y[c, v] ("v has a colour
 * above c") sits at handle b + v * h + c and the binary z[v, c] ("v has a
 * colour below c") at handle b + n * h + v * h + c, both in
 * itertools.product(graph.nodes, colors) order; b is 0 in POP and n * h in
 * POP2, whose x[v, c] come first at v * h + c. Only the y of vertex q = 0
 * carry objective 1.
 *
 * The base constraints are (16) z[v, 1] == 0 and (17) y[h-1, v] == 0 for
 * every v, then (18) y[c, v] >= y[c+1, v], (19) y[c, v] + z[v, c+1] == 1 and
 * (21) y[c, 0] >= y[c, v] for every v and c < h - 1. POP adds (20)
 * y[c,u] + z[u,c] + y[c,v] + z[v,c] >= 1 for every edge and c < h - 1;
 * POP2 adds (14) x[v,c] + y[c,v] + z[v,c] == 1 for every v and c and (23)
 * x[u,c] + x[v,c] <= 1 for every edge and every c. Beside POP the model
 * keeps the POP whose (20) covers every colour (OrderedConss).
 */
module ColoringPartialOrdering {
  import opened Common
  import opened Mip
  import opened Graphs
  import opened Coloring
  import ColoringAssignment

  /** colors[-1], the last colour of list(range(h)). */
  function Top(h: nat): nat {
    if h == 0 then 0 else h - 1
  }

  /** The handle of y[c, v]; the y variables start at b. */
  function YH(b: nat, h: nat, c: nat, v: nat): Handle {
    b + Cell(v, c, h)
  }

  /** The handle of z[v, c]; the z variables follow the n * h y variables. */
  function ZH(b: nat, n: nat, h: nat, v: nat, c: nat): Handle {
    b + n * h + Cell(v, c, h)
  }

  /** addVar(lb=0, ub=1, obj=1 if vertex == q else 0, name=f"y_{color}_{vertex}", vtype="B") */
  function YVar(v: nat, c: nat): Var {
    BinaryVar(PairName("y", c, v), if v == 0 then 1.0 else 0.0)
  }

  /** addVar(lb=0, ub=1, obj=0, name=f"z_{vertex}_{color}", vtype="B") */
  function ZVar(v: nat, c: nat): Var {
    BinaryVar(PairName("z", v, c), 0.0)
  }

  function YVars(n: nat, h: nat): (vs: seq<Var>)
    ensures |vs| == n * h && forall k :: 0 <= k < n * h ==> h > 0 && vs[k] == YVar(k / h, k % h)
    ensures forall k :: 0 <= k < |vs| ==> vs[k].name != ""
  {
    if h == 0 then [] else seq(n * h, k requires 0 <= k < n * h => YVar(k / h, k % h))
  }

  function ZVars(n: nat, h: nat): (vs: seq<Var>)
    ensures |vs| == n * h && forall k :: 0 <= k < n * h ==> h > 0 && vs[k] == ZVar(k / h, k % h)
    ensures forall k :: 0 <= k < |vs| ==> vs[k].name != ""
  {
    if h == 0 then [] else seq(n * h, k requires 0 <= k < n * h => ZVar(k / h, k % h))
  }

  // ---------------------------------------------------------------- the base constraints

  /** model.addCons(x[hd] == rhs) */
  function Fix(hd: Handle, rhs: real): Cons {
    Cons(Quicksum([(hd, 1.0)]), Eq, rhs)
  }

  /** (16) z[v, 1] == 0 and (17) y[colors[-1], v] == 0 */
  function EndsBlock(b: nat, n: nat, h: nat, v: nat): seq<Cons> {
    [Fix(ZH(b, n, h, v, 1), 0.0), Fix(YH(b, h, Top(h), v), 0.0)]
  }

  function EndsBlocks(b: nat, n: nat, h: nat): (bs: seq<seq<Cons>>)
    ensures |bs| == n && forall v :: 0 <= v < n ==> bs[v] == EndsBlock(b, n, h, v)
  {
    seq(n, v requires 0 <= v < n => EndsBlock(b, n, h, v))
  }

  /** (18) y[c, v] - y[c+1, v] >= 0, (19) y[c, v] + z[v, c+1] == 1, (21) y[c, q] - y[c, v] >= 0 */
  function StepBlock(b: nat, n: nat, h: nat, v: nat, c: nat): seq<Cons> {
    [Cons(Quicksum([(YH(b, h, c, v), 1.0), (YH(b, h, c + 1, v), -1.0)]), Ge, 0.0),
     Cons(Quicksum([(YH(b, h, c, v), 1.0), (ZH(b, n, h, v, c + 1), 1.0)]), Eq, 1.0),
     Cons(Quicksum([(YH(b, h, c, 0), 1.0), (YH(b, h, c, v), -1.0)]), Ge, 0.0)]
  }

  /** The constraints (18), (19), (21) of vertex v over colors[:-1]. */
  function StepRow(b: nat, n: nat, h: nat, v: nat): seq<Cons> {
    Flatten(seq(Top(h), c requires 0 <= c < Top(h) => StepBlock(b, n, h, v, c)))
  }

  function StepRows(b: nat, n: nat, h: nat): (bs: seq<seq<Cons>>)
    ensures |bs| == n && forall v :: 0 <= v < n ==> bs[v] == StepRow(b, n, h, v)
  {
    seq(n, v requires 0 <= v < n => StepRow(b, n, h, v))
  }

  /** The constraints _partial_ordering_base_model adds. */
  function BaseConss(b: nat, n: nat, h: nat): seq<Cons> {
    Flatten(EndsBlocks(b, n, h)) + Flatten(StepRows(b, n, h))
  }

  // ---------------------------------------------------------------- POP

  /** (20) y[c, u] + z[u, c] + y[c, v] + z[v, c] >= 1 */
  function OrderCons(n: nat, h: nat, e: Edge, c: nat): Cons {
    Cons(Quicksum([(YH(0, h, c, e.0), 1.0), (ZH(0, n, h, e.0, c), 1.0),
                   (YH(0, h, c, e.1), 1.0), (ZH(0, n, h, e.1, c), 1.0)]), Ge, 1.0)
  }

  /** The constraints (20) of one edge over the first m colours. */
  function OrderBlock(n: nat, h: nat, e: Edge, m: nat): (cs: seq<Cons>)
    ensures |cs| == m && forall c :: 0 <= c < m ==> cs[c] == OrderCons(n, h, e, c)
  {
    seq(m, c requires 0 <= c < m => OrderCons(n, h, e, c))
  }

  function OrderBlocks(n: nat, h: nat, es: seq<Edge>, m: nat): (bs: seq<seq<Cons>>)
    ensures |bs| == |es| && forall k :: 0 <= k < |es| ==> bs[k] == OrderBlock(n, h, es[k], m)
  {
    seq(|es|, k requires 0 <= k < |es| => OrderBlock(n, h, es[k], m))
  }

  /** The base constraints and (20) over the first m colours. */
  function OrderConss(g: Graph, h: nat, m: nat): seq<Cons> {
    BaseConss(0, g.n, h) + Flatten(OrderBlocks(g.n, h, g.edges, m))
  }

  /** What partial_ordering adds: (20) over colors[:-1]. */
  function PartialOrderingConss(g: Graph, h: nat): seq<Cons> {
    OrderConss(g, h, Top(h))
  }

  /** The corrected POP: (20) over every colour. */
  function OrderedConss(g: Graph, h: nat): seq<Cons> {
    OrderConss(g, h, h)
  }

  ghost predicate IsPartialOrderingModel(model: Model, lg: Labelled<int>, h: nat, name: string) {
    IsLabelled(lg) &&
    model.name == name && model.removed == {} && model.sense == Minimize &&
    model.vars == YVars(|lg.nodes|, h) + ZVars(|lg.nodes|, h) && model.conss == PartialOrderingConss(Relabel(lg), h)
  }

  ghost predicate IsOrderedModel(model: Model, lg: Labelled<int>, h: nat, name: string) {
    IsLabelled(lg) &&
    model.name == name && model.removed == {} && model.sense == Minimize &&
    model.vars == YVars(|lg.nodes|, h) + ZVars(|lg.nodes|, h) && model.conss == OrderedConss(Relabel(lg), h)
  }

  // ---------------------------------------------------------------- POP2

  /** (14) x[v, c] == 1 - (y[c, v] + z[v, c]) */
  function LinkCons(n: nat, h: nat, v: nat, c: nat): Cons {
    Cons(Quicksum([(Cell(v, c, h), 1.0), (YH(n * h, h, c, v), 1.0), (ZH(n * h, n, h, v, c), 1.0)]), Eq, 1.0)
  }

  function LinkConss(n: nat, h: nat): (cs: seq<Cons>)
    ensures |cs| == n * h && forall k :: 0 <= k < n * h ==> h > 0 && cs[k] == LinkCons(n, h, k / h, k % h)
  {
    if h == 0 then [] else seq(n * h, k requires 0 <= k < n * h => LinkCons(n, h, k / h, k % h))
  }

  /** (23) x[u, c] + x[v, c] <= 1 */
  function ClashCons(h: nat, e: Edge, c: nat): Cons {
    Cons(Quicksum([(Cell(e.0, c, h), 1.0), (Cell(e.1, c, h), 1.0)]), Le, 1.0)
  }

  function ClashBlock(h: nat, e: Edge): (cs: seq<Cons>)
    ensures |cs| == h && forall c :: 0 <= c < h ==> cs[c] == ClashCons(h, e, c)
  {
    seq(h, c requires 0 <= c < h => ClashCons(h, e, c))
  }

  function ClashBlocks(h: nat, es: seq<Edge>): (bs: seq<seq<Cons>>)
    ensures |bs| == |es| && forall k :: 0 <= k < |es| ==> bs[k] == ClashBlock(h, es[k])
  {
    seq(|es|, k requires 0 <= k < |es| => ClashBlock(h, es[k]))
  }

  function HybridConss(g: Graph, h: nat): seq<Cons> {
    BaseConss(g.n * h, g.n, h) + LinkConss(g.n, h) + Flatten(ClashBlocks(h, g.edges))
  }

  ghost predicate IsHybridModel(model: Model, lg: Labelled<int>, h: nat, name: string) {
    IsLabelled(lg) &&
    model.name == name && model.removed == {} && model.sense == Minimize &&
    model.vars == ColoringAssignment.XVars(|lg.nodes|, h) + YVars(|lg.nodes|, h) + ZVars(|lg.nodes|, h) &&
    model.conss == HybridConss(Relabel(lg), h)
  }

  // ---------------------------------------------------------------- counting

  lemma {:induction false} StepRowSize(b: nat, n: nat, h: nat, v: nat)
    ensures |StepRow(b, n, h, v)| == 3 * Top(h)
  {
    FlattenSize(seq(Top(h), c requires 0 <= c < Top(h) => StepBlock(b, n, h, v, c)), 3);
  }

  lemma BaseCount(b: nat, n: nat, h: nat)
    ensures |BaseConss(b, n, h)| == 2 * n + 3 * Top(h) * n
  {
    var ends, rows := EndsBlocks(b, n, h), StepRows(b, n, h);
    FlattenSize(ends, 2);
    forall v | 0 <= v < n ensures |rows[v]| == 3 * Top(h) {
      StepRowSize(b, n, h, v);
    }
    FlattenSize(rows, 3 * Top(h));
    assert |Flatten(rows)| == 3 * Top(h) * n;
    assert BaseConss(b, n, h) == Flatten(ends) + Flatten(rows);
  }

  lemma OrderCount(g: Graph, h: nat, m: nat)
    ensures |OrderConss(g, h, m)| == 2 * g.n + 3 * Top(h) * g.n + m * |g.edges|
  {
    BaseCount(0, g.n, h);
    FlattenSize(OrderBlocks(g.n, h, g.edges, m), m);
  }

  lemma HybridCount(g: Graph, h: nat)
    ensures |HybridConss(g, h)| == 2 * g.n + 3 * Top(h) * g.n + g.n * h + h * |g.edges|
  {
    BaseCount(g.n * h, g.n, h);
    FlattenSize(ClashBlocks(h, g.edges), h);
  }

  // ---------------------------------------------------------------- every handle exists

  lemma YBelow(b: nat, n: nat, h: nat, c: nat, v: nat)
    requires v < n && c < h
    ensures YH(b, h, c, v) < b + n * h && ZH(b, n, h, v, c) < b + 2 * (n * h)
  {
    CellBelow(n, h, v, c);
  }

  lemma EndsBounded(b: nat, n: nat, h: nat)
    requires h >= 2 || n == 0
    ensures forall j, i :: 0 <= j < |Flatten(EndsBlocks(b, n, h))| && i in Flatten(EndsBlocks(b, n, h))[j].expr ==> i < b + 2 * (n * h)
  {
    var bs: seq<seq<Cons>> := EndsBlocks(b, n, h);
    forall v, j, i: Handle | 0 <= v < |bs| && 0 <= j < |bs[v]| && i in bs[v][j].expr ensures i < b + 2 * (n * h) {
      YBelow(b, n, h, 1, v);
      YBelow(b, n, h, Top(h), v);
      KeysOfSingle(ZH(b, n, h, v, 1), 1.0);
      KeysOfSingle(YH(b, h, Top(h), v), 1.0);
    }
    FlattenBounded(bs, b + 2 * (n * h));
  }

  lemma StepRowBounded(b: nat, n: nat, h: nat, v: nat)
    requires v < n
    ensures forall j, i :: 0 <= j < |StepRow(b, n, h, v)| && i in StepRow(b, n, h, v)[j].expr ==> i < b + 2 * (n * h)
  {
    var bs: seq<seq<Cons>> := seq(Top(h), c requires 0 <= c < Top(h) => StepBlock(b, n, h, v, c));
    forall c, j, i: Handle | 0 <= c < |bs| && 0 <= j < |bs[c]| && i in bs[c][j].expr ensures i < b + 2 * (n * h) {
      YBelow(b, n, h, c, v);
      YBelow(b, n, h, c + 1, v);
      YBelow(b, n, h, c, 0);
      KeysOfPair(YH(b, h, c, v), YH(b, h, c + 1, v), 1.0, -1.0);
      KeysOfPair(YH(b, h, c, v), ZH(b, n, h, v, c + 1), 1.0, 1.0);
      KeysOfPair(YH(b, h, c, 0), YH(b, h, c, v), 1.0, -1.0);
    }
    FlattenBounded(bs, b + 2 * (n * h));
  }

  lemma BaseBounded(b: nat, n: nat, h: nat)
    requires h >= 2 || n == 0
    ensures forall j, i :: 0 <= j < |BaseConss(b, n, h)| && i in BaseConss(b, n, h)[j].expr ==> i < b + 2 * (n * h)
  {
    EndsBounded(b, n, h);
    var rows := StepRows(b, n, h);
    forall v | 0 <= v < n {
      StepRowBounded(b, n, h, v);
    }
    FlattenBounded(rows, b + 2 * (n * h));
    ConcatBounded(Flatten(EndsBlocks(b, n, h)), Flatten(rows), b + 2 * (n * h));
  }

  /** Two runs of constraints that stay below a bound stay below it together. */
  lemma ConcatBounded(a: seq<Cons>, c: seq<Cons>, bound: nat)
    requires forall j, i :: 0 <= j < |a| && i in a[j].expr ==> i < bound
    requires forall j, i :: 0 <= j < |c| && i in c[j].expr ==> i < bound
    ensures forall j, i :: 0 <= j < |a + c| && i in (a + c)[j].expr ==> i < bound
  {
    forall j, i | 0 <= j < |a + c| && i in (a + c)[j].expr ensures i < bound {
      if j < |a| {
        assert (a + c)[j] == a[j];
      } else {
        assert (a + c)[j] == c[j - |a|];
      }
    }
  }

  lemma OrderBounded(g: Graph, h: nat, m: nat)
    requires IsGraph(g) && (h >= 2 || g.n == 0) && m <= h
    ensures forall j, i :: 0 <= j < |OrderConss(g, h, m)| && i in OrderConss(g, h, m)[j].expr ==> i < 2 * (g.n * h)
  {
    BaseBounded(0, g.n, h);
    var bs: seq<seq<Cons>> := OrderBlocks(g.n, h, g.edges, m);
    forall k, c, i: Handle | 0 <= k < |bs| && 0 <= c < |bs[k]| && i in bs[k][c].expr ensures i < 2 * (g.n * h) {
      var e := g.edges[k];
      YBelow(0, g.n, h, c, e.0);
      YBelow(0, g.n, h, c, e.1);
      KeysOfQuad(YH(0, h, c, e.0), ZH(0, g.n, h, e.0, c), YH(0, h, c, e.1), ZH(0, g.n, h, e.1, c));
    }
    FlattenBounded(bs, 2 * (g.n * h));
    ConcatBounded(BaseConss(0, g.n, h), Flatten(bs), 2 * (g.n * h));
  }

  /** The row of a position below n * h is below n. */
  lemma DivBelow(k: nat, n: nat, h: nat)
    requires h > 0 && k < n * h
    ensures k / h < n
  {
    CellSplit(k, h);
    if k / h >= n {
      MulMono(n, k / h, h);
    }
  }

  lemma LinkBounded(n: nat, h: nat)
    requires h >= 2 || n == 0
    ensures forall k, i :: 0 <= k < |LinkConss(n, h)| && i in LinkConss(n, h)[k].expr ==> i < 3 * (n * h)
  {
    var links := LinkConss(n, h);
    forall k, i | 0 <= k < |links| && i in links[k].expr ensures i < 3 * (n * h) {
      DivBelow(k, n, h);
      CellSplit(k, h);
      var v, c := k / h, k % h;
      YBelow(n * h, n, h, c, v);
      CellBelow(n, h, v, c);
      assert links[k] == LinkCons(n, h, v, c);
      KeysOfTriple(Cell(v, c, h), YH(n * h, h, c, v), ZH(n * h, n, h, v, c), 1.0, 1.0, 1.0);
    }
  }

  lemma ClashBounded(g: Graph, h: nat)
    requires IsGraph(g)
    ensures forall j, i :: 0 <= j < |Flatten(ClashBlocks(h, g.edges))| && i in Flatten(ClashBlocks(h, g.edges))[j].expr ==> i < g.n * h
  {
    var bs: seq<seq<Cons>> := ClashBlocks(h, g.edges);
    forall k, c, i: Handle | 0 <= k < |bs| && 0 <= c < |bs[k]| && i in bs[k][c].expr ensures i < g.n * h {
      var e := g.edges[k];
      CellBelow(g.n, h, e.0, c);
      CellBelow(g.n, h, e.1, c);
      KeysOfPair(Cell(e.0, c, h), Cell(e.1, c, h), 1.0, 1.0);
    }
    FlattenBounded(bs, g.n * h);
  }

  /** Every handle of POP2 is one of its 3 * n * h variables. */
  lemma HybridBounded(g: Graph, h: nat)
    requires IsGraph(g) && (h >= 2 || g.n == 0)
    ensures forall j, i :: 0 <= j < |HybridConss(g, h)| && i in HybridConss(g, h)[j].expr ==> i < 3 * (g.n * h)
  {
    var n := g.n;
    BaseBounded(n * h, n, h);
    LinkBounded(n, h);
    ClashBounded(g, h);
    ConcatBounded(BaseConss(n * h, n, h), LinkConss(n, h), 3 * (n * h));
    ConcatBounded(BaseConss(n * h, n, h) + LinkConss(n, h), Flatten(ClashBlocks(h, g.edges)), 3 * (n * h));
  }

  // ---------------------------------------------------------------- building

  /** The variables of _partial_ordering_base_model: the y dictionary, then the z dictionary. */
  method AddBaseVars(m0: Model, n: nat, h: nat) returns (model: Model)
    ensures model == m0.(vars := m0.vars + YVars(n, h) + ZVars(n, h))
  {
    model := AddVars(m0, YVars(n, h));
    model := AddVars(model, ZVars(n, h));
  }

  /** _partial_ordering_base_model(graph, colors, model) on the relabelled graph. */
  method AddBase(m0: Model, b: nat, n: nat, h: nat) returns (model: Model)
    ensures model == m0.(vars := m0.vars + YVars(n, h) + ZVars(n, h), conss := m0.conss + BaseConss(b, n, h), sense := Minimize)
  {
    model := AddBaseVars(m0, n, h);
    ghost var ends, steps := Flatten(EndsBlocks(b, n, h)), Flatten(StepRows(b, n, h));
    model := AddBlocks(model, EndsBlocks(b, n, h));
    model := AddBlocks(model, StepRows(b, n, h));
    assert model.conss == m0.conss + ends + steps;
    model := model.SetSense(Minimize);
  }

  /** AddBase started from a model with no constraints yet. */
  method BaseModel(m0: Model, b: nat, n: nat, h: nat) returns (model: Model)
    requires m0.conss == []
    ensures model == m0.(vars := m0.vars + YVars(n, h) + ZVars(n, h), conss := BaseConss(b, n, h), sense := Minimize)
  {
    EmptyConcat(BaseConss(b, n, h));
    model := AddBase(m0, b, n, h);
  }

  /** The sizes of a partial ordering model and that it mentions only its own variables. */
  lemma OrderWellFormed(model: Model, g: Graph, h: nat, m: nat)
    requires IsGraph(g) && m <= h && (h >= 2 || g.n == 0)
    requires model.removed == {} && model.vars == YVars(g.n, h) + ZVars(g.n, h) && model.conss == OrderConss(g, h, m)
    ensures model.NumVars() == 2 * (g.n * h) && model.NumConss() == 2 * g.n + 3 * Top(h) * g.n + m * |g.edges|
    ensures model.WellFormed()
  {
    OrderCount(g, h, m);
    OrderBounded(g, h, m);
  }

  /** The POP model of g with (20) over the first m colours. */
  method OrderModel(g: Graph, h: nat, m: nat, name: string) returns (model: Model)
    ensures model == Model(name, YVars(g.n, h) + ZVars(g.n, h), {}, OrderConss(g, h, m), Minimize)
  {
    EmptyConcat(YVars(g.n, h));
    model := BaseModel(NewModel(name), 0, g.n, h);
    model := AddBlocks(model, OrderBlocks(g.n, h, g.edges, m));
  }

  method PartialOrdering(lg: Labelled<int>, h: nat, name: string) returns (model: Model)
    requires IsLabelled(lg) && (h >= 2 || |lg.nodes| == 0)
    ensures IsPartialOrderingModel(model, lg, h, name) && model.WellFormed()
    ensures model.NumVars() == 2 * (|lg.nodes| * h)
    ensures model.NumConss() == 2 * |lg.nodes| + 3 * Top(h) * |lg.nodes| + Top(h) * |lg.edges|
  {
    var g := Relabel(lg);
    model := OrderModel(g, h, Top(h), name);
    RelabelIsGraph(lg);
    OrderWellFormed(model, g, h, Top(h));
  }

  /** The corrected POP: partial_ordering with (20) for every colour. */
  method OrderedPartialOrdering(lg: Labelled<int>, h: nat, name: string) returns (model: Model)
    requires IsLabelled(lg) && (h >= 2 || |lg.nodes| == 0)
    ensures IsOrderedModel(model, lg, h, name) && model.WellFormed()
    ensures model.NumVars() == 2 * (|lg.nodes| * h)
    ensures model.NumConss() == 2 * |lg.nodes| + 3 * Top(h) * |lg.nodes| + h * |lg.edges|
  {
    var g := Relabel(lg);
    model := OrderModel(g, h, h, name);
    RelabelIsGraph(lg);
    OrderWellFormed(model, g, h, h);
  }

  lemma HybridWellFormed(model: Model, g: Graph, h: nat)
    requires IsGraph(g) && (h >= 2 || g.n == 0)
    requires model.removed == {} && model.vars == ColoringAssignment.XVars(g.n, h) + YVars(g.n, h) + ZVars(g.n, h)
    requires model.conss == HybridConss(g, h)
    ensures model.NumVars() == 3 * (g.n * h) && model.NumConss() == 2 * g.n + 3 * Top(h) * g.n + g.n * h + h * |g.edges|
    ensures model.WellFormed()
  {
    HybridCount(g, h);
    HybridBounded(g, h);
  }

  /** The POP2 model of g. */
  method HybridModel(g: Graph, h: nat, name: string) returns (model: Model)
    ensures model == Model(name, ColoringAssignment.XVars(g.n, h) + YVars(g.n, h) + ZVars(g.n, h), {}, HybridConss(g, h), Minimize)
  {
    EmptyConcat(ColoringAssignment.XVars(g.n, h));
    model := AddVars(NewModel(name), ColoringAssignment.XVars(g.n, h));
    model := BaseModel(model, g.n * h, g.n, h);
    model := AddConss(model, LinkConss(g.n, h));
    model := AddBlocks(model, ClashBlocks(h, g.edges));
  }

  method HybridPartialOrdering(lg: Labelled<int>, h: nat, name: string) returns (model: Model)
    requires IsLabelled(lg) && (h >= 2 || |lg.nodes| == 0)
    ensures IsHybridModel(model, lg, h, name) && model.WellFormed()
    ensures model.NumVars() == 3 * (|lg.nodes| * h)
    ensures model.NumConss() == 2 * |lg.nodes| + 3 * Top(h) * |lg.nodes| + |lg.nodes| * h + h * |lg.edges|
  {
    var g := Relabel(lg);
    model := HybridModel(g, h, name);
    RelabelIsGraph(lg);
    HybridWellFormed(model, g, h);
  }
}
