/**
 * geco/mips/max_cut/generic.py, triangle: the pair formulation of weighted
 * maximum cut.
 *
 * Every unordered pair of nodes, in combinations(graph.nodes(), 2) order,
 * gets the binary variable undirected_edge_name(u, v), whose objective is
 * the weight of edge {u, v} or 0 when there is none. For every triple
 * i < j < k of node positions, in combinations(graph.nodes(), 3) order, the
 * model adds x_ij <= x_ik + x_kj and x_ij + x_ik + x_kj <= 2, and it
 * maximises.
 *
 * A 0/1 assignment of the pair variables is a cut exactly when every
 * triangle carries an even number of ones. The two constraints per triple
 * leave two of the three triangle inequalities out, so the model also
 * accepts assignments that are no cut; with a negative weight it can then
 * beat the maximum cut (AsWrittenK3Exceeds). The corrected formulation adds
 * x_ik <= x_ij + x_kj and x_kj <= x_ij + x_ik and solves maximum cut
 * exactly (CorrectedOptimumIsMaxCut).
 */
module MaxCutTriangle {
  import opened Common
  import opened Mip
  import opened Graphs
  import opened Combinations
  import Naming
  import MaxCut

  // ---------------------------------------------------------------- pair variables

  /** _get_edge_variable: the handle of the variable of the pair of positions a and b, in either order. */
  function H(n: nat, a: nat, b: nat): (h: nat)
    requires a < n && b < n && a != b
    ensures h < |Pairs(n)| && Pairs(n)[h] == (Min(a, b), Max(a, b))
  {
    if a < b then PairIndexCorrect(n, a, b); PairIndex(n, a, b)
    else PairIndexCorrect(n, b, a); PairIndex(n, b, a)
  }

  /** graph.get_edge_data(a, b)["weight"], looking among edges k, k+1, ...; 0 when none joins a and b. */
  function PairWeightFrom(g: Graph, w: seq<real>, a: nat, b: nat, k: nat): real
    decreases |g.edges| - k
  {
    if k >= |g.edges| || k >= |w| then 0.0
    else if SamePair(g.edges[k], (a, b)) then w[k]
    else PairWeightFrom(g, w, a, b, k + 1)
  }

  /** The objective coefficient of every pair, as the lookup from edge k on gives it. */
  function PairWeightsFrom(g: Graph, w: seq<real>, k: nat): (ws: seq<real>)
    ensures |ws| == |Pairs(g.n)|
    ensures forall p :: 0 <= p < |ws| ==> ws[p] == PairWeightFrom(g, w, Pairs(g.n)[p].0, Pairs(g.n)[p].1, k)
  {
    var ps := Pairs(g.n);
    seq(|ps|, p requires 0 <= p < |ps| => PairWeightFrom(g, w, ps[p].0, ps[p].1, k))
  }

  /** The edge weight of every pair, 0 for a pair that is no edge. */
  function PairWeights(g: Graph, w: seq<real>): (ws: seq<real>)
    ensures |ws| == |Pairs(g.n)|
  {
    PairWeightsFrom(g, w, 0)
  }

  /** undirected_edge_name of every pair of node labels, in combinations order. */
  function PairNames(nodes: seq<int>): (names: seq<string>)
    ensures |names| == |Pairs(|nodes|)| && forall p :: 0 <= p < |names| ==> names[p] != []
    ensures forall p :: 0 <= p < |names| ==>
              names[p] == Naming.UndirectedEdgeName(nodes[Pairs(|nodes|)[p].0], nodes[Pairs(|nodes|)[p].1])
  {
    var ps := Pairs(|nodes|);
    seq(|ps|, p requires 0 <= p < |ps| => Naming.UndirectedEdgeName(nodes[ps[p].0], nodes[ps[p].1]))
  }

  lemma {:induction false} NoMatchZero(g: Graph, w: seq<real>, a: nat, b: nat, k: nat)
    requires forall j :: k <= j < |g.edges| ==> !SamePair(g.edges[j], (a, b))
    ensures PairWeightFrom(g, w, a, b, k) == 0.0
    decreases |g.edges| - k
  {
    if k < |g.edges| && k < |w| {
      NoMatchZero(g, w, a, b, k + 1);
    }
  }

  lemma {:induction false} FirstMatch(g: Graph, w: seq<real>, a: nat, b: nat, j: nat, k: nat)
    requires j <= k < |g.edges| == |w| && SamePair(g.edges[k], (a, b))
    requires forall i :: j <= i < k ==> !SamePair(g.edges[i], (a, b))
    ensures PairWeightFrom(g, w, a, b, j) == w[k]
    decreases k - j
  {
    if j < k {
      FirstMatch(g, w, a, b, j + 1, k);
    }
  }

  /** The lookup gives the weight of the edge joining a and b, and 0 when graph.has_edge(a, b) fails. */
  lemma PairWeightMeaning(g: Graph, w: seq<real>, a: nat, b: nat)
    requires IsGraph(g) && |w| == |g.edges|
    ensures !HasEdge(g, a, b) ==> PairWeightFrom(g, w, a, b, 0) == 0.0
    ensures forall k :: 0 <= k < |g.edges| && SamePair(g.edges[k], (a, b)) ==> PairWeightFrom(g, w, a, b, 0) == w[k]
  {
    if !HasEdge(g, a, b) {
      forall j | 0 <= j < |g.edges| ensures !SamePair(g.edges[j], (a, b)) {
        assert g.edges[j] in g.edges;
      }
      NoMatchZero(g, w, a, b, 0);
    }
    forall k | 0 <= k < |g.edges| && SamePair(g.edges[k], (a, b)) ensures PairWeightFrom(g, w, a, b, 0) == w[k] {
      forall i | 0 <= i < k ensures !SamePair(g.edges[i], (a, b)) {
        assert !SamePair(g.edges[i], g.edges[k]);
      }
      FirstMatch(g, w, a, b, 0, k);
    }
  }

  /**
   * The edge-variable dictionary is keyed by undirected_edge_name: the only
   * pair variable named after nodes a and b, in either order, is the one at
   * H(n, a, b).
   */
  lemma PairNameLookup(nodes: seq<int>, a: nat, b: nat, p: nat)
    requires Distinct(nodes) && a < |nodes| && b < |nodes| && a != b && p < |Pairs(|nodes|)|
    ensures PairNames(nodes)[p] == Naming.UndirectedEdgeName(nodes[a], nodes[b]) <==> p == H(|nodes|, a, b)
  {
    var n := |nodes|;
    var q := Pairs(n)[p];
    PairIndexOf(n, p);
    Naming.EdgeNameInjective(nodes[q.0], nodes[q.1], nodes[a], nodes[b]);
    forall i, j | 0 <= i < n && 0 <= j < n && i != j ensures nodes[i] != nodes[j] {
      if i < j { assert nodes[i] != nodes[j]; } else { assert nodes[j] != nodes[i]; }
    }
  }

  // ---------------------------------------------------------------- triangle constraints

  /** x_a <= x_b + x_c */
  function Ineq(a: Handle, b: Handle, c: Handle): Cons {
    Cons(Quicksum([(a, 1.0), (b, -1.0), (c, -1.0)]), Le, 0.0)
  }

  /** x_a + x_b + x_c <= 2 */
  function AtMostTwo(a: Handle, b: Handle, c: Handle): Cons {
    Cons(Quicksum([(a, 1.0), (b, 1.0), (c, 1.0)]), Le, 2.0)
  }

  /** The constraints of the triple t = (i, j, k); the corrected formulation adds the two other triangle inequalities. */
  function TriangleBlock(n: nat, t: Triple, full: bool): seq<Cons>
    requires t.0 < t.1 < t.2 < n
  {
    var ij, ik, kj := H(n, t.0, t.1), H(n, t.0, t.2), H(n, t.2, t.1);
    [Ineq(ij, ik, kj), AtMostTwo(ij, ik, kj)] + (if full then [Ineq(ik, ij, kj), Ineq(kj, ij, ik)] else [])
  }

  function TriangleBlocks(n: nat, full: bool): (bs: seq<seq<Cons>>)
    ensures |bs| == |Triples(n)| && forall k :: 0 <= k < |bs| ==> bs[k] == TriangleBlock(n, Triples(n)[k], full)
  {
    var ts := Triples(n);
    seq(|ts|, k requires 0 <= k < |ts| => TriangleBlock(n, ts[k], full))
  }

  function TriangleConss(n: nat, full: bool): seq<Cons> {
    Flatten(TriangleBlocks(n, full))
  }

  /** The model triangle(graph) returns (full = false), or its corrected form (full = true), over the weights w of graph.edges. */
  ghost predicate IsTriangleModel(model: Model, lg: Labelled<int>, w: seq<real>, full: bool) {
    MaxCut.IsWeighted(lg, w) &&
    model.name == "Triangle MaxCut" && model.removed == {} && model.sense == Maximize &&
    model.vars == MaxCut.NamedVars(PairNames(lg.nodes), PairWeights(Relabel(lg), w)) &&
    model.conss == TriangleConss(|lg.nodes|, full)
  }

  // ---------------------------------------------------------------- building

  /** One variable per pair of nodes, weighted by the edge between them if there is one. */
  method AddPairVars(m0: Model, names: seq<string>, g: Graph, w: seq<real>) returns (model: Model)
    requires m0.vars == [] && |names| == |Pairs(g.n)| && forall p :: 0 <= p < |names| ==> names[p] != []
    ensures model == m0.(vars := MaxCut.NamedVars(names, PairWeights(g, w)))
  {
    var ps := Pairs(g.n);
    ghost var vs := MaxCut.NamedVars(names, PairWeights(g, w));
    model := m0;
    for p := 0 to |ps|
      invariant model == m0.(vars := vs[..p])
    {
      var (u, v) := ps[p];
      var weight := if HasEdge(g, u, v) then PairWeightFrom(g, w, u, v, 0) else 0.0;
      if !HasEdge(g, u, v) {
        forall j | 0 <= j < |g.edges| ensures !SamePair(g.edges[j], (u, v)) {
          assert g.edges[j] in g.edges;
        }
        NoMatchZero(g, w, u, v, 0);
      }
      model := model.AddVar(BinaryVar(names[p], weight));
      assert vs[..p + 1] == vs[..p] + [vs[p]];
    }
    assert vs[..|ps|] == vs;
  }

  /** The constraints of one triple, each pair variable found by its name. */
  method AddTriangleBlock(m0: Model, n: nat, t: Triple, full: bool) returns (model: Model)
    requires t.0 < t.1 < t.2 < n
    ensures model == m0.(conss := m0.conss + TriangleBlock(n, t, full))
  {
    var (i, j, k) := t;
    var ij, ik, kj := H(n, i, j), H(n, i, k), H(n, k, j);
    model := m0.AddCons(Ineq(ij, ik, kj));
    model := model.AddCons(AtMostTwo(ij, ik, kj));
    if full {
      model := model.AddCons(Ineq(ik, ij, kj));
      model := model.AddCons(Ineq(kj, ij, ik));
    }
  }

  /** The per-triple constraints, triple by triple. */
  method AddTriangleConss(m0: Model, n: nat, full: bool) returns (model: Model)
    ensures model == m0.(conss := m0.conss + TriangleConss(n, full))
  {
    var ts := Triples(n);
    ghost var bs := TriangleBlocks(n, full);
    model := m0;
    for k := 0 to |ts|
      invariant model == m0.(conss := m0.conss + Flatten(bs[..k]))
    {
      var next := AddTriangleBlock(model, n, ts[k], full);
      BlockAppended(m0, model, next, bs, k);
      model := next;
    }
    assert bs[..|ts|] == bs;
  }

  lemma TriangleBlockBounded(n: nat, t: Triple, full: bool)
    requires t.0 < t.1 < t.2 < n
    ensures forall j, h :: 0 <= j < |TriangleBlock(n, t, full)| && h in TriangleBlock(n, t, full)[j].expr ==> h < |Pairs(n)|
  {
    var ij, ik, kj := H(n, t.0, t.1), H(n, t.0, t.2), H(n, t.2, t.1);
    KeysOfTriple(ij, ik, kj, 1.0, -1.0, -1.0);
    KeysOfTriple(ij, ik, kj, 1.0, 1.0, 1.0);
    KeysOfTriple(ik, ij, kj, 1.0, -1.0, -1.0);
    KeysOfTriple(kj, ij, ik, 1.0, -1.0, -1.0);
  }

  /** The triangle constraints mention only pair variables. */
  lemma TriangleWellFormed(model: Model, n: nat, full: bool)
    requires model.removed == {} && |model.vars| == |Pairs(n)| && model.conss == TriangleConss(n, full)
    ensures model.WellFormed()
  {
    var bs: seq<seq<Cons>> := TriangleBlocks(n, full);
    var P := |Pairs(n)|;
    forall k: nat, j: nat, h: Handle | 0 <= k < |bs| && 0 <= j < |bs[k]| && h in bs[k][j].expr ensures h < P {
      TriangleBlockBounded(n, Triples(n)[k], full);
    }
    FlattenBounded(bs, P);
  }

  method Build(lg: Labelled<int>, w: seq<real>, full: bool) returns (model: Model)
    requires MaxCut.IsWeighted(lg, w)
    ensures IsTriangleModel(model, lg, w, full) && model.WellFormed()
  {
    var g := Relabel(lg);
    model := AddPairVars(NewModel("Triangle MaxCut"), PairNames(lg.nodes), g, w);
    model := model.SetSense(Maximize);
    model := AddTriangleConss(model, |lg.nodes|, full);
    TriangleWellFormed(model, |lg.nodes|, full);
  }

  /** triangle(graph), as written. */
  method Triangle(lg: Labelled<int>, w: seq<real>) returns (model: Model)
    requires MaxCut.IsWeighted(lg, w)
    ensures IsTriangleModel(model, lg, w, false) && model.WellFormed()
  {
    model := Build(lg, w, false);
  }

  /** triangle(graph) with all three triangle inequalities per triple. */
  method TriangleCorrected(lg: Labelled<int>, w: seq<real>) returns (model: Model)
    requires MaxCut.IsWeighted(lg, w)
    ensures IsTriangleModel(model, lg, w, true) && model.WellFormed()
  {
    model := Build(lg, w, true);
  }

  /** C(n, 2) variables; 2 constraints per triple as written, 4 when corrected. */
  lemma TriangleCounts(model: Model, lg: Labelled<int>, w: seq<real>, full: bool)
    requires IsTriangleModel(model, lg, w, full)
    ensures 2 * model.NumVars() == |lg.nodes| * (|lg.nodes| - 1)
    ensures model.NumConss() == (if full then 4 else 2) * |Triples(|lg.nodes|)|
    ensures 6 * |Triples(|lg.nodes|)| == |lg.nodes| * (|lg.nodes| - 1) * (|lg.nodes| - 2)
  {
    var n := |lg.nodes|;
    PairsCount(n);
    TriplesCount(n);
    FlattenSize(TriangleBlocks(n, full), if full then 4 else 2);
  }

  // ---------------------------------------------------------------- meaning

  /** The constraints of triple t hold for the pair values x. */
  predicate Holds(n: nat, x: seq<int>, t: Triple, full: bool)
    requires t.0 < t.1 < t.2 < n && |x| == |Pairs(n)|
  {
    var ij, ik, kj := x[H(n, t.0, t.1)], x[H(n, t.0, t.2)], x[H(n, t.2, t.1)];
    ij <= ik + kj && ij + ik + kj <= 2 && (full ==> ik <= ij + kj && kj <= ij + ik)
  }

  ghost predicate AllTrianglesHold(n: nat, x: seq<int>, full: bool) {
    |x| == |Pairs(n)| && forall k :: 0 <= k < |Triples(n)| ==> Holds(n, x, Triples(n)[k], full)
  }

  lemma IneqMeaning(a: Handle, b: Handle, c: Handle, x: seq<int>)
    requires a < |x| && b < |x| && c < |x|
    ensures Satisfies(Ineq(a, b, c), x) <==> x[a] <= x[b] + x[c]
  {
    EvalTriple(a, b, c, 1.0, -1.0, -1.0, x);
  }

  lemma AtMostTwoMeaning(a: Handle, b: Handle, c: Handle, x: seq<int>)
    requires a < |x| && b < |x| && c < |x|
    ensures Satisfies(AtMostTwo(a, b, c), x) <==> x[a] + x[b] + x[c] <= 2
  {
    EvalTriple(a, b, c, 1.0, 1.0, 1.0, x);
  }

  lemma SatisfiesTwo(c0: Cons, c1: Cons, x: seq<int>)
    ensures SatisfiesAll([c0, c1], x) <==> Satisfies(c0, x) && Satisfies(c1, x)
  {
    assert [c0, c1][0] == c0 && [c0, c1][1] == c1;
  }

  /** Meeting the constraints of a triple is meeting the inequalities they stand for. */
  lemma TriangleBlockMeaning(n: nat, t: Triple, full: bool, x: seq<int>)
    requires t.0 < t.1 < t.2 < n && |x| == |Pairs(n)|
    ensures SatisfiesAll(TriangleBlock(n, t, full), x) <==> Holds(n, x, t, full)
  {
    var ij, ik, kj := H(n, t.0, t.1), H(n, t.0, t.2), H(n, t.2, t.1);
    IneqMeaning(ij, ik, kj, x);
    AtMostTwoMeaning(ij, ik, kj, x);
    IneqMeaning(ik, ij, kj, x);
    IneqMeaning(kj, ij, ik, x);
    SatisfiesTwo(Ineq(ij, ik, kj), AtMostTwo(ij, ik, kj), x);
    SatisfiesTwo(Ineq(ik, ij, kj), Ineq(kj, ij, ik), x);
    SatisfiesAllAppend([Ineq(ij, ik, kj), AtMostTwo(ij, ik, kj)],
                       if full then [Ineq(ik, ij, kj), Ineq(kj, ij, ik)] else [], x);
  }

  lemma TriangleConssMeaning(n: nat, full: bool, x: seq<int>)
    requires |x| == |Pairs(n)|
    ensures SatisfiesAll(TriangleConss(n, full), x) <==> AllTrianglesHold(n, x, full)
  {
    var bs := TriangleBlocks(n, full);
    SatisfiesFlatten(bs, x);
    forall k | 0 <= k < |bs| ensures SatisfiesAll(bs[k], x) <==> Holds(n, x, Triples(n)[k], full) {
      TriangleBlockMeaning(n, Triples(n)[k], full, x);
    }
  }

  /** The feasible assignments: 0/1 pair values meeting every triple's inequalities. */
  lemma TriangleFeasibleIff(model: Model, lg: Labelled<int>, w: seq<real>, full: bool, x: seq<int>)
    requires IsTriangleModel(model, lg, w, full)
    ensures Feasible(model, x) <==> |x| == |Pairs(|lg.nodes|)| && Binary01(x) && AllTrianglesHold(|lg.nodes|, x, full)
  {
    ModelShape(model, lg, w, full);
    ShapeFeasibleIff(model, |lg.nodes|, PairWeights(Relabel(lg), w), full, x);
  }

  /** A triangle model seen without its names: binary variables with objective ws, the triple constraints, maximising. */
  ghost predicate TriangleShape(model: Model, n: nat, ws: seq<real>, full: bool) {
    PairObjs(model, ws) && model.sense == Maximize && |ws| == |Pairs(n)| && model.conss == TriangleConss(n, full)
  }

  /** Binary variables with objective ws, none deleted. */
  ghost predicate PairObjs(model: Model, ws: seq<real>) {
    model.removed == {} && |model.vars| == |ws| &&
    forall h :: 0 <= h < |ws| ==> model.vars[h] == BinaryVar(model.vars[h].name, ws[h])
  }

  lemma ModelShape(model: Model, lg: Labelled<int>, w: seq<real>, full: bool)
    requires IsTriangleModel(model, lg, w, full)
    ensures TriangleShape(model, |lg.nodes|, PairWeights(Relabel(lg), w), full)
  {
  }

  lemma ShapeFeasibleIff(model: Model, n: nat, ws: seq<real>, full: bool, x: seq<int>)
    requires TriangleShape(model, n, ws, full)
    ensures Feasible(model, x) <==> |x| == |Pairs(n)| && Binary01(x) && AllTrianglesHold(n, x, full)
  {
    if |x| == |model.vars| {
      forall h | 0 <= h < |x| ensures InBounds(model.vars[h], x[h]) <==> (x[h] == 0 || x[h] == 1) {
        BinaryBounds(model.vars[h].name, ws[h], x[h]);
      }
      TriangleConssMeaning(n, full, x);
      assert SatisfiesAll(model.conss, x) <==> forall k :: 0 <= k < |model.conss| ==> Satisfies(model.conss[k], x);
    }
  }

  // ---------------------------------------------------------------- cuts

  /** The pair values of the cut s: one exactly on the pairs whose ends lie on different sides. */
  function CutVector(n: nat, s: seq<int>): (x: seq<int>)
    requires |s| == n
    ensures |x| == |Pairs(n)|
    ensures forall p :: 0 <= p < |x| ==> x[p] == if s[Pairs(n)[p].0] != s[Pairs(n)[p].1] then 1 else 0
  {
    var ps := Pairs(n);
    seq(|ps|, p requires 0 <= p < |ps| => if s[ps[p].0] != s[ps[p].1] then 1 else 0)
  }

  /** The sides pair values describe: node 0 on side 0, node i on side x_0i. */
  function SidesOf(n: nat, x: seq<int>): (s: seq<int>)
    requires |x| == |Pairs(n)|
    ensures |s| == n
  {
    seq(n, i requires 0 <= i < n => if i == 0 then 0 else x[H(n, 0, i)])
  }

  lemma CutVectorAt(n: nat, s: seq<int>, a: nat, b: nat)
    requires |s| == n && a < n && b < n && a != b
    ensures CutVector(n, s)[H(n, a, b)] == if s[a] != s[b] then 1 else 0
  {
  }

  /** Every cut meets every triple's constraints, corrected or not. */
  lemma CutVectorHolds(n: nat, s: seq<int>, full: bool)
    requires MaxCut.IsSides(s, n)
    ensures Binary01(CutVector(n, s)) && AllTrianglesHold(n, CutVector(n, s), full)
  {
    var x := CutVector(n, s);
    forall k | 0 <= k < |Triples(n)| ensures Holds(n, x, Triples(n)[k], full) {
      var t := Triples(n)[k];
      CutVectorAt(n, s, t.0, t.1);
      CutVectorAt(n, s, t.0, t.2);
      CutVectorAt(n, s, t.2, t.1);
      assert s[t.0] == 0 || s[t.0] == 1;
      assert s[t.1] == 0 || s[t.1] == 1;
      assert s[t.2] == 0 || s[t.2] == 1;
    }
  }

  /** With all three triangle inequalities, 0/1 pair values meeting every triple's constraints are the cut of their own sides. */
  lemma FullHoldsIsCut(n: nat, x: seq<int>)
    requires Binary01(x) && AllTrianglesHold(n, x, true)
    ensures MaxCut.IsSides(SidesOf(n, x), n) && x == CutVector(n, SidesOf(n, x))
  {
    var s := SidesOf(n, x);
    var cv := CutVector(n, s);
    forall i | 0 <= i < n ensures s[i] == 0 || s[i] == 1 {
      if i > 0 { assert x[H(n, 0, i)] == 0 || x[H(n, 0, i)] == 1; }
    }
    forall p | 0 <= p < |x| ensures x[p] == cv[p] {
      var q := Pairs(n)[p];
      PairIndexOf(n, p);
      assert H(n, q.0, q.1) == p;
      if q.0 == 0 {
        assert s[q.1] == x[p];
      } else {
        var t: Triple := (0, q.0, q.1);
        TriplesMembers(n, t);
        var k :| 0 <= k < |Triples(n)| && Triples(n)[k] == t;
        assert Holds(n, x, t, true);
        assert H(n, q.1, q.0) == p;
        assert x[H(n, 0, q.0)] == 0 || x[H(n, 0, q.0)] == 1;
        assert x[H(n, 0, q.1)] == 0 || x[H(n, 0, q.1)] == 1;
        assert s[q.0] == x[H(n, 0, q.0)] && s[q.1] == x[H(n, 0, q.1)];
      }
    }
  }

  // ---------------------------------------------------------------- objective

  /** Σ ws[p] * x[p] over pairs p >= k. */
  function PairTerms(ws: seq<real>, x: seq<int>, k: nat): real
    decreases |ws| - k
  {
    if k >= |ws| || k >= |x| then 0.0 else ws[k] * (x[k] as real) + PairTerms(ws, x, k + 1)
  }

  lemma {:induction false} ObjectiveIsPairTerms(model: Model, ws: seq<real>, x: seq<int>, k: nat)
    requires PairObjs(model, ws) && |x| == |ws|
    ensures ObjectiveFrom(model, x, k) == PairTerms(ws, x, k)
    decreases |ws| - k
  {
    if k < |ws| {
      ObjectiveIsPairTerms(model, ws, x, k + 1);
      assert model.vars[k].obj == ws[k];
    }
  }

  lemma {:induction false} ZeroTerms(ws: seq<real>, x: seq<int>, k: nat)
    requires forall p :: 0 <= p < |ws| ==> ws[p] == 0.0
    ensures PairTerms(ws, x, k) == 0.0
    decreases |ws| - k
  {
    if k < |ws| && k < |x| {
      ZeroTerms(ws, x, k + 1);
    }
  }

  /** Changing one coefficient changes the sum by the change times its value. */
  lemma {:induction false} TermsUpdate(ws: seq<real>, x: seq<int>, h: nat, c: real, k: nat)
    requires h < |ws| == |x|
    ensures PairTerms(ws[h := c], x, k) == PairTerms(ws, x, k) + (if k <= h then (c - ws[h]) * (x[h] as real) else 0.0)
    decreases |ws| - k
  {
    if k < |ws| {
      TermsUpdate(ws, x, h, c, k + 1);
    }
  }

  /** Edge k of the graph contributes its weight at its own pair and nothing elsewhere. */
  lemma WeightsStep(g: Graph, w: seq<real>, k: nat)
    requires IsGraph(g) && |w| == |g.edges| && k < |g.edges| && g.edges[k].0 != g.edges[k].1
    ensures var h := H(g.n, g.edges[k].0, g.edges[k].1);
            PairWeightsFrom(g, w, k + 1)[h] == 0.0 &&
            PairWeightsFrom(g, w, k) == PairWeightsFrom(g, w, k + 1)[h := w[k]]
  {
    var e := g.edges[k];
    var h := H(g.n, e.0, e.1);
    var ps := Pairs(g.n);
    forall j | k + 1 <= j < |g.edges| ensures !SamePair(g.edges[j], ps[h]) {
      assert !SamePair(e, g.edges[j]);
    }
    NoMatchZero(g, w, ps[h].0, ps[h].1, k + 1);
    var now, later := PairWeightsFrom(g, w, k), PairWeightsFrom(g, w, k + 1);
    forall p | 0 <= p < |ps| ensures now[p] == later[h := w[k]][p] {
      if p != h {
        PairIndexOf(g.n, p);
        PairIndexOf(g.n, h);
        assert ps[p] != ps[h];
      }
    }
  }

  lemma SelfLoopStep(g: Graph, w: seq<real>, k: nat)
    requires k < |g.edges| && g.edges[k].0 == g.edges[k].1
    ensures PairWeightsFrom(g, w, k) == PairWeightsFrom(g, w, k + 1)
  {
    forall p | 0 <= p < |Pairs(g.n)| ensures !SamePair(g.edges[k], Pairs(g.n)[p]) {}
  }

  /** The pair terms of a cut, counting edges k, k+1, ..., are the weight those edges put across it. */
  lemma {:induction false} CutTermsFromEdge(g: Graph, w: seq<real>, s: seq<int>, k: nat)
    requires IsGraph(g) && |w| == |g.edges| && |s| == g.n
    ensures PairTerms(PairWeightsFrom(g, w, k), CutVector(g.n, s), 0) == MaxCut.CutWeightFrom(g, w, s, k)
    decreases |g.edges| - k
  {
    var x := CutVector(g.n, s);
    if k >= |g.edges| {
      ZeroTerms(PairWeightsFrom(g, w, k), x, 0);
    } else {
      CutTermsFromEdge(g, w, s, k + 1);
      var e := g.edges[k];
      if e.0 == e.1 {
        SelfLoopStep(g, w, k);
      } else {
        WeightsStep(g, w, k);
        var h := H(g.n, e.0, e.1);
        TermsUpdate(PairWeightsFrom(g, w, k + 1), x, h, w[k], 0);
        CutVectorAt(g.n, s, e.0, e.1);
      }
    }
  }

  /** The objective is the weight of the pairs whose variable is one. */
  lemma TriangleObjective(model: Model, lg: Labelled<int>, w: seq<real>, full: bool, x: seq<int>)
    requires IsTriangleModel(model, lg, w, full) && |x| == |Pairs(|lg.nodes|)|
    ensures Objective(model, x) == PairTerms(PairWeights(Relabel(lg), w), x, 0)
  {
    ModelShape(model, lg, w, full);
    ObjectiveIsPairTerms(model, PairWeights(Relabel(lg), w), x, 0);
  }

  /** The objective of a cut's pair values is the cut's weight. */
  lemma CutObjective(model: Model, lg: Labelled<int>, w: seq<real>, full: bool, s: seq<int>)
    requires IsTriangleModel(model, lg, w, full) && |s| == |lg.nodes|
    ensures Objective(model, CutVector(|lg.nodes|, s)) == MaxCut.CutWeight(Relabel(lg), w, s)
  {
    RelabelIsGraph(lg);
    TriangleObjective(model, lg, w, full, CutVector(|lg.nodes|, s));
    CutTermsFromEdge(Relabel(lg), w, s, 0);
  }

  /** Every cut is attained, corrected or not: its pair values are feasible and worth the cut's weight. */
  lemma TriangleCutAttained(model: Model, lg: Labelled<int>, w: seq<real>, full: bool, s: seq<int>)
    requires IsTriangleModel(model, lg, w, full) && MaxCut.IsSides(s, |lg.nodes|)
    ensures Feasible(model, CutVector(|lg.nodes|, s))
    ensures Objective(model, CutVector(|lg.nodes|, s)) == MaxCut.CutWeight(Relabel(lg), w, s)
  {
    CutVectorHolds(|lg.nodes|, s, full);
    TriangleFeasibleIff(model, lg, w, full, CutVector(|lg.nodes|, s));
    CutObjective(model, lg, w, full, s);
  }

  /** As written the optimum is never below the maximum cut. */
  lemma AsWrittenAtLeastMaxCut(model: Model, lg: Labelled<int>, w: seq<real>, v: real, u: real)
    requires IsTriangleModel(model, lg, w, false) && IsOptimum(model, v) && MaxCut.IsMaxCut(Relabel(lg), w, u)
    ensures u <= v
  {
    var s :| MaxCut.IsSides(s, Relabel(lg).n) && MaxCut.CutWeight(Relabel(lg), w, s) == u;
    TriangleCutAttained(model, lg, w, false, s);
  }

  /** The corrected model accepts only cuts, and is worth the weight of the cut it describes. */
  lemma CorrectedFeasibleIsCut(model: Model, lg: Labelled<int>, w: seq<real>, x: seq<int>)
    requires IsTriangleModel(model, lg, w, true) && Feasible(model, x)
    ensures MaxCut.IsSides(SidesOf(|lg.nodes|, x), |lg.nodes|) && x == CutVector(|lg.nodes|, SidesOf(|lg.nodes|, x))
    ensures Objective(model, x) == MaxCut.CutWeight(Relabel(lg), w, SidesOf(|lg.nodes|, x))
  {
    TriangleFeasibleIff(model, lg, w, true, x);
    FullHoldsIsCut(|lg.nodes|, x);
    CutObjective(model, lg, w, true, SidesOf(|lg.nodes|, x));
  }

  lemma OptimumIsMaxCut(model: Model, lg: Labelled<int>, w: seq<real>, v: real)
    requires IsTriangleModel(model, lg, w, true) && IsOptimum(model, v)
    ensures MaxCut.IsMaxCut(Relabel(lg), w, v)
  {
    var g := Relabel(lg);
    var x :| Feasible(model, x) && Objective(model, x) == v;
    CorrectedFeasibleIsCut(model, lg, w, x);
    forall t | MaxCut.IsSides(t, g.n) ensures MaxCut.CutWeight(g, w, t) <= v {
      TriangleCutAttained(model, lg, w, true, t);
    }
  }

  lemma MaxCutIsOptimum(model: Model, lg: Labelled<int>, w: seq<real>, v: real)
    requires IsTriangleModel(model, lg, w, true) && MaxCut.IsMaxCut(Relabel(lg), w, v)
    ensures IsOptimum(model, v)
  {
    var g := Relabel(lg);
    var s :| MaxCut.IsSides(s, g.n) && MaxCut.CutWeight(g, w, s) == v;
    TriangleCutAttained(model, lg, w, true, s);
    forall x | Feasible(model, x) ensures Better(model, v, Objective(model, x)) {
      CorrectedFeasibleIsCut(model, lg, w, x);
    }
  }

  /** The corrected triangle model solves maximum cut: its optimum is exactly the largest cut weight, for any weights. */
  lemma CorrectedOptimumIsMaxCut(model: Model, lg: Labelled<int>, w: seq<real>, v: real)
    requires IsTriangleModel(model, lg, w, true)
    ensures IsOptimum(model, v) <==> MaxCut.IsMaxCut(Relabel(lg), w, v)
  {
    if IsOptimum(model, v) {
      OptimumIsMaxCut(model, lg, w, v);
    }
    if MaxCut.IsMaxCut(Relabel(lg), w, v) {
      MaxCutIsOptimum(model, lg, w, v);
    }
  }

  // ---------------------------------------------------------------- the triangle K3

  lemma K3Shape()
    ensures Pairs(3) == [(0, 1), (0, 2), (1, 2)] && Triples(3) == [(0, 1, 2)]
    ensures H(3, 0, 1) == 0 && H(3, 0, 2) == 1 && H(3, 2, 1) == 2
  {
    assert PairsFrom(3, 3) == [] && PairsFrom(2, 3) == [];
    assert PairsFrom(1, 3) == [(1, 2)];
    assert Row(0, 3) == [(0, 1), (0, 2)];
    assert TriplesFrom(3, 3) == [] && TriplesFrom(2, 3) == [] && TriplesFrom(1, 3) == [];
    assert Lift(0, PairsFrom(1, 3)) == [(0, 1, 2)];
  }

  /** On K3 the pair variables are the edge variables, in edge order. */
  lemma K3Weights(w: seq<real>)
    requires |w| == 3
    ensures IsLabelled(MaxCut.K3()) && PairWeights(Relabel(MaxCut.K3()), w) == w
  {
    MaxCut.K3Relabel();
    K3Shape();
    var g := Relabel(MaxCut.K3());
    RelabelIsGraph(MaxCut.K3());
    var ws := PairWeights(g, w);
    forall p | 0 <= p < 3 ensures ws[p] == w[p] {
      PairWeightMeaning(g, w, Pairs(3)[p].0, Pairs(3)[p].1);
    }
  }

  lemma ThreeTerms(ws: seq<real>, x: seq<int>)
    requires |ws| == 3 && |x| == 3
    ensures PairTerms(ws, x, 0) == ws[0] * (x[0] as real) + ws[1] * (x[1] as real) + ws[2] * (x[2] as real)
  {
    assert PairTerms(ws, x, 3) == 0.0;
    assert PairTerms(ws, x, 2) == ws[2] * (x[2] as real);
    assert PairTerms(ws, x, 1) == ws[1] * (x[1] as real) + PairTerms(ws, x, 2);
  }

  /** A triangle model of K3 has the edge weights as its objective. */
  lemma K3Model(model: Model, w: seq<real>, full: bool)
    requires IsTriangleModel(model, MaxCut.K3(), w, full)
    ensures TriangleShape(model, 3, w, full)
  {
    K3Weights(w);
    ModelShape(model, MaxCut.K3(), w, full);
  }

  lemma K3Objective(model: Model, w: seq<real>, full: bool, x: seq<int>)
    requires TriangleShape(model, 3, w, full) && |x| == 3
    ensures Objective(model, x) == w[0] * (x[0] as real) + w[1] * (x[1] as real) + w[2] * (x[2] as real)
  {
    K3Shape();
    ObjectiveIsPairTerms(model, w, x, 0);
    ThreeTerms(w, x);
  }

  /** The 0/1 pair values K3 accepts as written: none with x_01 = 1 unless another pair is one, and not all three. */
  lemma K3Holds(x: seq<int>, full: bool)
    requires |x| == 3
    ensures AllTrianglesHold(3, x, full) <==>
            x[0] <= x[1] + x[2] && x[0] + x[1] + x[2] <= 2 && (full ==> x[1] <= x[0] + x[2] && x[2] <= x[0] + x[1])
  {
    K3Shape();
    var t: Triple := (0, 1, 2);
    assert Triples(3)[0] == t;
    if Holds(3, x, t, full) {
      forall k | 0 <= k < |Triples(3)| ensures Holds(3, x, Triples(3)[k], full) {}
    }
    assert AllTrianglesHold(3, x, full) ==> Holds(3, x, Triples(3)[0], full);
  }

  lemma K3Feasible(model: Model, w: seq<real>, full: bool, x: seq<int>)
    requires TriangleShape(model, 3, w, full)
    ensures Feasible(model, x) <==>
              (|x| == 3 && Binary01(x) && x[0] <= x[1] + x[2] && x[0] + x[1] + x[2] <= 2 &&
               (full ==> x[1] <= x[0] + x[2] && x[2] <= x[0] + x[1]))
  {
    K3Shape();
    ShapeFeasibleIff(model, 3, w, full, x);
    if |x| == 3 {
      K3Holds(x, full);
    }
  }

  /** triangle on K3 with weight 1: 3 variables, 2 constraints, optimum 2. */
  lemma TriangleK3Unit(model: Model)
    requires IsTriangleModel(model, MaxCut.K3(), [1.0, 1.0, 1.0], false)
    ensures model.NumVars() == 3 && model.NumConss() == 2 && IsOptimum(model, 2.0)
  {
    var w := [1.0, 1.0, 1.0];
    K3Shape();
    TriangleCounts(model, MaxCut.K3(), w, false);
    K3Model(model, w, false);
    K3UnitOptimum(model);
  }

  lemma K3UnitOptimum(model: Model)
    requires TriangleShape(model, 3, [1.0, 1.0, 1.0], false)
    ensures IsOptimum(model, 2.0)
  {
    var w := [1.0, 1.0, 1.0];
    var best := [0, 1, 1];
    assert Binary01(best) by {
      forall h | 0 <= h < 3 ensures best[h] == 0 || best[h] == 1 {}
    }
    K3Feasible(model, w, false, best);
    K3Objective(model, w, false, best);
    forall x | Feasible(model, x) ensures Objective(model, x) <= 2.0 {
      K3UnitBound(model, x);
    }
  }

  lemma K3UnitBound(model: Model, x: seq<int>)
    requires TriangleShape(model, 3, [1.0, 1.0, 1.0], false) && Feasible(model, x)
    ensures Objective(model, x) <= 2.0
  {
    var w := [1.0, 1.0, 1.0];
    K3Feasible(model, w, false, x);
    K3Objective(model, w, false, x);
    assert w[0] * (x[0] as real) + w[1] * (x[1] as real) + w[2] * (x[2] as real) == (x[0] + x[1] + x[2]) as real;
  }

  /**
   * As written, triangle on K3 with weights -1, 1, -1 (for edges 01, 02, 12)
   * accepts x_02 = 1 alone, which is no cut, and is worth 1 although no cut
   * weighs more than 0; the corrected model's optimum is 0.
   */
  lemma AsWrittenK3Exceeds(model: Model)
    requires IsTriangleModel(model, MaxCut.K3(), [-1.0, 1.0, -1.0], false)
    ensures MaxCut.IsMaxCut(Relabel(MaxCut.K3()), [-1.0, 1.0, -1.0], 0.0)
    ensures Feasible(model, [0, 1, 0]) && Objective(model, [0, 1, 0]) == 1.0
    ensures !IsOptimum(model, 0.0)
  {
    K3MaxCut();
    K3Model(model, [-1.0, 1.0, -1.0], false);
    K3NoCut(model);
    assert !Better(model, 0.0, Objective(model, [0, 1, 0]));
  }

  lemma K3NoCut(model: Model)
    requires TriangleShape(model, 3, [-1.0, 1.0, -1.0], false)
    ensures Feasible(model, [0, 1, 0]) && Objective(model, [0, 1, 0]) == 1.0
  {
    var w, x := [-1.0, 1.0, -1.0], [0, 1, 0];
    K3Feasible(model, w, false, x);
    K3Objective(model, w, false, x);
  }

  lemma K3MaxCut()
    ensures MaxCut.IsMaxCut(Relabel(MaxCut.K3()), [-1.0, 1.0, -1.0], 0.0)
  {
    var w := [-1.0, 1.0, -1.0];
    MaxCut.K3Relabel();
    var g := Relabel(MaxCut.K3());
    MaxCut.TriangleCutWeight(w, [0, 0, 0]);
    assert MaxCut.IsSides([0, 0, 0], 3);
    forall t | MaxCut.IsSides(t, 3) ensures MaxCut.CutWeight(g, w, t) <= 0.0 {
      MaxCut.TriangleCutWeight(w, t);
      assert t[0] == 0 || t[0] == 1;
      assert t[1] == 0 || t[1] == 1;
      assert t[2] == 0 || t[2] == 1;
    }
  }

  /** The corrected model on the same weighted K3 has optimum 0, the maximum cut. */
  lemma CorrectedK3(model: Model)
    requires IsTriangleModel(model, MaxCut.K3(), [-1.0, 1.0, -1.0], true)
    ensures IsOptimum(model, 0.0) && !Feasible(model, [0, 1, 0])
  {
    K3MaxCut();
    CorrectedOptimumIsMaxCut(model, MaxCut.K3(), [-1.0, 1.0, -1.0], 0.0);
    K3Model(model, [-1.0, 1.0, -1.0], true);
    K3Feasible(model, [-1.0, 1.0, -1.0], true, [0, 1, 0]);
  }
}
