/**
 * What the representatives formulation means. A 0/1 assignment y of the
 * variables x_uv picks, for every node v, representatives u among the nodes
 * not adjacent to v; the objective counts the nodes that represent
 * themselves. With the links x_uv <= x_uu every feasible assignment decodes
 * into a proper colouring (one colour per representative) and every proper
 * colouring encodes into a feasible assignment (each colour class represented
 * by its first node), so the optimum is the chromatic number. Without the
 * links, as the source builds it, the encodings stay feasible and the optimum
 * is at most the chromatic number, and exactly it when every non-neighbour of
 * a node lies on an edge among that node's non-neighbours.
 */
module ColoringRepresentativesOptimum {
  import opened Common
  import opened Mip
  import opened Graphs
  import opened Coloring
  import opened ColoringRepresentatives

  /** The value y gives x[u, v]; 0 for a pair without a variable. */
  function XAt(g: Graph, y: seq<int>, u: nat, v: nat): int {
    var x := Index(Pairs(g));
    if (u, v) in x then At(y, x[(u, v)]) else 0
  }

  /** Some node u not adjacent to v (or v itself) represents v. */
  ghost predicate Represented(g: Graph, y: seq<int>, v: nat) {
    exists u :: InClosed(g, v, u) && XAt(g, y, u, v) == 1
  }

  ghost predicate Covered(g: Graph, y: seq<int>) {
    forall v :: 0 <= v < g.n ==> Represented(g, y, v)
  }

  /** Constraint (9) at u for edge e, when it is posted: u represents at most one end, and then itself. */
  predicate SepHolds(g: Graph, y: seq<int>, u: nat, e: Edge) {
    InOpen(g, u, e.0) && InOpen(g, u, e.1) ==> XAt(g, y, u, e.0) + XAt(g, y, u, e.1) <= XAt(g, y, u, u)
  }

  /** Every posted constraint (9) of u holds. */
  ghost predicate SeparatedAt(g: Graph, y: seq<int>, u: nat) {
    forall k :: 0 <= k < |g.edges| ==> SepHolds(g, y, u, g.edges[k])
  }

  ghost predicate Separated(g: Graph, y: seq<int>) {
    forall u :: 0 <= u < g.n ==> SeparatedAt(g, y, u)
  }

  /** u represents its non-neighbour v only if it represents itself. */
  predicate LinkHolds(g: Graph, y: seq<int>, u: nat, v: nat) {
    InOpen(g, u, v) ==> XAt(g, y, u, v) <= XAt(g, y, u, u)
  }

  /** Every link of u holds. */
  ghost predicate LinkedAt(g: Graph, y: seq<int>, u: nat) {
    forall v :: 0 <= v < g.n ==> LinkHolds(g, y, u, v)
  }

  ghost predicate Linked(g: Graph, y: seq<int>) {
    forall u :: 0 <= u < g.n ==> LinkedAt(g, y, u)
  }

  // ---------------------------------------------------------------- values of the variables

  /** The value of a pair with a variable is the entry at its handle. */
  lemma XAtKey(g: Graph, y: seq<int>, p: Pair)
    requires p.0 < g.n && p.1 < g.n && Kept(g, p) && |y| == |Pairs(g)|
    ensures Lookup(Index(Pairs(g)), p) < |y| && XAt(g, y, p.0, p.1) == y[Lookup(Index(Pairs(g)), p)]
  {
    PairKey(g, p);
  }

  /** Over a 0/1 assignment every pair has value 0 or 1. */
  lemma XAtBinary(g: Graph, y: seq<int>, u: nat, v: nat)
    requires Binary01(y)
    ensures XAt(g, y, u, v) == 0 || XAt(g, y, u, v) == 1
  {
  }

  // ---------------------------------------------------------------- meaning of the constraints

  /** Constraint (8) at v holds exactly when v has a representative. */
  lemma CoverMeaning(g: Graph, y: seq<int>, v: nat)
    requires v < g.n && |y| == |Pairs(g)| && Binary01(y)
    ensures Satisfies(CoverCons(Index(Pairs(g)), g, v), y) <==> Represented(g, y, v)
  {
    var x := Index(Pairs(g));
    var us := Closed(g, v, g.n);
    var hs := RepColumn(x, us, v);
    ClosedKeys(g, v);
    ClosedMembers(g, v, g.n);
    assert ZeroOneOn(hs, y);
    EvalUnitTerms(hs, y);
    PicksZero(hs, y);
    if Represented(g, y, v) {
      var u :| InClosed(g, v, u) && XAt(g, y, u, v) == 1;
      assert u in us;
      var i :| 0 <= i < |us| && us[i] == u;
      assert y[hs[i]] == 1;
    }
    if Picks(hs, y) != 0 {
      var i :| 0 <= i < |hs| && y[hs[i]] != 0;
      assert us[i] in us;
      assert InClosed(g, v, us[i]) && XAt(g, y, us[i], v) == 1;
    }
  }

  /** Constraint (9) at u for e, once posted, says SepHolds. */
  lemma SepConsMeaning(g: Graph, y: seq<int>, u: nat, e: Edge)
    requires u < g.n && InOpen(g, u, e.0) && InOpen(g, u, e.1) && |y| == |Pairs(g)|
    ensures Satisfies(SepCons(Index(Pairs(g)), u, e), y) <==> SepHolds(g, y, u, e)
  {
    var x := Index(Pairs(g));
    OpenKeys(g, u, e.0);
    OpenKeys(g, u, e.1);
    XAtKey(g, y, (u, e.0));
    XAtKey(g, y, (u, e.1));
    XAtKey(g, y, (u, u));
    EvalTriple(Lookup(x, (u, e.0)), Lookup(x, (u, e.1)), Lookup(x, (u, u)), 1.0, 1.0, -1.0, y);
  }

  lemma {:induction false} SepBlockMeaning(g: Graph, y: seq<int>, u: nat, es: seq<Edge>)
    requires u < g.n && |y| == |Pairs(g)|
    ensures SatisfiesAll(SepBlock(Index(Pairs(g)), g, u, es), y) <==>
              forall k :: 0 <= k < |es| ==> SepHolds(g, y, u, es[k])
  {
    if es != [] {
      var x := Index(Pairs(g));
      var init := es[..|es| - 1];
      var e := es[|es| - 1];
      SepBlockMeaning(g, y, u, init);
      var tail := if InOpen(g, u, e.0) && InOpen(g, u, e.1) then [SepCons(x, u, e)] else [];
      SatisfiesAllAppend(SepBlock(x, g, u, init), tail, y);
      if InOpen(g, u, e.0) && InOpen(g, u, e.1) {
        SatisfiesOne(SepCons(x, u, e), y);
        SepConsMeaning(g, y, u, e);
      }
      assert forall k :: 0 <= k < |init| ==> init[k] == es[k];
    }
  }

  /** The link at (u, v), once posted, says LinkHolds. */
  lemma LinkConsMeaning(g: Graph, y: seq<int>, u: nat, v: nat)
    requires u < g.n && InOpen(g, u, v) && |y| == |Pairs(g)|
    ensures Satisfies(LinkCons(Index(Pairs(g)), u, v), y) <==> LinkHolds(g, y, u, v)
  {
    var x := Index(Pairs(g));
    OpenKeys(g, u, v);
    XAtKey(g, y, (u, v));
    XAtKey(g, y, (u, u));
    EvalPair(Lookup(x, (u, v)), Lookup(x, (u, u)), 1.0, -1.0, y);
  }

  lemma {:induction false} LinkBlockMeaning(g: Graph, y: seq<int>, u: nat, k: nat)
    requires u < g.n && |y| == |Pairs(g)|
    ensures SatisfiesAll(LinkBlock(Index(Pairs(g)), g, u, k), y) <==>
              forall v :: 0 <= v < k ==> LinkHolds(g, y, u, v)
  {
    if k > 0 {
      var x := Index(Pairs(g));
      LinkBlockMeaning(g, y, u, k - 1);
      var tail := if InOpen(g, u, k - 1) then [LinkCons(x, u, k - 1)] else [];
      SatisfiesAllAppend(LinkBlock(x, g, u, k - 1), tail, y);
      if InOpen(g, u, k - 1) {
        SatisfiesOne(LinkCons(x, u, k - 1), y);
        LinkConsMeaning(g, y, u, k - 1);
      }
    }
  }

  lemma CoverConssMeaning(g: Graph, y: seq<int>)
    requires |y| == |Pairs(g)| && Binary01(y)
    ensures SatisfiesAll(CoverConss(Index(Pairs(g)), g), y) <==> Covered(g, y)
  {
    var cs := CoverConss(Index(Pairs(g)), g);
    forall v | 0 <= v < g.n ensures Satisfies(cs[v], y) <==> Represented(g, y, v) {
      CoverMeaning(g, y, v);
    }
  }

  lemma SepConssMeaning(g: Graph, y: seq<int>)
    requires |y| == |Pairs(g)|
    ensures SatisfiesAll(Flatten(SepBlocks(Index(Pairs(g)), g)), y) <==> Separated(g, y)
  {
    var bs := SepBlocks(Index(Pairs(g)), g);
    SatisfiesFlatten(bs, y);
    forall u | 0 <= u < g.n
      ensures SatisfiesAll(bs[u], y) <==> SeparatedAt(g, y, u)
    {
      SepBlockMeaning(g, y, u, g.edges);
    }
  }

  lemma LinkConssMeaning(g: Graph, y: seq<int>)
    requires |y| == |Pairs(g)|
    ensures SatisfiesAll(Flatten(LinkBlocks(Index(Pairs(g)), g)), y) <==> Linked(g, y)
  {
    var bs := LinkBlocks(Index(Pairs(g)), g);
    SatisfiesFlatten(bs, y);
    forall u | 0 <= u < g.n
      ensures SatisfiesAll(bs[u], y) <==> LinkedAt(g, y, u)
    {
      LinkBlockMeaning(g, y, u, g.n);
    }
  }

  /** The constraints of representatives say: every node is represented, and (9) holds. */
  lemma RepConssMeaning(g: Graph, y: seq<int>)
    requires |y| == |Pairs(g)| && Binary01(y)
    ensures SatisfiesAll(RepConss(g), y) <==> Covered(g, y) && Separated(g, y)
  {
    var x := Index(Pairs(g));
    SatisfiesAllAppend(CoverConss(x, g), Flatten(SepBlocks(x, g)), y);
    CoverConssMeaning(g, y);
    SepConssMeaning(g, y);
  }

  /** The corrected constraints add: every representative of another node represents itself. */
  lemma LinkedConssMeaning(g: Graph, y: seq<int>)
    requires |y| == |Pairs(g)| && Binary01(y)
    ensures SatisfiesAll(LinkedConss(g), y) <==> Covered(g, y) && Separated(g, y) && Linked(g, y)
  {
    SatisfiesAllAppend(RepConss(g), Flatten(LinkBlocks(Index(Pairs(g)), g)), y);
    RepConssMeaning(g, y);
    LinkConssMeaning(g, y);
  }

  // ---------------------------------------------------------------- the objective

  /** Objective 1 on x_uu and 0 on x_uv for u != v. */
  function RepObjs(ps: seq<Pair>): (objs: seq<real>)
    ensures |objs| == |ps| && forall k :: 0 <= k < |ps| ==> objs[k] == if ps[k].0 == ps[k].1 then 1.0 else 0.0
  {
    seq(|ps|, k requires 0 <= k < |ps| => if ps[k].0 == ps[k].1 then 1.0 else 0.0)
  }

  /** The handles from i on of diagonal pairs set to one. */
  function DiagFrom(ps: seq<Pair>, y: seq<int>, i: nat): set<nat>
    decreases |y| - i
  {
    if i >= |y| || i >= |ps| then {}
    else (if ps[i].0 == ps[i].1 && y[i] == 1 then {i} else {}) + DiagFrom(ps, y, i + 1)
  }

  lemma {:induction false} DiagMembers(ps: seq<Pair>, y: seq<int>, i: nat)
    ensures forall k :: k in DiagFrom(ps, y, i) <==> i <= k < |y| && k < |ps| && ps[k].0 == ps[k].1 && y[k] == 1
    decreases |y| - i
  {
    if i < |y| && i < |ps| {
      DiagMembers(ps, y, i + 1);
    }
  }

  lemma WeightedStep(ps: seq<Pair>, y: seq<int>, i: nat)
    requires |y| == |ps| && Binary01(y) && i < |y|
    ensures WeightedFrom(RepObjs(ps), y, i) ==
            WeightedFrom(RepObjs(ps), y, i + 1) + if ps[i].0 == ps[i].1 && y[i] == 1 then 1.0 else 0.0
  {
    var objs := RepObjs(ps);
    assert objs[i] == if ps[i].0 == ps[i].1 then 1.0 else 0.0;
    assert y[i] == 0 || y[i] == 1;
  }

  lemma DiagStep(ps: seq<Pair>, y: seq<int>, i: nat)
    requires |y| == |ps| && i < |y|
    ensures |DiagFrom(ps, y, i)| == |DiagFrom(ps, y, i + 1)| + if ps[i].0 == ps[i].1 && y[i] == 1 then 1 else 0
  {
    DiagMembers(ps, y, i + 1);
    assert i !in DiagFrom(ps, y, i + 1);
  }

  lemma {:induction false} WeightedDiag(ps: seq<Pair>, y: seq<int>, i: nat)
    requires |y| == |ps| && Binary01(y)
    ensures WeightedFrom(RepObjs(ps), y, i) == |DiagFrom(ps, y, i)| as real
    decreases |y| - i
  {
    if i < |y| {
      WeightedDiag(ps, y, i + 1);
      WeightedStep(ps, y, i);
      DiagStep(ps, y, i);
    }
  }

  /** The nodes that represent themselves. */
  ghost function Reps(g: Graph, y: seq<int>): set<nat> {
    set u | u in Naturals(g.n) && XAt(g, y, u, u) == 1
  }

  /** The first coordinates of the diagonal handles set to one. */
  ghost function DiagNodes(ps: seq<Pair>, s: set<nat>): set<nat>
    requires forall k :: k in s ==> k < |ps|
  {
    set k | k in s :: ps[k].0
  }

  /** Distinct diagonal pairs have distinct first coordinates. */
  lemma DiagNodesCard(ps: seq<Pair>, s: set<nat>)
    requires Distinct(ps) && forall k :: k in s ==> k < |ps| && ps[k].0 == ps[k].1
    ensures |DiagNodes(ps, s)| == |s|
  {
    var f := seq(|ps|, k requires 0 <= k < |ps| => ps[k].0);
    forall a, b | a in s && b in s && f[a] == f[b] ensures a == b {
      assert ps[a] == ps[b];
    }
    InjectiveCard(s, f);
    assert (set a | a in s :: f[a]) == DiagNodes(ps, s);
  }

  lemma DiagNodesAreReps(g: Graph, y: seq<int>)
    requires |y| == |Pairs(g)|
    ensures forall k :: k in DiagFrom(Pairs(g), y, 0) ==> k < |Pairs(g)|
    ensures DiagNodes(Pairs(g), DiagFrom(Pairs(g), y, 0)) == Reps(g, y)
  {
    var ps := Pairs(g);
    var s := DiagFrom(ps, y, 0);
    DiagMembers(ps, y, 0);
    forall u | u in DiagNodes(ps, s) ensures u in Reps(g, y) {
      var a :| a in s && ps[a].0 == u;
      PairsMembers(g);
      assert ps[a] == (u, u) && ps[a] in ps;
      IndexOfDistinct(ps, a);
      InNaturals(g.n, u);
    }
    forall u | u in Reps(g, y) ensures u in DiagNodes(ps, s) {
      InNaturals(g.n, u);
      PairKey(g, (u, u));
      IndexMembers(ps);
      var a := Index(ps)[(u, u)];
      assert a in s;
    }
  }

  /** The diagonal handles set to one are the self-representing nodes, one handle each. */
  lemma DiagReps(g: Graph, y: seq<int>)
    requires |y| == |Pairs(g)|
    ensures |DiagFrom(Pairs(g), y, 0)| == |Reps(g, y)|
  {
    DiagMembers(Pairs(g), y, 0);
    PairsDistinct(g);
    DiagNodesCard(Pairs(g), DiagFrom(Pairs(g), y, 0));
    DiagNodesAreReps(g, y);
  }

  // ---------------------------------------------------------------- the model without its names

  /** What the meaning of a representatives model depends on; linked selects the corrected constraints. */
  ghost predicate RepShape(model: Model, g: Graph, linked: bool) {
    IsGraph(g) && BinaryObjs(model, RepObjs(Pairs(g))) && model.sense == Minimize &&
    model.conss == if linked then LinkedConss(g) else RepConss(g)
  }

  lemma RepVarsObjs(ps: seq<Pair>, m: Model)
    requires m.removed == {} && m.vars == RepVars(ps)
    ensures BinaryObjs(m, RepObjs(ps))
  {
  }

  lemma RepModelShape(model: Model, lg: Labelled<int>, name: string)
    requires IsRepresentativesModel(model, lg, name)
    ensures RepShape(model, Relabel(lg), false)
  {
    RelabelIsGraph(lg);
    RepVarsObjs(Pairs(Relabel(lg)), model);
  }

  lemma LinkedModelShape(model: Model, lg: Labelled<int>, name: string)
    requires IsLinkedModel(model, lg, name)
    ensures RepShape(model, Relabel(lg), true)
  {
    RelabelIsGraph(lg);
    RepVarsObjs(Pairs(Relabel(lg)), model);
  }

  /** A 0/1 assignment is feasible exactly when every node is represented, (9) holds, and the links hold if posted. */
  lemma ShapeFeasibleIff(model: Model, g: Graph, linked: bool, y: seq<int>)
    requires RepShape(model, g, linked)
    ensures Feasible(model, y) <==>
              |y| == |Pairs(g)| && Binary01(y) && Covered(g, y) && Separated(g, y) && (linked ==> Linked(g, y))
  {
    BinaryObjsFeasible(model, RepObjs(Pairs(g)), y);
    if |y| == |Pairs(g)| && Binary01(y) {
      if linked {
        LinkedConssMeaning(g, y);
      } else {
        RepConssMeaning(g, y);
      }
    }
  }

  /** The objective counts the nodes that represent themselves. */
  lemma ShapeObjective(model: Model, g: Graph, linked: bool, y: seq<int>)
    requires RepShape(model, g, linked) && |y| == |Pairs(g)| && Binary01(y)
    ensures Objective(model, y) == |Reps(g, y)| as real
  {
    BinaryObjsObjective(model, RepObjs(Pairs(g)), y, 0);
    WeightedDiag(Pairs(g), y, 0);
    DiagReps(g, y);
  }

  lemma RepresentativesFeasibleIff(model: Model, lg: Labelled<int>, name: string, y: seq<int>)
    requires IsRepresentativesModel(model, lg, name)
    ensures Feasible(model, y) <==>
              |y| == |Pairs(Relabel(lg))| && Binary01(y) && Covered(Relabel(lg), y) && Separated(Relabel(lg), y)
    ensures Feasible(model, y) ==> Objective(model, y) == |Reps(Relabel(lg), y)| as real
  {
    RepModelShape(model, lg, name);
    ShapeFeasibleIff(model, Relabel(lg), false, y);
    if Feasible(model, y) {
      ShapeObjective(model, Relabel(lg), false, y);
    }
  }

  lemma LinkedFeasibleIff(model: Model, lg: Labelled<int>, name: string, y: seq<int>)
    requires IsLinkedModel(model, lg, name)
    ensures Feasible(model, y) <==>
              |y| == |Pairs(Relabel(lg))| && Binary01(y) &&
              Covered(Relabel(lg), y) && Separated(Relabel(lg), y) && Linked(Relabel(lg), y)
    ensures Feasible(model, y) ==> Objective(model, y) == |Reps(Relabel(lg), y)| as real
  {
    LinkedModelShape(model, lg, name);
    ShapeFeasibleIff(model, Relabel(lg), true, y);
    if Feasible(model, y) {
      ShapeObjective(model, Relabel(lg), true, y);
    }
  }

  // ---------------------------------------------------------------- colourings as representatives

  /** u is the first node with v's colour. */
  predicate RepresentsIn(col: seq<nat>, p: Pair) {
    p.0 < |col| && p.1 < |col| && Position(col, col[p.1]) == p.0
  }

  /** Each node represented by the first node of its colour. */
  function EncodeRep(g: Graph, col: seq<nat>): (y: seq<int>)
    ensures |y| == |Pairs(g)| && Binary01(y)
  {
    seq(|Pairs(g)|, k requires 0 <= k < |Pairs(g)| => if RepresentsIn(col, Pairs(g)[k]) then 1 else 0)
  }

  lemma EncodeAt(g: Graph, col: seq<nat>, u: nat, v: nat)
    requires u < g.n && v < g.n && Kept(g, (u, v))
    ensures XAt(g, EncodeRep(g, col), u, v) == if RepresentsIn(col, (u, v)) then 1 else 0
  {
    PairKey(g, (u, v));
    IndexMembers(Pairs(g));
  }

  /** The first node of a colour represents itself. */
  lemma FirstRepresentsSelf(col: seq<nat>, u: nat, v: nat)
    requires RepresentsIn(col, (u, v))
    ensures col[u] == col[v] && RepresentsIn(col, (u, u))
  {
  }

  lemma EncodeCovered(g: Graph, col: seq<nat>)
    requires Proper(g, col)
    ensures Covered(g, EncodeRep(g, col))
  {
    forall v | 0 <= v < g.n ensures Represented(g, EncodeRep(g, col), v) {
      var u := Position(col, col[v]);
      SameColourNotAdjacent(g, col, u, v);
      EncodeAt(g, col, u, v);
      assert InClosed(g, v, u);
    }
  }

  lemma EncodeSeparated(g: Graph, col: seq<nat>)
    requires Proper(g, col)
    ensures Separated(g, EncodeRep(g, col))
  {
    var y := EncodeRep(g, col);
    forall u, k | 0 <= u < g.n && 0 <= k < |g.edges| ensures SepHolds(g, y, u, g.edges[k]) {
      var e := g.edges[k];
      if InOpen(g, u, e.0) && InOpen(g, u, e.1) {
        EncodeAt(g, col, u, e.0);
        EncodeAt(g, col, u, e.1);
        EncodeAt(g, col, u, u);
        if RepresentsIn(col, (u, e.0)) {
          FirstRepresentsSelf(col, u, e.0);
        }
        if RepresentsIn(col, (u, e.1)) {
          FirstRepresentsSelf(col, u, e.1);
        }
      }
    }
  }

  lemma EncodeLinked(g: Graph, col: seq<nat>)
    requires Proper(g, col)
    ensures Linked(g, EncodeRep(g, col))
  {
    var y := EncodeRep(g, col);
    forall u, v | 0 <= u < g.n && 0 <= v < g.n ensures LinkHolds(g, y, u, v) {
      if InOpen(g, u, v) {
        EncodeAt(g, col, u, v);
        EncodeAt(g, col, u, u);
        if RepresentsIn(col, (u, v)) {
          FirstRepresentsSelf(col, u, v);
        }
      }
    }
  }

  /** The self-representing nodes of the encoding are the first nodes of the colours, one per colour. */
  lemma EncodeReps(g: Graph, col: seq<nat>)
    requires Proper(g, col)
    ensures |Reps(g, EncodeRep(g, col))| == |ToSet(col)|
  {
    var y := EncodeRep(g, col);
    var reps := Reps(g, y);
    forall u | u in reps ensures u < |col| && Position(col, col[u]) == u {
      InNaturals(g.n, u);
      EncodeAt(g, col, u, u);
    }
    forall a, b | a in reps && b in reps && col[a] == col[b] ensures a == b {
    }
    InjectiveCard(reps, col);
    forall c | c in ToSet(col) ensures c in (set a | a in reps :: col[a]) {
      var v :| 0 <= v < |col| && col[v] == c;
      var u := Position(col, c);
      InNaturals(g.n, u);
      EncodeAt(g, col, u, u);
      assert u in reps;
    }
    assert (set a | a in reps :: col[a]) == ToSet(col);
  }

  /** A representative of v, when v has one. */
  ghost function RepOf(g: Graph, y: seq<int>, v: nat): (u: nat)
    requires Represented(g, y, v)
    ensures InClosed(g, v, u) && XAt(g, y, u, v) == 1
  {
    var u :| InClosed(g, v, u) && XAt(g, y, u, v) == 1; u
  }

  /** Colour every node with (the number of) one of its representatives. */
  ghost function DecodeRep(g: Graph, y: seq<int>): (col: seq<nat>)
    requires Covered(g, y)
    ensures |col| == g.n && forall v :: 0 <= v < g.n ==> col[v] == RepOf(g, y, v)
  {
    seq(g.n, v requires 0 <= v < g.n => RepOf(g, y, v))
  }

  /** The two ends of an edge never share a representative. */
  lemma DecodeEdge(g: Graph, y: seq<int>, k: nat)
    requires IsGraph(g) && NoLoops(g) && Binary01(y) && Covered(g, y) && Separated(g, y) && k < |g.edges|
    ensures DecodeRep(g, y)[g.edges[k].0] != DecodeRep(g, y)[g.edges[k].1]
  {
    var e := g.edges[k];
    var col := DecodeRep(g, y);
    var u := col[e.0];
    if u == col[e.1] {
      assert e in g.edges;
      if u != e.0 && u != e.1 {
        assert SeparatedAt(g, y, u);
        assert SepHolds(g, y, u, e);
        XAtBinary(g, y, u, u);
      }
      assert false;
    }
  }

  lemma DecodeProper(g: Graph, y: seq<int>)
    requires IsGraph(g) && NoLoops(g) && Binary01(y) && Covered(g, y) && Separated(g, y)
    ensures Proper(g, DecodeRep(g, y))
  {
    forall k | 0 <= k < |g.edges| ensures DecodeRep(g, y)[g.edges[k].0] != DecodeRep(g, y)[g.edges[k].1] {
      DecodeEdge(g, y, k);
    }
  }

  /** With the links every colour of the decoding is a self-representing node. */
  lemma DecodeColours(g: Graph, y: seq<int>)
    requires Binary01(y) && Covered(g, y) && Linked(g, y)
    ensures ToSet(DecodeRep(g, y)) <= Reps(g, y) && |ToSet(DecodeRep(g, y))| <= |Reps(g, y)|
  {
    var col := DecodeRep(g, y);
    forall c | c in ToSet(col) ensures c in Reps(g, y) {
      var v :| 0 <= v < |col| && col[v] == c;
      if c != v {
        assert LinkedAt(g, y, c);
        assert LinkHolds(g, y, c, v);
        XAtBinary(g, y, c, c);
      }
      InNaturals(g.n, c);
    }
    SubsetCard(ToSet(col), Reps(g, y));
  }

  // ---------------------------------------------------------------- the optimum

  /** Every proper colouring gives a feasible point whose objective is its number of colours. */
  lemma EncodeFeasible(model: Model, g: Graph, linked: bool, col: seq<nat>)
    requires RepShape(model, g, linked) && Proper(g, col)
    ensures Feasible(model, EncodeRep(g, col)) && Objective(model, EncodeRep(g, col)) == |ToSet(col)| as real
  {
    var y := EncodeRep(g, col);
    EncodeCovered(g, col);
    EncodeSeparated(g, col);
    EncodeLinked(g, col);
    ShapeFeasibleIff(model, g, linked, y);
    ShapeObjective(model, g, linked, y);
    EncodeReps(g, col);
  }

  /** With the links, a feasible point decodes into a proper colouring with at most as many colours as its objective. */
  lemma DecodeFeasible(model: Model, g: Graph, y: seq<int>)
    requires RepShape(model, g, true) && NoLoops(g) && Feasible(model, y)
    ensures Covered(g, y)
    ensures Proper(g, DecodeRep(g, y)) && |ToSet(DecodeRep(g, y))| as real <= Objective(model, y)
  {
    ShapeFeasibleIff(model, g, true, y);
    ShapeObjective(model, g, true, y);
    DecodeProper(g, y);
    DecodeColours(g, y);
  }

  /** Every proper colouring is reached by a feasible point paying its number of colours. */
  ghost predicate EncodesColourings(model: Model, g: Graph) {
    forall col: seq<nat> {:trigger EncodeRep(g, col)} :: Proper(g, col) ==>
      Feasible(model, EncodeRep(g, col)) && Objective(model, EncodeRep(g, col)) == |ToSet(col)| as real
  }

  /** Every feasible point decodes into a proper colouring with at most as many colours as it pays. */
  ghost predicate DecodesPoints(model: Model, g: Graph) {
    forall y :: Feasible(model, y) ==>
      Covered(g, y) && Proper(g, DecodeRep(g, y)) && |ToSet(DecodeRep(g, y))| as real <= Objective(model, y)
  }

  lemma EncodesAll(model: Model, g: Graph, linked: bool)
    requires RepShape(model, g, linked)
    ensures EncodesColourings(model, g)
  {
    forall col: seq<nat> | Proper(g, col)
      ensures Feasible(model, EncodeRep(g, col)) && Objective(model, EncodeRep(g, col)) == |ToSet(col)| as real
    {
      EncodeFeasible(model, g, linked, col);
    }
  }

  lemma DecodesAll(model: Model, g: Graph)
    requires RepShape(model, g, true) && NoLoops(g)
    ensures DecodesPoints(model, g)
  {
    forall y | Feasible(model, y)
      ensures Covered(g, y) && Proper(g, DecodeRep(g, y)) && |ToSet(DecodeRep(g, y))| as real <= Objective(model, y)
    {
      DecodeFeasible(model, g, y);
    }
  }

  lemma ChromaticIsOptimum(model: Model, g: Graph, k: nat)
    requires model.sense == Minimize && EncodesColourings(model, g) && DecodesPoints(model, g) && Chromatic(g, k)
    ensures IsOptimum(model, k as real)
  {
    var col: seq<nat> :| Proper(g, col) && |ToSet(col)| == k;
    assert Feasible(model, EncodeRep(g, col)) && Objective(model, EncodeRep(g, col)) == k as real;
    forall y | Feasible(model, y) ensures Better(model, k as real, Objective(model, y)) {
      assert k <= |ToSet(DecodeRep(g, y))|;
    }
  }

  lemma OptimumIsChromatic(model: Model, g: Graph, r: real) returns (k: nat)
    requires model.sense == Minimize && EncodesColourings(model, g) && DecodesPoints(model, g) && IsOptimum(model, r)
    ensures r == k as real && Chromatic(g, k)
  {
    var y :| Feasible(model, y) && Objective(model, y) == r;
    assert Covered(g, y);
    var col := DecodeRep(g, y);
    k := |ToSet(col)|;
    assert Proper(g, col) && k as real <= r;
    assert Feasible(model, EncodeRep(g, col)) && Objective(model, EncodeRep(g, col)) == k as real;
    assert r <= k as real;
    forall c: seq<nat> | Proper(g, c) ensures k <= |ToSet(c)| {
      assert Feasible(model, EncodeRep(g, c));
    }
    assert Proper(g, col) && |ToSet(col)| == k;
  }

  /**
   * The corrected formulation is exact: on a graph without self-loops its
   * optimum is the chromatic number.
   */
  lemma LinkedOptimum(model: Model, lg: Labelled<int>, name: string, r: real)
    requires IsLinkedModel(model, lg, name) && NoLoops(Relabel(lg))
    ensures IsOptimum(model, r) <==> exists k: nat :: r == k as real && Chromatic(Relabel(lg), k)
  {
    var g := Relabel(lg);
    LinkedModelShape(model, lg, name);
    EncodesAll(model, g, true);
    DecodesAll(model, g);
    if IsOptimum(model, r) {
      var k := OptimumIsChromatic(model, g, r);
    }
    forall k: nat | r == k as real && Chromatic(g, k) ensures IsOptimum(model, r) {
      ChromaticIsOptimum(model, g, k);
    }
  }

  /** representatives as the source builds it relaxes colouring: its optimum is at most the chromatic number. */
  lemma RepresentativesAtMostChromatic(model: Model, lg: Labelled<int>, name: string, r: real, k: nat)
    requires IsRepresentativesModel(model, lg, name) && IsOptimum(model, r) && Chromatic(Relabel(lg), k)
    ensures r <= k as real
  {
    var g := Relabel(lg);
    RepModelShape(model, lg, name);
    EncodesAll(model, g, false);
    AtMostChromatic(model, g, r, k);
  }

  lemma AtMostChromatic(model: Model, g: Graph, r: real, k: nat)
    requires model.sense == Minimize && EncodesColourings(model, g) && IsOptimum(model, r) && Chromatic(g, k)
    ensures r <= k as real
  {
    var col: seq<nat> :| Proper(g, col) && |ToSet(col)| == k;
    assert Feasible(model, EncodeRep(g, col));
  }

  /** Every non-neighbour v of u is an end of an edge whose two ends are non-neighbours of u. */
  ghost predicate OnOpenEdge(g: Graph, u: nat, v: nat) {
    exists k :: 0 <= k < |g.edges| && InOpen(g, u, g.edges[k].0) && InOpen(g, u, g.edges[k].1) &&
                (g.edges[k].0 == v || g.edges[k].1 == v)
  }

  ghost predicate OpenOnEdges(g: Graph) {
    forall u, v :: 0 <= u < g.n && InOpen(g, u, v) ==> OnOpenEdge(g, u, v)
  }

  /** Where every non-neighbour lies on such an edge, constraint (9) already implies the links. */
  lemma SeparatedLinked(g: Graph, y: seq<int>)
    requires Binary01(y) && Separated(g, y) && OpenOnEdges(g)
    ensures Linked(g, y)
  {
    forall u, v | 0 <= u < g.n && 0 <= v < g.n ensures LinkHolds(g, y, u, v) {
      if InOpen(g, u, v) {
        assert OnOpenEdge(g, u, v);
        var k :| 0 <= k < |g.edges| && InOpen(g, u, g.edges[k].0) && InOpen(g, u, g.edges[k].1) &&
                 (g.edges[k].0 == v || g.edges[k].1 == v);
        assert SeparatedAt(g, y, u);
        assert SepHolds(g, y, u, g.edges[k]);
        XAtBinary(g, y, u, g.edges[k].0);
        XAtBinary(g, y, u, g.edges[k].1);
      }
    }
  }

  /** The model with the links in place of the source's constraint list. */
  lemma LinkedSameOptimum(model: Model, g: Graph, r: real)
    requires RepShape(model, g, false) && OpenOnEdges(g)
    ensures RepShape(model.(conss := LinkedConss(g)), g, true)
    ensures IsOptimum(model, r) <==> IsOptimum(model.(conss := LinkedConss(g)), r)
  {
    var m2 := model.(conss := LinkedConss(g));
    forall y ensures Feasible(model, y) <==> Feasible(m2, y) {
      ShapeFeasibleIff(model, g, false, y);
      ShapeFeasibleIff(m2, g, true, y);
      if Binary01(y) && Separated(g, y) {
        SeparatedLinked(g, y);
      }
    }
    forall y ensures Objective(model, y) == Objective(m2, y) {
      ObjectiveOfVars(model, m2, y, 0);
    }
  }

  /**
   * Where every non-neighbour of a node lies on an edge among that node's
   * non-neighbours (an odd cycle of length at least five, say), the source's
   * formulation is exact as well.
   */
  lemma RepresentativesOptimum(model: Model, lg: Labelled<int>, name: string, r: real)
    requires IsRepresentativesModel(model, lg, name) && NoLoops(Relabel(lg)) && OpenOnEdges(Relabel(lg))
    ensures IsOptimum(model, r) <==> exists k: nat :: r == k as real && Chromatic(Relabel(lg), k)
  {
    var g := Relabel(lg);
    RepModelShape(model, lg, name);
    LinkedSameOptimum(model, g, r);
    var m2 := model.(conss := LinkedConss(g));
    EncodesAll(m2, g, true);
    DecodesAll(m2, g);
    if IsOptimum(model, r) {
      var k := OptimumIsChromatic(m2, g, r);
    }
    forall k: nat | r == k as real && Chromatic(g, k) ensures IsOptimum(model, r) {
      ChromaticIsOptimum(m2, g, k);
    }
  }

  // ---------------------------------------------------------------- examples

  lemma Cycle5NoLoops()
    ensures NoLoops(Cycle5())
  {
  }

  /** In the 5-cycle the two non-neighbours of a node are joined by an edge. */
  lemma Cycle5OpenOnEdges()
    ensures OpenOnEdges(Cycle5())
  {
    var g := Cycle5();
    var es := g.edges;
    assert es[0] == (0, 1) && es[1] == (0, 4) && es[2] == (1, 2) && es[3] == (2, 3) && es[4] == (3, 4);
    forall u, v | 0 <= u < g.n && InOpen(g, u, v) ensures OnOpenEdge(g, u, v) {
      var k := if u == 0 then 3 else if u == 1 then 4 else if u == 2 then 1 else if u == 3 then 0 else 2;
      assert InOpen(g, u, es[k].0) && InOpen(g, u, es[k].1) && (es[k].0 == v || es[k].1 == v);
    }
  }

  /** On the 5-cycle the source's formulation reaches the chromatic number 3. */
  lemma RepresentativesCycle5(model: Model, name: string)
    requires IsRepresentativesModel(model, Cycle5Labelled(), name)
    ensures IsOptimum(model, 3.0)
  {
    Cycle5Relabel();
    Cycle5NoLoops();
    Cycle5OpenOnEdges();
    Cycle5Chromatic();
    RepresentativesOptimum(model, Cycle5Labelled(), name, 3.0);
  }

  /** The assignment choosing exactly the pairs of s. */
  function Select(g: Graph, s: set<Pair>): (y: seq<int>)
    ensures |y| == |Pairs(g)| && Binary01(y)
  {
    seq(|Pairs(g)|, k requires 0 <= k < |Pairs(g)| => if Pairs(g)[k] in s then 1 else 0)
  }

  lemma SelectAt(g: Graph, s: set<Pair>, u: nat, v: nat)
    requires u < g.n && v < g.n && Kept(g, (u, v))
    ensures XAt(g, Select(g, s), u, v) == if (u, v) in s then 1 else 0
  {
    PairKey(g, (u, v));
    IndexMembers(Pairs(g));
  }

  /** A node adjacent to every other node can only represent itself, so someone represents itself. */
  lemma SoleRepresentative(g: Graph, y: seq<int>, w: nat)
    requires Covered(g, y) && w < g.n && forall u :: InClosed(g, w, u) ==> u == w
    ensures w in Reps(g, y) && |Reps(g, y)| >= 1
  {
    assert Represented(g, y, w);
    var u :| InClosed(g, w, u) && XAt(g, y, u, w) == 1;
    InNaturals(g.n, w);
    SubsetCard({w}, Reps(g, y));
  }

  /** Node 1 of the path is adjacent to both others. */
  lemma Path3Middle()
    ensures forall u :: InClosed(Path3(), 1, u) ==> u == 1
  {
    var g := Path3();
    assert g.edges[0] == (0, 1) && g.edges[1] == (1, 2);
  }

  /** The path posts no constraint (9): every edge has the middle node as an end, a neighbour of the others. */
  lemma Path3NoSeparation(y: seq<int>)
    ensures Separated(Path3(), y)
  {
    var g := Path3();
    assert g.edges[0] == (0, 1) && g.edges[1] == (1, 2);
    forall u, k | 0 <= u < g.n && 0 <= k < |g.edges| ensures SepHolds(g, y, u, g.edges[k]) {
      assert !InOpen(g, u, 1);
    }
  }

  /** The point x_20 = x_02 = x_11 = 1 represents every node: 0 by 2, 1 by itself, 2 by 0. */
  lemma Path3Covered(g: Graph, s: set<Pair>)
    requires g == Path3() && s == {(2, 0), (0, 2), (1, 1)}
    ensures Covered(g, Select(g, s))
  {
    var y := Select(g, s);
    assert g.edges[0] == (0, 1) && g.edges[1] == (1, 2);
    assert !HasEdge(g, 0, 2) && !HasEdge(g, 2, 0);
    SelectAt(g, s, 2, 0);
    SelectAt(g, s, 0, 2);
    SelectAt(g, s, 1, 1);
    assert InClosed(g, 0, 2) && InClosed(g, 1, 1) && InClosed(g, 2, 0);
    assert Represented(g, y, 0) && Represented(g, y, 1) && Represented(g, y, 2);
    forall v | 0 <= v < g.n ensures Represented(g, y, v) {
      assert v == 0 || v == 1 || v == 2;
    }
  }

  /** In that point only node 1 represents itself. */
  lemma Path3Reps(g: Graph, s: set<Pair>)
    requires g == Path3() && s == {(2, 0), (0, 2), (1, 1)}
    ensures Reps(g, Select(g, s)) == {1}
  {
    var y := Select(g, s);
    SelectAt(g, s, 0, 0);
    SelectAt(g, s, 1, 1);
    SelectAt(g, s, 2, 2);
    forall u ensures u in Reps(g, y) <==> u == 1 {
      InNaturals(g.n, u);
    }
  }

  /**
   * The source's formulation on the path 0 - 1 - 2: nodes 0 and 2 represent
   * each other without representing themselves, so the optimum is 1 while
   * the path needs two colours.
   */
  lemma RepresentativesPath3(model: Model, name: string)
    requires IsRepresentativesModel(model, Path3Labelled(), name)
    ensures IsOptimum(model, 1.0) && Chromatic(Relabel(Path3Labelled()), 2)
  {
    Path3Relabel();
    Path3Chromatic();
    Path3Reached(model, name);
    forall z | Feasible(model, z) ensures Better(model, 1.0, Objective(model, z)) {
      Path3AtLeastOne(model, name, z);
    }
  }

  lemma Path3Reached(model: Model, name: string)
    requires IsRepresentativesModel(model, Path3Labelled(), name)
    ensures Feasible(model, Select(Path3(), {(2, 0), (0, 2), (1, 1)}))
    ensures Objective(model, Select(Path3(), {(2, 0), (0, 2), (1, 1)})) == 1.0
  {
    Path3Relabel();
    Path3Covered(Path3(), {(2, 0), (0, 2), (1, 1)});
    Path3Reps(Path3(), {(2, 0), (0, 2), (1, 1)});
    Path3NoSeparation(Select(Path3(), {(2, 0), (0, 2), (1, 1)}));
    RepresentativesFeasibleIff(model, Path3Labelled(), name, Select(Path3(), {(2, 0), (0, 2), (1, 1)}));
  }

  lemma Path3AtLeastOne(model: Model, name: string, z: seq<int>)
    requires IsRepresentativesModel(model, Path3Labelled(), name) && Feasible(model, z)
    ensures Objective(model, z) >= 1.0
  {
    Path3Relabel();
    RepresentativesFeasibleIff(model, Path3Labelled(), name, z);
    Path3Middle();
    SoleRepresentative(Path3(), z, 1);
  }

  /** With the links the same path reaches its chromatic number 2. */
  lemma LinkedPath3(model: Model, name: string)
    requires IsLinkedModel(model, Path3Labelled(), name)
    ensures IsOptimum(model, 2.0)
  {
    Path3Relabel();
    Path3Chromatic();
    assert NoLoops(Path3());
    LinkedOptimum(model, Path3Labelled(), name, 2.0);
  }
}
