/**
 * geco/mips/graph_coloring/generic.py, assignment_asymmetric: the assignment
 * model with two more families of constraints, which break the symmetry
 * between colours. Constraint (5) lets w_c be set only when some vertex has
 * colour c (w_c <= Σ_v x_vc, written w_c - Σ_v x_vc <= 0), and constraint (6)
 * for every colour but the first makes the used colours a prefix
 * (w_c <= w_{c-1}, written w_c - w_{c-1} <= 0).
 */
module ColoringAsymmetric {
  import opened Common
  import opened Mip
  import opened Graphs
  import opened Coloring
  import opened ColoringAssignment

  /** constraint (5) for colour c: w_c - Σ_v x_vc <= 0 */
  function ColourUsed(n: nat, c: nat, h: nat): Cons {
    Cons(Quicksum(NegUnitTerms(Column(n, c, h)) + [(n * h + c, 1.0)]), Le, 0.0)
  }

  function ColourUsedConss(n: nat, h: nat): (cs: seq<Cons>)
    ensures |cs| == h && forall c :: 0 <= c < h ==> cs[c] == ColourUsed(n, c, h)
  {
    seq(h, c requires 0 <= c < h => ColourUsed(n, c, h))
  }

  /** constraint (6) for colour c >= 1: w_c - w_{c-1} <= 0 */
  function ColourOrder(n: nat, c: nat, h: nat): Cons
    requires c >= 1
  {
    Cons(Quicksum([(n * h + c, 1.0), (n * h + c - 1, -1.0)]), Le, 0.0)
  }

  /** One constraint (6) for each of colors[1:]. */
  function ColourOrderConss(n: nat, h: nat): (cs: seq<Cons>)
    ensures |cs| == (if h == 0 then 0 else h - 1)
    ensures forall i :: 0 <= i < |cs| ==> cs[i] == ColourOrder(n, i + 1, h)
  {
    if h == 0 then [] else seq(h - 1, i requires 0 <= i < h - 1 => ColourOrder(n, i + 1, h))
  }

  function AsymmetricConss(g: Graph, h: nat): seq<Cons> {
    AssignmentConss(g, h) + ColourUsedConss(g.n, h) + ColourOrderConss(g.n, h)
  }

  /** The model assignment_asymmetric(graph, h, name) returns. */
  ghost predicate IsAsymmetricModel(model: Model, lg: Labelled<int>, h: nat, name: string) {
    IsLabelled(lg) &&
    model.name == name && model.removed == {} && model.sense == Minimize &&
    model.vars == XVars(|lg.nodes|, h) + WVars(h) && model.conss == AsymmetricConss(Relabel(lg), h)
  }

  // ---------------------------------------------------------------- building

  method AddColourUsedConss(m0: Model, n: nat, h: nat) returns (model: Model)
    ensures model == m0.(conss := m0.conss + ColourUsedConss(n, h))
  {
    ghost var cs := ColourUsedConss(n, h);
    model := m0;
    for c := 0 to h
      invariant model == m0.(conss := m0.conss + cs[..c])
    {
      model := model.AddCons(ColourUsed(n, c, h));
      assert cs[..c + 1] == cs[..c] + [cs[c]];
      assert m0.conss + cs[..c + 1] == (m0.conss + cs[..c]) + [cs[c]];
    }
    assert cs[..h] == cs;
  }

  method AddColourOrderConss(m0: Model, n: nat, h: nat) returns (model: Model)
    ensures model == m0.(conss := m0.conss + ColourOrderConss(n, h))
  {
    ghost var cs := ColourOrderConss(n, h);
    model := m0;
    for i := 0 to if h == 0 then 0 else h - 1
      invariant model == m0.(conss := m0.conss + cs[..i])
    {
      model := model.AddCons(ColourOrder(n, i + 1, h));
      assert cs[..i + 1] == cs[..i] + [cs[i]];
      assert m0.conss + cs[..i + 1] == (m0.conss + cs[..i]) + [cs[i]];
    }
    assert cs[..|cs|] == cs;
  }

  /** Constraints (5) and (6) mention only the variables of the model. */
  lemma ExtraBounded(n: nat, h: nat)
    ensures forall j, i :: 0 <= j < |ColourUsedConss(n, h)| && i in ColourUsedConss(n, h)[j].expr ==> i < n * h + h
    ensures forall j, i :: 0 <= j < |ColourOrderConss(n, h)| && i in ColourOrderConss(n, h)[j].expr ==> i < n * h + h
  {
    forall c, i | 0 <= c < h && i in ColourUsedConss(n, h)[c].expr ensures i < n * h + h {
      var ts := NegUnitTerms(Column(n, c, h)) + [(n * h + c, 1.0)];
      QuicksumKeys(ts);
      var k :| 0 <= k < |ts| && ts[k].0 == i;
      if k < n {
        CellBelow(n, h, k, c);
      }
    }
    forall j, i | 0 <= j < |ColourOrderConss(n, h)| && i in ColourOrderConss(n, h)[j].expr ensures i < n * h + h {
      KeysOfPair(n * h + j + 1, n * h + j, 1.0, -1.0);
    }
  }

  lemma AsymmetricWellFormed(model: Model, g: Graph, h: nat)
    requires IsGraph(g) && model.removed == {} && |model.vars| == g.n * h + h
    requires model.conss == AsymmetricConss(g, h)
    ensures model.WellFormed() && model.NumVars() == g.n * h + h
    ensures model.NumConss() == g.n + |g.edges| * h + h + (if h == 0 then 0 else h - 1)
  {
    AssignmentBounded(g, h);
    AssignmentCounts(g, h);
    ExtraBounded(g.n, h);
    var a, u, o := AssignmentConss(g, h), ColourUsedConss(g.n, h), ColourOrderConss(g.n, h);
    forall j, i | 0 <= j < |model.conss| && i in model.conss[j].expr ensures model.IsLive(i) {
      if j < |a| {
        assert model.conss[j] == a[j];
      } else if j < |a| + |u| {
        assert model.conss[j] == u[j - |a|];
      } else {
        assert model.conss[j] == o[j - |a| - |u|];
      }
    }
  }

  method AssignmentAsymmetric(lg: Labelled<int>, h: nat, name: string) returns (model: Model)
    requires IsLabelled(lg)
    ensures IsAsymmetricModel(model, lg, h, name) && model.WellFormed()
    ensures model.NumVars() == |lg.nodes| * h + h
    ensures model.NumConss() == |lg.nodes| + |lg.edges| * h + h + (if h == 0 then 0 else h - 1)
  {
    model := Assignment(lg, h, name);
    var g := Relabel(lg);
    model := AddColourUsedConss(model, g.n, h);
    model := AddColourOrderConss(model, g.n, h);
    RelabelIsGraph(lg);
    AsymmetricWellFormed(model, g, h);
  }

  // ---------------------------------------------------------------- meaning of the constraints

  /** Each w_c is set only when some vertex has colour c. */
  ghost predicate PaidColoursUsed(x: seq<int>, n: nat, h: nat) {
    forall c :: 0 <= c < h ==> WAt(x, n * h, c) <= Picks(Column(n, c, h), x)
  }

  /** The w variables set form a prefix of the colours. */
  ghost predicate PaidPrefix(x: seq<int>, base: nat, h: nat) {
    forall c :: 1 <= c < h ==> WAt(x, base, c) <= WAt(x, base, c - 1)
  }

  lemma ColourUsedEval(n: nat, h: nat, c: nat, x: seq<int>)
    requires c < h && |x| == n * h + h && Binary01(x)
    ensures Eval(ColourUsed(n, c, h).expr, x) == WAt(x, n * h, c) as real - Picks(Column(n, c, h), x) as real
  {
    var w := n * h + c;
    assert x[w] == 0 || x[w] == 1;
    EvalSnoc(NegUnitTerms(Column(n, c, h)), w, 1.0, x);
    TermsNegUnit(Column(n, c, h), x);
  }

  lemma ColourUsedMeaning(n: nat, h: nat, c: nat, x: seq<int>)
    requires c < h && |x| == n * h + h && Binary01(x)
    ensures Satisfies(ColourUsed(n, c, h), x) <==> WAt(x, n * h, c) <= Picks(Column(n, c, h), x)
  {
    ColourUsedEval(n, h, c, x);
  }

  lemma ColourOrderMeaning(n: nat, h: nat, c: nat, x: seq<int>)
    requires 1 <= c < h && |x| == n * h + h
    ensures Satisfies(ColourOrder(n, c, h), x) <==> WAt(x, n * h, c) <= WAt(x, n * h, c - 1)
  {
    EvalPair(n * h + c, n * h + c - 1, 1.0, -1.0, x);
  }

  lemma ColourUsedConssMeaning(n: nat, h: nat, x: seq<int>)
    requires |x| == n * h + h && Binary01(x)
    ensures SatisfiesAll(ColourUsedConss(n, h), x) <==> PaidColoursUsed(x, n, h)
  {
    var u := ColourUsedConss(n, h);
    forall c | 0 <= c < h ensures Satisfies(u[c], x) <==> WAt(x, n * h, c) <= Picks(Column(n, c, h), x) {
      ColourUsedMeaning(n, h, c, x);
    }
  }

  lemma ColourOrderConssMeaning(n: nat, h: nat, x: seq<int>)
    requires |x| == n * h + h
    ensures SatisfiesAll(ColourOrderConss(n, h), x) <==> PaidPrefix(x, n * h, h)
  {
    var o := ColourOrderConss(n, h);
    forall i | 0 <= i < |o| ensures Satisfies(o[i], x) <==> WAt(x, n * h, i + 1) <= WAt(x, n * h, i) {
      ColourOrderMeaning(n, h, i + 1, x);
    }
    if SatisfiesAll(o, x) {
      forall c | 1 <= c < h ensures WAt(x, n * h, c) <= WAt(x, n * h, c - 1) {
        assert Satisfies(o[c - 1], x);
      }
    }
    if PaidPrefix(x, n * h, h) {
      forall i | 0 <= i < |o| ensures Satisfies(o[i], x) {
        assert WAt(x, n * h, i + 1) <= WAt(x, n * h, i + 1 - 1);
      }
    }
  }

  /** Constraints (5) and (6) say: paid colours are used by a vertex, and form a prefix. */
  lemma ExtraMeaning(n: nat, h: nat, x: seq<int>)
    requires |x| == n * h + h && Binary01(x)
    ensures SatisfiesAll(ColourUsedConss(n, h) + ColourOrderConss(n, h), x) <==>
              PaidColoursUsed(x, n, h) && PaidPrefix(x, n * h, h)
  {
    SatisfiesAllAppend(ColourUsedConss(n, h), ColourOrderConss(n, h), x);
    ColourUsedConssMeaning(n, h, x);
    ColourOrderConssMeaning(n, h, x);
  }

  // ---------------------------------------------------------------- the model without its names

  ghost predicate AsymmetricShape(model: Model, g: Graph, h: nat) {
    IsGraph(g) && BinaryObjs(model, AssignmentObjs(g.n, h)) && model.sense == Minimize &&
    model.conss == AsymmetricConss(g, h)
  }

  /** The assignment model the asymmetric one extends: same variables, constraints (2) and (3) only. */
  function Base(model: Model, g: Graph, h: nat): Model {
    model.(conss := AssignmentConss(g, h))
  }

  lemma AsymmetricModelShape(model: Model, lg: Labelled<int>, h: nat, name: string)
    requires IsAsymmetricModel(model, lg, h, name)
    ensures AsymmetricShape(model, Relabel(lg), h)
  {
    RelabelIsGraph(lg);
    XWObjs(|lg.nodes|, h, model.vars);
  }

  /**
   * A point is feasible for assignment_asymmetric exactly when it is feasible
   * for assignment and meets (5) and (6); both models have the same objective.
   */
  lemma AsymmetricFeasibleIff(model: Model, g: Graph, h: nat, x: seq<int>)
    requires AsymmetricShape(model, g, h)
    ensures AssignmentShape(Base(model, g, h), g, h)
    ensures Feasible(model, x) <==>
              Feasible(Base(model, g, h), x) && PaidColoursUsed(x, g.n, h) && PaidPrefix(x, g.n * h, h)
    ensures Objective(model, x) == Objective(Base(model, g, h), x)
  {
    var base := Base(model, g, h);
    ObjectiveOfVars(model, base, x, 0);
    BinaryObjsFeasible(model, AssignmentObjs(g.n, h), x);
    BinaryObjsFeasible(base, AssignmentObjs(g.n, h), x);
    var extra := ColourUsedConss(g.n, h) + ColourOrderConss(g.n, h);
    assert model.conss == AssignmentConss(g, h) + extra;
    SatisfiesAllAppend(AssignmentConss(g, h), extra, x);
    if |x| == g.n * h + h && Binary01(x) {
      ExtraMeaning(g.n, h, x);
    }
  }

  /** Symmetry breaking only removes points: no feasible point pays less than the fewest colours. */
  lemma AsymmetricAtLeast(model: Model, g: Graph, h: nat, x: seq<int>, v: nat)
    requires AsymmetricShape(model, g, h) && Feasible(model, x) && FewestColours(g, h, v)
    ensures v as real <= Objective(model, x)
  {
    AsymmetricFeasibleIff(model, g, h, x);
    FeasibleBound(Base(model, g, h), g, h, x);
  }

  /** The colours used on edges form a prefix 0, 1, ..., k - 1: none reaches their number. */
  ghost predicate PrefixColours(s: set<nat>) {
    forall c :: c in s ==> c < |s|
  }

  /** A vertex of colour c makes Σ_v x_vc of the encoding positive. */
  lemma EncodePicks(g: Graph, col: seq<nat>, h: nat, c: nat)
    requires ProperWithin(g, col, h) && c in UsedColours(g, col)
    ensures WAt(Encode(g, col, h), g.n * h, c) <= Picks(Column(g.n, c, h), Encode(g, col, h))
  {
    var x := Encode(g, col, h);
    var v :| 0 <= v < |col| && Touched(g, v) && col[v] == c;
    var column := Column(g.n, c, h);
    forall u | 0 <= u < g.n ensures column[u] < |x| && (x[column[u]] == 0 || x[column[u]] == 1) {
      EncodeX(g, col, h, u, c);
    }
    EncodeX(g, col, h, v, c);
    PicksZero(column, x);
  }

  lemma EncodePaidUsed(g: Graph, col: seq<nat>, h: nat)
    requires ProperWithin(g, col, h)
    ensures PaidColoursUsed(Encode(g, col, h), g.n, h)
  {
    var x := Encode(g, col, h);
    forall c | 0 <= c < h ensures WAt(x, g.n * h, c) <= Picks(Column(g.n, c, h), x) {
      EncodeW(g, col, h, c);
      if c in UsedColours(g, col) {
        EncodePicks(g, col, h, c);
      }
    }
  }

  lemma EncodePaidPrefix(g: Graph, col: seq<nat>, h: nat)
    requires ProperWithin(g, col, h) && PrefixColours(UsedColours(g, col))
    ensures PaidPrefix(Encode(g, col, h), g.n * h, h)
  {
    var x := Encode(g, col, h);
    forall c | 1 <= c < h ensures WAt(x, g.n * h, c) <= WAt(x, g.n * h, c - 1) {
      EncodeW(g, col, h, c);
      EncodeW(g, col, h, c - 1);
      if c in UsedColours(g, col) {
        PrefixDown(UsedColours(g, col), c);
      }
    }
  }

  /** A proper colouring whose edge colours form a prefix is feasible for assignment_asymmetric. */
  lemma EncodePrefix(model: Model, g: Graph, h: nat, col: seq<nat>)
    requires AsymmetricShape(model, g, h) && ProperWithin(g, col, h) && PrefixColours(UsedColours(g, col))
    ensures Feasible(model, Encode(g, col, h))
    ensures Objective(model, Encode(g, col, h)) == |UsedColours(g, col)| as real
  {
    var x := Encode(g, col, h);
    AsymmetricFeasibleIff(model, g, h, x);
    EncodeObjective(Base(model, g, h), g, h, col);
    EncodePaidUsed(g, col, h);
    EncodePaidPrefix(g, col, h);
  }

  // ---------------------------------------------------------------- moving edge colours down to a prefix

  /** The colours 0, ..., k - 1. */
  ghost function Below(k: nat): set<nat> {
    set d | d in Naturals(k)
  }

  lemma {:induction false} BelowCard(k: nat)
    ensures |Below(k)| == k
  {
    if k > 0 {
      BelowCard(k - 1);
      assert Below(k) == Below(k - 1) + {k - 1};
    }
  }

  /** A prefix of the colours holds every colour below its size. */
  lemma PrefixIsBelow(s: set<nat>)
    requires PrefixColours(s)
    ensures s == Below(|s|)
  {
    var b := Below(|s|);
    BelowCard(|s|);
    forall c | c in s ensures c in b {
      assert Naturals(|s|)[c] == c;
    }
    assert b == s + (b - s);
    assert |b - s| == 0;
  }

  /** In a prefix, the colour before a used colour is used too. */
  lemma PrefixDown(s: set<nat>, c: nat)
    requires PrefixColours(s) && c in s && c >= 1
    ensures c - 1 in s
  {
    PrefixIsBelow(s);
    assert c < |s| && Naturals(|s|)[c - 1] == c - 1;
  }

  /** A set of colours that is not a prefix misses a colour below its size. */
  lemma FreeColour(s: set<nat>) returns (c: nat, d: nat)
    requires !PrefixColours(s)
    ensures c in s && |s| <= c && d < |s| && d !in s
  {
    c :| c in s && |s| <= c;
    var low := s * Below(|s|);
    var b := Below(|s|);
    BelowCard(|s|);
    assert s == low + (s - low) && c in s - low;
    assert b == low + (b - low);
    d :| d in b - low;
  }

  /** Recolour every vertex of colour c with d. */
  function Recolour(col: seq<nat>, c: nat, d: nat): (r: seq<nat>)
    ensures |r| == |col| && forall v :: 0 <= v < |col| ==> r[v] == if col[v] == c then d else col[v]
  {
    seq(|col|, v requires 0 <= v < |col| => if col[v] == c then d else col[v])
  }

  /** Recolouring with a colour d below h that no edge uses keeps the colouring proper. */
  lemma RecolourProper(g: Graph, col: seq<nat>, h: nat, c: nat, d: nat)
    requires ProperWithin(g, col, h) && d < h && d !in UsedColours(g, col)
    ensures ProperWithin(g, Recolour(col, c, d), h)
  {
    var r := Recolour(col, c, d);
    forall k | 0 <= k < |g.edges| ensures r[g.edges[k].0] != r[g.edges[k].1] {
      var u, w := g.edges[k].0, g.edges[k].1;
      assert Touched(g, u) && Touched(g, w);
      assert col[u] in UsedColours(g, col) && col[w] in UsedColours(g, col);
    }
  }

  /** ... and it trades colour c for d among the colours used on edges. */
  lemma RecolourUsed(g: Graph, col: seq<nat>, c: nat, d: nat)
    requires |col| == g.n && c in UsedColours(g, col) && d !in UsedColours(g, col)
    ensures UsedColours(g, Recolour(col, c, d)) == (UsedColours(g, col) - {c}) + {d}
    ensures |UsedColours(g, Recolour(col, c, d))| == |UsedColours(g, col)|
  {
    var used, r := UsedColours(g, col), Recolour(col, c, d);
    forall e | e in UsedColours(g, r) ensures e in (used - {c}) + {d} {
      var v :| 0 <= v < |r| && Touched(g, v) && r[v] == e;
      assert col[v] in used;
    }
    forall e | e in (used - {c}) + {d} ensures e in UsedColours(g, r) {
      if e == d {
        var v :| 0 <= v < |col| && Touched(g, v) && col[v] == c;
        assert r[v] == e;
      } else {
        var v :| 0 <= v < |col| && Touched(g, v) && col[v] == e;
        assert r[v] == e;
      }
    }
  }

  /** ... and, d being below c, it lowers the sum of all colours. */
  lemma RecolourLowers(g: Graph, col: seq<nat>, c: nat, d: nat)
    requires d < c && c in UsedColours(g, col)
    ensures Sum(Recolour(col, c, d)) < Sum(col)
  {
    var v :| 0 <= v < |col| && Touched(g, v) && col[v] == c;
    SumMono(Recolour(col, c, d), col, v);
  }

  /** Every proper colouring can be renumbered so that its edge colours form a prefix, using as many. */
  lemma {:induction false} PrefixColouring(g: Graph, col: seq<nat>, h: nat) returns (r: seq<nat>)
    requires ProperWithin(g, col, h)
    ensures ProperWithin(g, r, h) && PrefixColours(UsedColours(g, r))
    ensures |UsedColours(g, r)| == |UsedColours(g, col)|
    decreases Sum(col)
  {
    if PrefixColours(UsedColours(g, col)) {
      r := col;
    } else {
      var c, d := FreeColour(UsedColours(g, col));
      var v :| 0 <= v < |col| && Touched(g, v) && col[v] == c;
      assert d < h;
      var next := Recolour(col, c, d);
      RecolourProper(g, col, h, c, d);
      RecolourUsed(g, col, c, d);
      RecolourLowers(g, col, c, d);
      assert Sum(next) < Sum(col);
      SumNonNegative(next);
      r := PrefixColouring(g, next, h);
    }
  }

  /** Every proper colouring is matched, after renumbering, by a feasible point paying as many colours. */
  lemma EncodeRenumbered(model: Model, g: Graph, h: nat, col: seq<nat>) returns (x: seq<int>)
    requires AsymmetricShape(model, g, h) && ProperWithin(g, col, h)
    ensures Feasible(model, x) && Objective(model, x) == |UsedColours(g, col)| as real
  {
    var r := PrefixColouring(g, col, h);
    EncodePrefix(model, g, h, r);
    x := Encode(g, r, h);
  }

  lemma AsymmetricFewestIsOptimum(model: Model, g: Graph, h: nat, v: nat)
    requires AsymmetricShape(model, g, h) && FewestColours(g, h, v)
    ensures IsOptimum(model, v as real)
  {
    var col :| ProperWithin(g, col, h) && |UsedColours(g, col)| == v;
    var best := EncodeRenumbered(model, g, h, col);
    forall x | Feasible(model, x) ensures Better(model, v as real, Objective(model, x)) {
      AsymmetricAtLeast(model, g, h, x, v);
    }
  }

  lemma AsymmetricOptimumIsFewest(model: Model, g: Graph, h: nat, r: real)
    requires AsymmetricShape(model, g, h) && IsOptimum(model, r)
    ensures exists v: nat :: r == v as real && FewestColours(g, h, v)
  {
    var best :| Feasible(model, best) && Objective(model, best) == r;
    AsymmetricFeasibleIff(model, g, h, best);
    FeasibleBound(Base(model, g, h), g, h, best);
    var col := Decode(best, g.n, h);
    var v := |UsedColours(g, col)|;
    var y := EncodeRenumbered(model, g, h, col);
    assert Better(model, r, Objective(model, y));
    forall other | ProperWithin(g, other, h) ensures v <= |UsedColours(g, other)| {
      var z := EncodeRenumbered(model, g, h, other);
      assert Better(model, r, Objective(model, z));
    }
    assert FewestColours(g, h, v);
  }

  /**
   * Symmetry breaking keeps the optimum: assignment_asymmetric has exactly the
   * optimum of assignment, the fewest colours on the ends of the edges.
   */
  lemma AsymmetricOptimum(model: Model, lg: Labelled<int>, h: nat, name: string, r: real)
    requires IsAsymmetricModel(model, lg, h, name)
    ensures IsOptimum(model, r) <==> exists v: nat :: r == v as real && FewestColours(Relabel(lg), h, v)
  {
    AsymmetricModelShape(model, lg, h, name);
    if IsOptimum(model, r) {
      AsymmetricOptimumIsFewest(model, Relabel(lg), h, r);
    }
    forall v: nat | r == v as real && FewestColours(Relabel(lg), h, v) ensures IsOptimum(model, r) {
      AsymmetricFewestIsOptimum(model, Relabel(lg), h, v);
    }
  }

  /** assignment_asymmetric(nx.cycle_graph(5), 5): 30 variables, 39 constraints, optimum 3. */
  lemma AsymmetricCycle5(model: Model, name: string)
    requires IsAsymmetricModel(model, Cycle5Labelled(), 5, name)
    ensures model.NumVars() == 30 && model.NumConss() == 39 && IsOptimum(model, 3.0)
  {
    Cycle5Relabel();
    AsymmetricModelShape(model, Cycle5Labelled(), 5, name);
    AsymmetricWellFormed(model, Cycle5(), 5);
    Cycle5Fewest();
    Cycle5Colouring();
    var col: seq<nat> := [0, 1, 0, 1, 2];
    Cycle5Prefix();
    EncodePrefix(model, Cycle5(), 5, col);
    forall x | Feasible(model, x) ensures Better(model, 3.0, Objective(model, x)) {
      AsymmetricAtLeast(model, Cycle5(), 5, x, 3);
    }
  }

  lemma Cycle5Prefix()
    ensures PrefixColours(UsedColours(Cycle5(), [0, 1, 0, 1, 2]))
  {
    Cycle5Colouring();
    PrefixOfThree(UsedColours(Cycle5(), [0, 1, 0, 1, 2]));
  }

  lemma PrefixOfThree(s: set<nat>)
    requires s == {0, 1, 2}
    ensures PrefixColours(s)
  {
  }
}
