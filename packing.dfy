/**
 * geco/mips/packing/generic.py (and the identical builder of the legacy
 * geco/mips/packing.py): the packing formulation. n variables priced by
 * costs, binary or unbounded non-negative integers; m constraints, the i-th
 * putting coefficient row i over all n variables below limits[i]; maximise.
 */
module Packing {
  import opened Common
  import opened Mip
  import Naming

  /** The variable v_i: binary with ub 1, or integer with no ub. */
  function PackingVar(i: nat, cost: real, binary: bool): Var {
    var name := "v_" + Naming.NatToString(i);
    if binary then BinaryVar(name, cost) else IntegerVar(name, cost)
  }

  /** Python indexes costs[i], coefficients[i][j] and limits[i] for i < m, j < n. */
  predicate InputsFit(n: nat, m: nat, costs: seq<real>, coefs: seq<seq<real>>, limits: seq<real>) {
    n <= |costs| && m <= |coefs| && m <= |limits| && forall i :: 0 <= i < m ==> n <= |coefs[i]|
  }

  /** The model packing(n, m, costs, coefs, limits, binary, name) builds. */
  ghost predicate IsPackingModel(model: Model, n: nat, m: nat, costs: seq<real>, coefs: seq<seq<real>>,
                                 limits: seq<real>, binary: bool, name: string) {
    InputsFit(n, m, costs, coefs, limits) &&
    model.name == name && model.removed == {} && model.sense == Maximize &&
    |model.vars| == n &&
    (forall i :: 0 <= i < n ==> model.vars[i] == PackingVar(i, costs[i], binary)) &&
    |model.conss| == m &&
    (forall i :: 0 <= i < m ==> model.conss[i] == Cons(Quicksum(LinearTerms(0, coefs[i][..n])), Le, limits[i]))
  }

  method Packing(n: nat, m: nat, costs: seq<real>, coefs: seq<seq<real>>, limits: seq<real>, binary: bool, name: string)
    returns (model: Model)
    requires InputsFit(n, m, costs, coefs, limits)
    ensures IsPackingModel(model, n, m, costs, coefs, limits, binary, name) && model.WellFormed()
  {
    model := NewModel(name);
    var i := 0;
    while i < n
      invariant 0 <= i <= n
      invariant model.name == name && model.removed == {} && model.sense == Minimize && model.conss == []
      invariant |model.vars| == i
      invariant forall j :: 0 <= j < i ==> model.vars[j] == PackingVar(j, costs[j], binary)
    {
      model := model.AddVar(PackingVar(i, costs[i], binary));
      i := i + 1;
    }
    var k := 0;
    while k < m
      invariant 0 <= k <= m
      invariant model.name == name && model.removed == {} && model.sense == Minimize
      invariant |model.vars| == n
      invariant forall j :: 0 <= j < n ==> model.vars[j] == PackingVar(j, costs[j], binary)
      invariant |model.conss| == k
      invariant forall j :: 0 <= j < k ==> model.conss[j] == Cons(Quicksum(LinearTerms(0, coefs[j][..n])), Le, limits[j])
    {
      var e := LinearSum(0, coefs[k][..n]);
      model := model.AddCons(Cons(e, Le, limits[k]));
      k := k + 1;
    }
    model := model.SetSense(Maximize);
    WellFormedPacking(model, n, m, costs, coefs, limits, binary, name);
  }

  lemma WellFormedPacking(model: Model, n: nat, m: nat, costs: seq<real>, coefs: seq<seq<real>>,
                          limits: seq<real>, binary: bool, name: string)
    requires IsPackingModel(model, n, m, costs, coefs, limits, binary, name)
    ensures model.WellFormed()
  {
    forall k, h | 0 <= k < m && h in model.conss[k].expr ensures model.IsLive(h) {
      LinearKeys(0, coefs[k][..n]);
    }
  }

  /** Every variable's bounds: 0 <= x, and x <= 1 when binary. */
  predicate InDomain(x: seq<int>, binary: bool) {
    forall j :: 0 <= j < |x| ==> 0 <= x[j] && (binary ==> x[j] <= 1)
  }

  /**
   * The meaning of the formulation: an assignment is feasible exactly when it
   * stays in the variables' domain and each weighted row sum is within its limit.
   */
  lemma FeasibleIffWithinLimits(model: Model, n: nat, m: nat, costs: seq<real>, coefs: seq<seq<real>>,
                                limits: seq<real>, binary: bool, name: string, x: seq<int>)
    requires IsPackingModel(model, n, m, costs, coefs, limits, binary, name)
    ensures Feasible(model, x) <==>
      (|x| == n && InDomain(x, binary) && forall i :: 0 <= i < m ==> Dot(0, coefs[i][..n], x) <= limits[i])
  {
    forall i | 0 <= i < m ensures Eval(model.conss[i].expr, x) == Dot(0, coefs[i][..n], x) {
      EvalLinear(0, coefs[i][..n], x);
    }
    if Feasible(model, x) {
      forall j | 0 <= j < |x| ensures 0 <= x[j] && (binary ==> x[j] <= 1) {
        assert InBounds(model.vars[j], x[j]);
      }
      forall i | 0 <= i < m ensures Dot(0, coefs[i][..n], x) <= limits[i] {
        assert Satisfies(model.conss[i], x);
      }
    }
    if |x| == n && InDomain(x, binary) && forall i :: 0 <= i < m ==> Dot(0, coefs[i][..n], x) <= limits[i] {
      forall j | 0 <= j < |x| ensures InBounds(model.vars[j], x[j]) {
        assert 0 <= x[j];
      }
    }
  }

  /** packing(1, 1, [1], [[1]], [5], binary=False) has optimum 5. */
  lemma SingleIntegerOptimum(model: Model, name: string)
    requires IsPackingModel(model, 1, 1, [1.0], [[1.0]], [5.0], false, name)
    ensures IsOptimum(model, 5.0)
  {
    var five := [5];
    assert [1.0][..1] == [1.0];
    FeasibleIffWithinLimits(model, 1, 1, [1.0], [[1.0]], [5.0], false, name, five);
    assert Dot(0, [1.0], five) == 5.0;
    assert Objective(model, five) == 5.0;
    assert [[1.0]][0][..1] == [1.0];
    forall x | Feasible(model, x) ensures Better(model, 5.0, Objective(model, x)) {
      FeasibleIffWithinLimits(model, 1, 1, [1.0], [[1.0]], [5.0], false, name, x);
      assert Dot(0, [1.0], x) == Dot(0, [], x) + 1.0 * (x[0] as real);
      assert Objective(model, x) == 1.0 * (x[0] as real) + ObjectiveFrom(model, x, 1);
    }
  }
}

/**
 * geco/mips/packing/tang.py (and the identical generator of the legacy
 * geco/mips/packing.py): parameters after Tang et al. — n costs in [1, 10],
 * then an m x n coefficient matrix drawn row by row, then m limits; the
 * coefficient and limit ranges depend on whether the variables are binary.
 */
module PackingTang {
  import opened Common
  import opened Mip
  import opened Rand
  import Packing

  function CoefLo(binary: bool): int { if binary then 5 else 0 }
  function CoefHi(binary: bool): int { if binary then 30 else 5 }
  function LimitLo(n: nat, binary: bool): int { if binary then 10 * n else 9 * n }
  function LimitHi(n: nat, binary: bool): int { if binary then 20 * n else 10 * n }

  /** The draws tang_params makes, in order: costs, then coefficient rows and limits. */
  ghost predicate TangDraws(n: nat, m: nat, binary: bool, draws: seq<Draw>,
                            costs: seq<int>, coefs: seq<seq<int>>, limits: seq<int>) {
    |draws| >= n && IntsDrawn(draws[..n], 1, 10, costs) && RowDraws(n, m, binary, draws[n..], coefs, limits)
  }

  /** The coefficient matrix row by row, then the m limits. */
  ghost predicate RowDraws(n: nat, m: nat, binary: bool, draws: seq<Draw>, coefs: seq<seq<int>>, limits: seq<int>) {
    var cells := n * m;
    |coefs| == m && |limits| == m && |draws| == cells + m &&
    RowsDrawn(draws[..cells], CoefLo(binary), CoefHi(binary), n, coefs) &&
    IntsDrawn(draws[cells..], LimitLo(n, binary), LimitHi(n, binary), limits)
  }

  /** What the paper promises of the parameters. */
  ghost predicate TangShape(n: nat, m: nat, binary: bool, costs: seq<int>, coefs: seq<seq<int>>, limits: seq<int>) {
    |costs| == n && |coefs| == m && |limits| == m &&
    (forall j :: 0 <= j < n ==> 1 <= costs[j] <= 10) &&
    (forall i :: 0 <= i < m ==> |coefs[i]| == n) &&
    (forall i, j :: 0 <= i < m && 0 <= j < |coefs[i]| ==> CoefLo(binary) <= coefs[i][j] <= CoefHi(binary)) &&
    (forall i :: 0 <= i < m ==> LimitLo(n, binary) <= limits[i] <= LimitHi(n, binary))
  }

  method TangParams(n: nat, m: nat, binary: bool, s: Sampler)
    returns (costs: seq<int>, coefs: seq<seq<int>>, limits: seq<int>, ghost draws: seq<Draw>)
    requires s.Valid()
    modifies s
    ensures s.Valid() && s.log == old(s.log) + draws
    ensures TangDraws(n, m, binary, draws, costs, coefs, limits)
    ensures TangShape(n, m, binary, costs, coefs, limits)
  {
    ghost var start := s.log;
    ghost var costDraws, coefDraws, limitDraws;
    costs, costDraws := RandInts(s, 1, 10, n);
    assert s.log == start + costDraws;
    coefs, coefDraws := RandRows(s, CoefLo(binary), CoefHi(binary), n, m);
    assert s.log == start + costDraws + coefDraws;
    limits, limitDraws := RandInts(s, LimitLo(n, binary), LimitHi(n, binary), m);
    draws := costDraws + (coefDraws + limitDraws);
    assert s.log == start + draws;
    RowsDrawnShape(coefDraws, CoefLo(binary), CoefHi(binary), n, coefs);
    assert draws[..n] == costDraws && draws[n..] == coefDraws + limitDraws;
    assert (coefDraws + limitDraws)[..n * m] == coefDraws;
    assert (coefDraws + limitDraws)[n * m..] == limitDraws;
  }

  lemma CoefsDeterministic(n: nat, m: nat, binary: bool, stream: nat -> Raw, b: nat,
                             d1: seq<Draw>, a1: seq<seq<int>>, l1: seq<int>,
                             d2: seq<Draw>, a2: seq<seq<int>>, l2: seq<int>)
    requires RowDraws(n, m, binary, d1, a1, l1) && RowDraws(n, m, binary, d2, a2, l2)
    requires ExplainedFrom(stream, b, d1) && ExplainedFrom(stream, b, d2)
    ensures a1 == a2 && l1 == l2
  {
    var cells := n * m;
    ExplainedSplit(stream, b, d1, cells);
    ExplainedSplit(stream, b, d2, cells);
    RowsDeterministic(stream, b, CoefLo(binary), CoefHi(binary), n, d1[..cells], a1, d2[..cells], a2);
    IntsDeterministic(stream, b + cells, LimitLo(n, binary), LimitHi(n, binary), d1[cells..], l1, d2[cells..], l2);
  }

  /** Parameters read off draws answered from the same raw rows are the same. */
  lemma TangDeterministic(n: nat, m: nat, binary: bool, stream: nat -> Raw, b: nat,
                          d1: seq<Draw>, c1: seq<int>, a1: seq<seq<int>>, l1: seq<int>,
                          d2: seq<Draw>, c2: seq<int>, a2: seq<seq<int>>, l2: seq<int>)
    requires TangDraws(n, m, binary, d1, c1, a1, l1) && TangDraws(n, m, binary, d2, c2, a2, l2)
    requires ExplainedFrom(stream, b, d1) && ExplainedFrom(stream, b, d2)
    ensures c1 == c2 && a1 == a2 && l1 == l2
  {
    ExplainedSplit(stream, b, d1, n);
    ExplainedSplit(stream, b, d2, n);
    IntsDeterministic(stream, b, 1, 10, d1[..n], c1, d2[..n], c2);
    CoefsDeterministic(n, m, binary, stream, b + n, d1[n..], a1, l1, d2[n..], a2, l2);
  }

  /** Samplers in the same state (same seed, same number of draws so far) give the same parameters. */
  method SameSeedSameParams(n: nat, m: nat, binary: bool, s1: Sampler, s2: Sampler)
    returns (p1: (seq<int>, seq<seq<int>>, seq<int>), p2: (seq<int>, seq<seq<int>>, seq<int>))
    requires s1 != s2 && s1.Valid() && s2.Valid() && s1.stream == s2.stream && s1.pos == s2.pos
    modifies s1, s2
    ensures p1 == p2
  {
    ghost var start1, start2 := s1.log, s2.log;
    var c1, a1, l1, d1 := TangParams(n, m, binary, s1);
    var c2, a2, l2, d2 := TangParams(n, m, binary, s2);
    NewDrawsExplained(s1.stream, start1, d1);
    NewDrawsExplained(s2.stream, start2, d2);
    TangDeterministic(n, m, binary, s1.stream, |start1|, d1, c1, a1, l1, d2, c2, a2, l2);
    p1, p2 := (c1, a1, l1), (c2, a2, l2);
  }

  function RowsToReals(rows: seq<seq<int>>): (r: seq<seq<real>>)
    ensures |r| == |rows| && forall i :: 0 <= i < |rows| ==> r[i] == ToReals(rows[i])
  {
    seq(|rows|, i requires 0 <= i < |rows| => ToReals(rows[i]))
  }

  /** tang_instance: the packing model of freshly drawn parameters, named "Tang Packing". */
  method TangInstance(n: nat, m: nat, binary: bool, s: Sampler)
    returns (model: Model, ghost costs: seq<int>, ghost coefs: seq<seq<int>>, ghost limits: seq<int>)
    requires s.Valid()
    modifies s
    ensures s.Valid() && TangShape(n, m, binary, costs, coefs, limits)
    ensures Packing.IsPackingModel(model, n, m, ToReals(costs), RowsToReals(coefs), ToReals(limits), binary, "Tang Packing")
  {
    var c, a, l, _ := TangParams(n, m, binary, s);
    costs, coefs, limits := c, a, l;
    model := Packing.Packing(n, m, ToReals(c), RowsToReals(a), ToReals(l), binary, "Tang Packing");
  }
}
