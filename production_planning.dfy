/**
 * geco/mips/production_planning/generic.py (and the identical builder of the
 * legacy geco/mips/production_planning.py): uncapacitated lot sizing over the
 * steps 0..T. Per step an integer production x_i, a binary set-up y_i and an
 * integer storage s_i, created in that order, so step i owns the handles
 * 3i, 3i+1, 3i+2; x_0 is then deleted. As the code has it, y_i is priced by
 * h[i] and s_i by q[i].
 */
module ProductionPlanning {
  import opened Common
  import opened Mip
  import Naming

  function ProductionVar(i: nat, p: seq<real>): Var requires i < |p| { IntegerVar("x_" + Naming.NatToString(i), p[i]) }
  function SetupVar(i: nat, h: seq<real>): Var requires i < |h| { BinaryVar("y_" + Naming.NatToString(i), h[i]) }
  function StorageVar(i: nat, q: seq<real>): Var requires i < |q| { IntegerVar("s_" + Naming.NatToString(i), q[i]) }

  /** s_{i-1} + x_i == d[i] + s_i, with the variables moved to the left. */
  function FlowCons(i: nat, d: seq<real>): Cons
    requires 1 <= i < |d|
  {
    Cons(Quicksum([(3 * (i - 1) + 2, 1.0), (3 * i, 1.0), (3 * i + 2, -1.0)]), Eq, d[i])
  }

  /** x_i <= M * y_i, with the variables moved to the left. */
  function LotCons(i: nat, bigM: real): Cons {
    Cons(Quicksum([(3 * i, 1.0), (3 * i + 1, -bigM)]), Le, 0.0)
  }

  /** s_t == value */
  function StorageCons(t: nat, value: real): Cons {
    Cons(Quicksum([(3 * t + 2, 1.0)]), Eq, value)
  }

  /** Python reads p, h, q at 0..T and d at 1..T. */
  predicate InputsFit(horizon: nat, p: seq<real>, h: seq<real>, q: seq<real>, d: seq<real>) {
    horizon < |p| && horizon < |h| && horizon < |q| && (horizon == 0 || horizon < |d|)
  }

  /** Step i's three variables sit at 3i, 3i+1, 3i+2. */
  predicate StepVars(vars: seq<Var>, i: nat, p: seq<real>, h: seq<real>, q: seq<real>)
    requires i < |p| && i < |h| && i < |q|
  {
    3 * i + 2 < |vars| &&
    vars[3 * i] == ProductionVar(i, p) && vars[3 * i + 1] == SetupVar(i, h) && vars[3 * i + 2] == StorageVar(i, q)
  }

  /** Step i >= 1's two constraints sit at 2(i-1) and 2(i-1)+1. */
  predicate StepConss(conss: seq<Cons>, i: nat, bigM: real, d: seq<real>)
    requires 1 <= i < |d|
  {
    2 * (i - 1) + 1 < |conss| &&
    conss[2 * (i - 1)] == FlowCons(i, d) && conss[2 * (i - 1) + 1] == LotCons(i, bigM)
  }

  /** The model uncapacitated_lot_sizing(T, M, initial, final, p, h, q, d, name) builds. */
  ghost predicate IsLotSizingModel(model: Model, horizon: nat, bigM: real, initial: real, final: real,
                                   p: seq<real>, h: seq<real>, q: seq<real>, d: seq<real>, name: string) {
    InputsFit(horizon, p, h, q, d) &&
    model.name == name && model.sense == Minimize && model.removed == {0} &&
    |model.vars| == 3 * (horizon + 1) &&
    (forall i :: 0 <= i <= horizon ==> StepVars(model.vars, i, p, h, q)) &&
    |model.conss| == 2 * horizon + 2 &&
    (forall i :: 1 <= i <= horizon ==> StepConss(model.conss, i, bigM, d)) &&
    model.conss[2 * horizon] == StorageCons(0, initial) &&
    model.conss[2 * horizon + 1] == StorageCons(horizon, final)
  }

  method UncapacitatedLotSizing(horizon: nat, bigM: real, initial: real, final: real,
                                p: seq<real>, h: seq<real>, q: seq<real>, d: seq<real>, name: string)
    returns (model: Model)
    requires InputsFit(horizon, p, h, q, d)
    ensures IsLotSizingModel(model, horizon, bigM, initial, final, p, h, q, d, name) && model.WellFormed()
    ensures model.NumVars() == 3 * (horizon + 1) - 1 && model.NumConss() == 2 * horizon + 2
  {
    model := AddStepVars(NewModel(name), horizon, p, h, q);
    model := model.DelVar(0);
    model := AddStepConss(model, horizon, bigM, d);
    ghost var steps := model.conss;
    model := model.AddCons(StorageCons(0, initial));
    model := model.AddCons(StorageCons(horizon, final));
    forall j | 1 <= j <= horizon ensures StepConss(model.conss, j, bigM, d) {
      assert StepConss(steps, j, bigM, d);
    }
    model := model.SetSense(Minimize);
    WellFormedLotSizing(model, horizon, bigM, initial, final, p, h, q, d, name);
  }

  /** The loop over range(T + 1) creating x_i, y_i, s_i. */
  method AddStepVars(m0: Model, horizon: nat, p: seq<real>, h: seq<real>, q: seq<real>) returns (model: Model)
    requires m0.vars == [] && horizon < |p| && horizon < |h| && horizon < |q|
    ensures model == m0.(vars := model.vars) && |model.vars| == 3 * (horizon + 1)
    ensures forall j :: 0 <= j <= horizon ==> StepVars(model.vars, j, p, h, q)
  {
    model := m0;
    var i := 0;
    while i <= horizon
      invariant 0 <= i <= horizon + 1
      invariant model == m0.(vars := model.vars) && |model.vars| == 3 * i
      invariant forall j :: 0 <= j < i ==> StepVars(model.vars, j, p, h, q)
    {
      ghost var before := model.vars;
      model := model.AddVar(ProductionVar(i, p));
      model := model.AddVar(SetupVar(i, h));
      model := model.AddVar(StorageVar(i, q));
      assert StepVars(model.vars, i, p, h, q);
      forall j | 0 <= j < i ensures StepVars(model.vars, j, p, h, q) {
        assert StepVars(before, j, p, h, q);
      }
      i := i + 1;
    }
  }

  /** The loop over range(1, T + 1) adding the flow and the set-up constraint of each step. */
  method AddStepConss(m0: Model, horizon: nat, bigM: real, d: seq<real>) returns (model: Model)
    requires m0.conss == [] && (horizon == 0 || horizon < |d|)
    ensures model == m0.(conss := model.conss) && |model.conss| == 2 * horizon
    ensures forall j :: 1 <= j <= horizon ==> StepConss(model.conss, j, bigM, d)
  {
    model := m0;
    var t := 1;
    while t <= horizon
      invariant 1 <= t <= horizon + 1
      invariant model == m0.(conss := model.conss) && |model.conss| == 2 * (t - 1)
      invariant forall j :: 1 <= j < t ==> StepConss(model.conss, j, bigM, d)
    {
      ghost var before := model.conss;
      model := model.AddCons(FlowCons(t, d));
      model := model.AddCons(LotCons(t, bigM));
      assert StepConss(model.conss, t, bigM, d);
      forall j | 1 <= j < t ensures StepConss(model.conss, j, bigM, d) {
        assert StepConss(before, j, bigM, d);
      }
      t := t + 1;
    }
  }

  /** No constraint mentions the deleted x_0. */
  lemma WellFormedLotSizing(model: Model, horizon: nat, bigM: real, initial: real, final: real,
                            p: seq<real>, h: seq<real>, q: seq<real>, d: seq<real>, name: string)
    requires IsLotSizingModel(model, horizon, bigM, initial, final, p, h, q, d, name)
    ensures model.WellFormed()
  {
    forall k, v | 0 <= k < |model.conss| && v in model.conss[k].expr ensures model.IsLive(v) {
      if k < 2 * horizon {
        var i := k / 2 + 1;
        assert StepConss(model.conss, i, bigM, d);
        if k % 2 == 0 {
          assert model.conss[k] == FlowCons(i, d);
          KeysOfTriple(3 * (i - 1) + 2, 3 * i, 3 * i + 2, 1.0, 1.0, -1.0);
        } else {
          assert model.conss[k] == LotCons(i, bigM);
          KeysOfPair(3 * i, 3 * i + 1, 1.0, -bigM);
        }
      } else if k == 2 * horizon {
        KeysOfSingle(2, 1.0);
      } else {
        KeysOfSingle(3 * horizon + 2, 1.0);
      }
    }
  }

  /** Production (from step 1) and storage non-negative, set-ups 0/1. */
  predicate DomainOk(x: seq<int>, horizon: nat)
    requires |x| == 3 * (horizon + 1)
  {
    (forall i :: 1 <= i <= horizon ==> x[3 * i] >= 0) &&
    (forall i :: 0 <= i <= horizon ==> 0 <= x[3 * i + 1] <= 1 && x[3 * i + 2] >= 0)
  }

  /** Step i balances storage against demand and produces only after a set-up, up to M. */
  predicate StepOk(x: seq<int>, i: nat, bigM: real, d: seq<real>)
    requires 1 <= i < |d| && 3 * i + 2 < |x|
  {
    (x[3 * (i - 1) + 2] + x[3 * i] - x[3 * i + 2]) as real == d[i] &&
    (x[3 * i] as real) <= bigM * (x[3 * i + 1] as real)
  }

  /** The lot-sizing conditions on a plan x laid out as (x_i, y_i, s_i) per step. */
  predicate PlanOk(x: seq<int>, horizon: nat, bigM: real, initial: real, final: real, d: seq<real>)
    requires |x| == 3 * (horizon + 1) && (horizon == 0 || horizon < |d|)
  {
    DomainOk(x, horizon) &&
    (forall i :: 1 <= i <= horizon ==> StepOk(x, i, bigM, d)) &&
    x[2] as real == initial && x[3 * horizon + 2] as real == final
  }

  lemma BoundsMeaning(model: Model, horizon: nat, bigM: real, initial: real, final: real,
                      p: seq<real>, h: seq<real>, q: seq<real>, d: seq<real>, name: string, x: seq<int>)
    requires IsLotSizingModel(model, horizon, bigM, initial, final, p, h, q, d, name) && |x| == 3 * (horizon + 1)
    ensures (forall v :: 0 <= v < |x| && v !in model.removed ==> InBounds(model.vars[v], x[v])) <==> DomainOk(x, horizon)
  {
    if forall v :: 0 <= v < |x| && v !in model.removed ==> InBounds(model.vars[v], x[v]) {
      forall i | 1 <= i <= horizon ensures x[3 * i] >= 0 {
        assert StepVars(model.vars, i, p, h, q);
        assert InBounds(model.vars[3 * i], x[3 * i]);
      }
      forall i | 0 <= i <= horizon ensures 0 <= x[3 * i + 1] <= 1 && x[3 * i + 2] >= 0 {
        assert StepVars(model.vars, i, p, h, q);
        assert InBounds(model.vars[3 * i + 1], x[3 * i + 1]);
        assert InBounds(model.vars[3 * i + 2], x[3 * i + 2]);
      }
    }
    if DomainOk(x, horizon) {
      forall v | 0 <= v < |x| && v !in model.removed ensures InBounds(model.vars[v], x[v]) {
        var i := v / 3;
        assert StepVars(model.vars, i, p, h, q);
        if v % 3 == 0 { assert v == 3 * i && i >= 1; }
        else if v % 3 == 1 { assert v == 3 * i + 1; }
        else { assert v == 3 * i + 2; }
      }
    }
  }

  lemma StepMeaning(model: Model, horizon: nat, bigM: real, initial: real, final: real,
                    p: seq<real>, h: seq<real>, q: seq<real>, d: seq<real>, name: string, x: seq<int>, i: nat)
    requires IsLotSizingModel(model, horizon, bigM, initial, final, p, h, q, d, name) && |x| == 3 * (horizon + 1)
    requires 1 <= i <= horizon
    ensures Satisfies(model.conss[2 * (i - 1)], x) && Satisfies(model.conss[2 * (i - 1) + 1], x)
            <==> StepOk(x, i, bigM, d)
  {
    assert StepConss(model.conss, i, bigM, d);
    EvalTriple(3 * (i - 1) + 2, 3 * i, 3 * i + 2, 1.0, 1.0, -1.0, x);
    EvalPair(3 * i, 3 * i + 1, 1.0, -bigM, x);
  }

  lemma ConssMeaning(model: Model, horizon: nat, bigM: real, initial: real, final: real,
                     p: seq<real>, h: seq<real>, q: seq<real>, d: seq<real>, name: string, x: seq<int>)
    requires IsLotSizingModel(model, horizon, bigM, initial, final, p, h, q, d, name) && |x| == 3 * (horizon + 1)
    ensures (forall k :: 0 <= k < |model.conss| ==> Satisfies(model.conss[k], x))
            <==> (forall i :: 1 <= i <= horizon ==> StepOk(x, i, bigM, d)) &&
                 x[2] as real == initial && x[3 * horizon + 2] as real == final
  {
    EvalSingle(2, 1.0, x);
    EvalSingle(3 * horizon + 2, 1.0, x);
    forall i | 1 <= i <= horizon
      ensures Satisfies(model.conss[2 * (i - 1)], x) && Satisfies(model.conss[2 * (i - 1) + 1], x)
              <==> StepOk(x, i, bigM, d)
    {
      StepMeaning(model, horizon, bigM, initial, final, p, h, q, d, name, x, i);
    }
    if (forall i :: 1 <= i <= horizon ==> StepOk(x, i, bigM, d)) &&
       x[2] as real == initial && x[3 * horizon + 2] as real == final {
      forall k | 0 <= k < |model.conss| ensures Satisfies(model.conss[k], x) {
        if k < 2 * horizon {
          var i := k / 2 + 1;
          assert StepOk(x, i, bigM, d);
          if k % 2 == 0 { assert k == 2 * (i - 1); } else { assert k == 2 * (i - 1) + 1; }
        } else if k == 2 * horizon {
          assert model.conss[k] == StorageCons(0, initial);
        } else {
          assert model.conss[k] == StorageCons(horizon, final);
        }
      }
    }
    if forall k :: 0 <= k < |model.conss| ==> Satisfies(model.conss[k], x) {
      assert Satisfies(model.conss[2 * horizon], x) && Satisfies(model.conss[2 * horizon + 1], x);
    }
  }

  /**
   * The meaning of the formulation: a plan is feasible exactly when
   * production and storage are non-negative, set-ups are 0/1, storage
   * balances demand at every step 1..T, production happens only after a
   * set-up and only up to M, and the storage starts and ends at the given
   * levels. The deleted x_0 is unconstrained.
   */
  lemma FeasibleIffPlan(model: Model, horizon: nat, bigM: real, initial: real, final: real,
                        p: seq<real>, h: seq<real>, q: seq<real>, d: seq<real>, name: string, x: seq<int>)
    requires IsLotSizingModel(model, horizon, bigM, initial, final, p, h, q, d, name)
    ensures Feasible(model, x) <==> |x| == 3 * (horizon + 1) && PlanOk(x, horizon, bigM, initial, final, d)
  {
    if |x| == 3 * (horizon + 1) {
      BoundsMeaning(model, horizon, bigM, initial, final, p, h, q, d, name, x);
      ConssMeaning(model, horizon, bigM, initial, final, p, h, q, d, name, x);
    }
  }
}

/**
 * geco/mips/production_planning/tang.py (and the identical generator of the
 * legacy geco/mips/production_planning.py): parameters after Tang et al. —
 * M = 100, storage from 0 to 20, and for every step 0..T one draw in [1, 10]
 * each for p, h, q and d, interleaved step by step.
 */
module ProductionPlanningTang {
  import opened Common
  import opened Mip
  import opened Rand
  import ProductionPlanning

  const BigM: int := 100
  const InitialStorage: int := 0
  const FinalStorage: int := 20

  /** Per step four randint(1, 10) draws, for p, h, q and d in that order. */
  ghost predicate StepsDrawn(draws: seq<Draw>, p: seq<int>, h: seq<int>, q: seq<int>, d: seq<int>) {
    |h| == |p| && |q| == |p| && |d| == |p| && |draws| == 4 * |p| &&
    forall i :: 0 <= i < |p| ==>
      draws[4 * i] == IntDraw(1, 10, p[i]) && draws[4 * i + 1] == IntDraw(1, 10, h[i]) &&
      draws[4 * i + 2] == IntDraw(1, 10, q[i]) && draws[4 * i + 3] == IntDraw(1, 10, d[i])
  }

  predicate InRange(s: seq<int>) { forall i :: 0 <= i < |s| ==> 1 <= s[i] <= 10 }

  method TangParams(horizon: nat, s: Sampler)
    returns (bigM: int, initial: int, final: int, p: seq<int>, h: seq<int>, q: seq<int>, d: seq<int>,
             ghost draws: seq<Draw>)
    requires s.Valid()
    modifies s
    ensures s.Valid() && s.log == old(s.log) + draws
    ensures bigM == BigM && initial == InitialStorage && final == FinalStorage
    ensures |p| == horizon + 1 && StepsDrawn(draws, p, h, q, d)
    ensures InRange(p) && InRange(h) && InRange(q) && InRange(d)
  {
    bigM, initial, final := BigM, InitialStorage, FinalStorage;
    p, h, q, d, draws := [], [], [], [], [];
    var i := 0;
    while i <= horizon
      invariant 0 <= i <= horizon + 1 && |p| == i
      invariant s.Valid() && s.log == old(s.log) + draws && StepsDrawn(draws, p, h, q, d)
      invariant InRange(p) && InRange(h) && InRange(q) && InRange(d)
    {
      var a := s.RandInt(1, 10);
      var b := s.RandInt(1, 10);
      var c := s.RandInt(1, 10);
      var e := s.RandInt(1, 10);
      ghost var before := draws;
      p, h, q, d := p + [a], h + [b], q + [c], d + [e];
      draws := draws + [IntDraw(1, 10, a), IntDraw(1, 10, b), IntDraw(1, 10, c), IntDraw(1, 10, e)];
      forall j | 0 <= j < i
        ensures draws[4 * j] == before[4 * j] && draws[4 * j + 1] == before[4 * j + 1]
        ensures draws[4 * j + 2] == before[4 * j + 2] && draws[4 * j + 3] == before[4 * j + 3]
      {
      }
      i := i + 1;
    }
  }

  /** Lists read off draws answered from the same raw rows are the same. */
  lemma StepsDeterministic(stream: nat -> Raw, b: nat,
                           d1: seq<Draw>, p1: seq<int>, h1: seq<int>, q1: seq<int>, e1: seq<int>,
                           d2: seq<Draw>, p2: seq<int>, h2: seq<int>, q2: seq<int>, e2: seq<int>)
    requires StepsDrawn(d1, p1, h1, q1, e1) && StepsDrawn(d2, p2, h2, q2, e2) && |p1| == |p2|
    requires ExplainedFrom(stream, b, d1) && ExplainedFrom(stream, b, d2)
    ensures p1 == p2 && h1 == h2 && q1 == q2 && e1 == e2
  {
    forall i | 0 <= i < |p1| ensures p1[i] == p2[i] && h1[i] == h2[i] && q1[i] == q2[i] && e1[i] == e2[i] {
      SameRawSameDraw(d1[4 * i], d2[4 * i], stream(b + 4 * i));
      SameRawSameDraw(d1[4 * i + 1], d2[4 * i + 1], stream(b + (4 * i + 1)));
      SameRawSameDraw(d1[4 * i + 2], d2[4 * i + 2], stream(b + (4 * i + 2)));
      SameRawSameDraw(d1[4 * i + 3], d2[4 * i + 3], stream(b + (4 * i + 3)));
    }
  }

  /** tang_instance: the lot-sizing model of freshly drawn parameters, named "Tang Production Planning". */
  method TangInstance(horizon: nat, s: Sampler)
    returns (model: Model, ghost p: seq<int>, ghost h: seq<int>, ghost q: seq<int>, ghost d: seq<int>)
    requires s.Valid()
    modifies s
    ensures s.Valid() && |p| == horizon + 1 && InRange(p) && InRange(h) && InRange(q) && InRange(d)
    ensures ProductionPlanning.IsLotSizingModel(model, horizon, BigM as real, InitialStorage as real, FinalStorage as real,
                                                ToReals(p), ToReals(h), ToReals(q), ToReals(d), "Tang Production Planning")
  {
    var bigM, initial, final, p', h', q', d', _ := TangParams(horizon, s);
    p, h, q, d := p', h', q', d';
    model := ProductionPlanning.UncapacitatedLotSizing(horizon, bigM as real, initial as real, final as real,
                                                       ToReals(p'), ToReals(h'), ToReals(q'), ToReals(d'),
                                                       "Tang Production Planning");
  }
}
