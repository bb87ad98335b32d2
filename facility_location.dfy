/**
 * geco/mips/facility_location/generic.py (and the legacy builder of
 * geco/mips/facility_location.py, which always uses the default name): the
 * capacitated facility location formulation. The c*f assignment variables
 * x_ij come first, in itertools.product order, so x_ij has handle i*f + j;
 * the f opening variables y_j follow at c*f + j.
 */
module FacilityLocation {
  import opened Common
  import opened Mip
  import Naming

  const DefaultName: string := "Capacitated Facility Location"

  function AssignVar(i: nat, j: nat, cost: seq<seq<real>>): Var
    requires i < |cost| && j < |cost[i]|
  {
    BinaryVar("x_" + Naming.NatToString(i) + "_" + Naming.NatToString(j), cost[i][j])
  }

  function OpenVar(j: nat, fixed: seq<real>): Var
    requires j < |fixed|
  {
    BinaryVar("y_" + Naming.NatToString(j), fixed[j])
  }

  function Ones(n: nat): (r: seq<real>)
    ensures |r| == n && forall k :: 0 <= k < n ==> r[k] == 1.0
  {
    seq(n, k => 1.0)
  }

  /** The terms demands[i] * x_ij for i < c, in customer order. */
  function LoadTerms(j: nat, c: nat, f: nat, demands: seq<real>): (ts: seq<Term>)
    requires c <= |demands|
    ensures |ts| == c && forall i :: 0 <= i < c ==> ts[i] == (Offset(i, f) + j, demands[i])
  {
    seq(c, i requires 0 <= i < c => (Offset(i, f) + j, demands[i]))
  }

  /** Σ_j x_ij >= 1: customer i is served. */
  function DemandCons(i: nat, f: nat): Cons {
    Cons(Quicksum(LinearTerms(Offset(i, f), Ones(f))), Ge, 1.0)
  }

  /** Σ_i demands[i] * x_ij <= capacities[j] * y_j, with the variables moved to the left. */
  function CapacityCons(j: nat, c: nat, f: nat, demands: seq<real>, caps: seq<real>): Cons
    requires c <= |demands| && j < |caps|
  {
    Cons(Quicksum(LoadTerms(j, c, f, demands) + [(Offset(c, f) + j, -caps[j])]), Le, 0.0)
  }

  /** Σ_j capacities[j] * y_j >= demands.sum() */
  function TotalCons(c: nat, f: nat, demands: seq<real>, caps: seq<real>): Cons
    requires f <= |caps|
  {
    Cons(Quicksum(LinearTerms(Offset(c, f), caps[..f])), Ge, SumReals(demands))
  }

  /** x_ij <= y_j */
  function LinkCons(i: nat, j: nat, c: nat, f: nat): Cons {
    Cons(Quicksum([(Offset(i, f) + j, 1.0), (Offset(c, f) + j, -1.0)]), Le, 0.0)
  }

  /** Python reads cost[i, j], demands[i], fixed_costs[j] and capacities[j] for i < c, j < f. */
  predicate InputsFit(c: nat, f: nat, cost: seq<seq<real>>, demands: seq<real>, fixed: seq<real>, caps: seq<real>) {
    c <= |cost| && (forall i :: 0 <= i < c ==> f <= |cost[i]|) &&
    c <= |demands| && f <= |fixed| && f <= |caps|
  }

  /** x_ij sits at handle i*f + j (Offset(i, f) == i * f by OffsetIsProduct). */
  predicate AssignAt(vars: seq<Var>, i: nat, j: nat, f: nat, cost: seq<seq<real>>)
    requires i < |cost| && j < |cost[i]|
  {
    Offset(i, f) + j < |vars| && vars[Offset(i, f) + j] == AssignVar(i, j, cost)
  }

  /** The linking constraint of (i, j) follows the c + f + 1 others, at c + f + 1 + i*f + j. */
  predicate LinkAt(conss: seq<Cons>, i: nat, j: nat, c: nat, f: nat) {
    c + f + 1 + Offset(i, f) + j < |conss| && conss[c + f + 1 + Offset(i, f) + j] == LinkCons(i, j, c, f)
  }

  predicate AllBinary(vars: seq<Var>) {
    forall v :: 0 <= v < |vars| ==> vars[v].lb == 0.0 && vars[v].ub == Some(1.0)
  }

  /** The model capacitated_facility_location(c, f, cost, demands, fixed, caps, name) builds. */
  ghost predicate IsFacilityModel(model: Model, c: nat, f: nat, cost: seq<seq<real>>, demands: seq<real>,
                                  fixed: seq<real>, caps: seq<real>, name: string) {
    InputsFit(c, f, cost, demands, fixed, caps) &&
    model.name == name && model.sense == Minimize && model.removed == {} &&
    |model.vars| == Offset(c, f) + f && AllBinary(model.vars) &&
    (forall i, j :: 0 <= i < c && 0 <= j < f ==> AssignAt(model.vars, i, j, f, cost)) &&
    (forall j :: 0 <= j < f ==> model.vars[Offset(c, f) + j] == OpenVar(j, fixed)) &&
    |model.conss| == c + f + 1 + Offset(c, f) &&
    (forall i :: 0 <= i < c ==> model.conss[i] == DemandCons(i, f)) &&
    (forall j :: 0 <= j < f ==> model.conss[c + j] == CapacityCons(j, c, f, demands, caps)) &&
    model.conss[c + f] == TotalCons(c, f, demands, caps) &&
    (forall i, j :: 0 <= i < c && 0 <= j < f ==> LinkAt(model.conss, i, j, c, f))
  }

  /** quicksum(demands[i] * x_ij for i in range(c)) - capacities[j] * y_j */
  method LoadSum(j: nat, c: nat, f: nat, demands: seq<real>, caps: seq<real>) returns (e: Expr)
    requires c <= |demands| && j < |caps|
    ensures e == CapacityCons(j, c, f, demands, caps).expr
  {
    e := map[];
    var i := 0;
    while i < c
      invariant 0 <= i <= c
      invariant e == Quicksum(LoadTerms(j, i, f, demands))
    {
      assert LoadTerms(j, i + 1, f, demands)[..i] == LoadTerms(j, i, f, demands);
      e := Plus(e, Offset(i, f) + j, demands[i]);
      i := i + 1;
    }
    ghost var ts := LoadTerms(j, c, f, demands) + [(Offset(c, f) + j, -caps[j])];
    assert ts[..|ts| - 1] == LoadTerms(j, c, f, demands);
    e := Plus(e, Offset(c, f) + j, -caps[j]);
  }

  /** The assignment variables, for i, j in itertools.product(range(c), range(f)). */
  method AddAssignVars(model0: Model, c: nat, f: nat, cost: seq<seq<real>>) returns (model: Model)
    requires model0.vars == [] && c <= |cost| && forall i :: 0 <= i < c ==> f <= |cost[i]|
    ensures model == model0.(vars := model.vars) && |model.vars| == Offset(c, f) && AllBinary(model.vars)
    ensures forall i, j :: 0 <= i < c && 0 <= j < f ==> AssignAt(model.vars, i, j, f, cost)
  {
    model := model0;
    var i := 0;
    while i < c
      invariant 0 <= i <= c && model == model0.(vars := model.vars)
      invariant |model.vars| == Offset(i, f) && AllBinary(model.vars)
      invariant forall i', j' :: 0 <= i' < i && 0 <= j' < f ==> AssignAt(model.vars, i', j', f, cost)
    {
      var j := 0;
      while j < f
        invariant 0 <= j <= f && model == model0.(vars := model.vars)
        invariant |model.vars| == Offset(i, f) + j && AllBinary(model.vars)
        invariant forall i', j' :: 0 <= i' < i && 0 <= j' < f ==> AssignAt(model.vars, i', j', f, cost)
        invariant forall j' :: 0 <= j' < j ==> AssignAt(model.vars, i, j', f, cost)
      {
        ghost var before := model.vars;
        model := model.AddVar(AssignVar(i, j, cost));
        assert model.vars == before + [AssignVar(i, j, cost)];
        forall i', j' | 0 <= i' < i && 0 <= j' < f ensures AssignAt(model.vars, i', j', f, cost) {
          assert AssignAt(before, i', j', f, cost);
        }
        forall j' | 0 <= j' <= j ensures AssignAt(model.vars, i, j', f, cost) {
          if j' < j { assert AssignAt(before, i, j', f, cost); }
        }
        j := j + 1;
      }
      i := i + 1;
    }
  }

  /** The linking constraints x_ij <= y_j, again in product order. */
  method AddLinks(model0: Model, c: nat, f: nat) returns (model: Model)
    requires |model0.conss| == c + f + 1
    ensures model == model0.(conss := model.conss) && |model.conss| == |model0.conss| + Offset(c, f)
    ensures model.conss[..|model0.conss|] == model0.conss
    ensures forall i, j :: 0 <= i < c && 0 <= j < f ==> LinkAt(model.conss, i, j, c, f)
  {
    model := model0;
    var base := |model0.conss|;
    var i := 0;
    while i < c
      invariant 0 <= i <= c && model == model0.(conss := model.conss)
      invariant |model.conss| == base + Offset(i, f) && model.conss[..base] == model0.conss
      invariant forall i', j' :: 0 <= i' < i && 0 <= j' < f ==> LinkAt(model.conss, i', j', c, f)
    {
      var j := 0;
      while j < f
        invariant 0 <= j <= f && model == model0.(conss := model.conss)
        invariant |model.conss| == base + Offset(i, f) + j && model.conss[..base] == model0.conss
        invariant forall i', j' :: 0 <= i' < i && 0 <= j' < f ==> LinkAt(model.conss, i', j', c, f)
        invariant forall j' :: 0 <= j' < j ==> LinkAt(model.conss, i, j', c, f)
      {
        ghost var before := model.conss;
        model := model.AddCons(LinkCons(i, j, c, f));
        assert model.conss[..base] == before[..base];
        forall i', j' | 0 <= i' < i && 0 <= j' < f ensures LinkAt(model.conss, i', j', c, f) {
          assert LinkAt(before, i', j', c, f);
        }
        forall j' | 0 <= j' <= j ensures LinkAt(model.conss, i, j', c, f) {
          if j' < j { assert LinkAt(before, i, j', c, f); }
        }
        j := j + 1;
      }
      i := i + 1;
    }
  }

  /** The opening variables y_j, after the existing variables. */
  method AddOpenVars(model0: Model, f: nat, fixed: seq<real>) returns (model: Model)
    requires f <= |fixed| && AllBinary(model0.vars)
    ensures model == model0.(vars := model.vars) && |model.vars| == |model0.vars| + f && AllBinary(model.vars)
    ensures forall k :: 0 <= k < |model0.vars| ==> model.vars[k] == model0.vars[k]
    ensures forall l :: 0 <= l < f ==> model.vars[|model0.vars| + l] == OpenVar(l, fixed)
  {
    model := model0;
    var j := 0;
    while j < f
      invariant 0 <= j <= f && model == model0.(vars := model.vars)
      invariant |model.vars| == |model0.vars| + j && AllBinary(model.vars)
      invariant forall k :: 0 <= k < |model0.vars| ==> model.vars[k] == model0.vars[k]
      invariant forall l :: 0 <= l < j ==> model.vars[|model0.vars| + l] == OpenVar(l, fixed)
    {
      model := model.AddVar(OpenVar(j, fixed));
      j := j + 1;
    }
  }

  /** The demand constraints, the capacity constraints and the total-capacity constraint. */
  method AddServiceConss(model0: Model, c: nat, f: nat, demands: seq<real>, caps: seq<real>)
    returns (model: Model)
    requires model0.conss == [] && c <= |demands| && f <= |caps|
    ensures model == model0.(conss := model.conss) && |model.conss| == c + f + 1
    ensures forall i :: 0 <= i < c ==> model.conss[i] == DemandCons(i, f)
    ensures forall j :: 0 <= j < f ==> model.conss[c + j] == CapacityCons(j, c, f, demands, caps)
    ensures model.conss[c + f] == TotalCons(c, f, demands, caps)
  {
    model := model0;
    var i := 0;
    while i < c
      invariant 0 <= i <= c && model == model0.(conss := model.conss)
      invariant |model.conss| == i && forall l :: 0 <= l < i ==> model.conss[l] == DemandCons(l, f)
    {
      var e := LinearSum(Offset(i, f), Ones(f));
      model := model.AddCons(Cons(e, Ge, 1.0));
      i := i + 1;
    }
    var j := 0;
    while j < f
      invariant 0 <= j <= f && model == model0.(conss := model.conss)
      invariant |model.conss| == c + j && forall l :: 0 <= l < c ==> model.conss[l] == DemandCons(l, f)
      invariant forall l :: 0 <= l < j ==> model.conss[c + l] == CapacityCons(l, c, f, demands, caps)
    {
      var e := LoadSum(j, c, f, demands, caps);
      model := model.AddCons(Cons(e, Le, 0.0));
      j := j + 1;
    }
    var total := LinearSum(Offset(c, f), caps[..f]);
    model := model.AddCons(Cons(total, Ge, SumReals(demands)));
  }

  method CapacitatedFacilityLocation(c: nat, f: nat, cost: seq<seq<real>>, demands: seq<real>,
                                     fixed: seq<real>, caps: seq<real>, name: string)
    returns (model: Model)
    requires InputsFit(c, f, cost, demands, fixed, caps)
    ensures IsFacilityModel(model, c, f, cost, demands, fixed, caps, name) && model.WellFormed()
    ensures model.NumVars() == Offset(c, f) + f && model.NumConss() == c + f + 1 + Offset(c, f)
  {
    model := NewModel(name);
    model := model.SetSense(Minimize);
    model := AddAssignVars(model, c, f, cost);
    ghost var firstVars := model.vars;
    model := AddOpenVars(model, f, fixed);
    forall i, j | 0 <= i < c && 0 <= j < f ensures AssignAt(model.vars, i, j, f, cost) {
      assert AssignAt(firstVars, i, j, f, cost);
    }
    model := AddServiceConss(model, c, f, demands, caps);
    ghost var service := model;
    model := AddLinks(model, c, f);
    forall l | 0 <= l < c + f + 1 ensures model.conss[l] == service.conss[l] {
      assert model.conss[..c + f + 1][l] == service.conss[l];
    }
    assert forall i :: 0 <= i < c ==> model.conss[i] == DemandCons(i, f);
    WellFormedFacility(model, c, f, cost, demands, fixed, caps, name);
  }

  lemma WellFormedFacility(model: Model, c: nat, f: nat, cost: seq<seq<real>>, demands: seq<real>,
                           fixed: seq<real>, caps: seq<real>, name: string)
    requires IsFacilityModel(model, c, f, cost, demands, fixed, caps, name)
    ensures model.WellFormed()
  {
    forall k, v | 0 <= k < |model.conss| && v in model.conss[k].expr ensures model.IsLive(v) {
      if k < c {
        assert model.conss[k] == DemandCons(k, f);
        LinearKeys(Offset(k, f), Ones(f));
        if f > 0 { CellBounds(k, f - 1, c, f); }
      } else if k < c + f {
        var j := k - c;
        assert model.conss[c + j] == CapacityCons(j, c, f, demands, caps);
        var ts := LoadTerms(j, c, f, demands) + [(Offset(c, f) + j, -caps[j])];
        QuicksumKeys(ts);
        assert v in TermHandles(ts);
        var t :| 0 <= t < |ts| && ts[t].0 == v;
        if t < c { CellBounds(t, j, c, f); }
      } else if k == c + f {
        LinearKeys(Offset(c, f), caps[..f]);
      } else {
        var l := k - (c + f + 1);
        var i, j := CellOf(l, c, f);
        assert LinkAt(model.conss, i, j, c, f);
        KeysOfPair(Offset(i, f) + j, Offset(c, f) + j, 1.0, -1.0);
        CellBounds(i, j, c, f);
      }
    }
  }

  // ---------------------------------------------------------------- meaning

  /** Customer i is assigned to facility j: x_ij == 1. */
  predicate AssignedTo(x: seq<int>, i: nat, j: nat, f: nat) {
    Offset(i, f) + j < |x| && x[Offset(i, f) + j] == 1
  }

  /** Facility j is open: y_j == 1. */
  predicate Opened(x: seq<int>, c: nat, f: nat, j: nat) {
    Offset(c, f) + j < |x| && x[Offset(c, f) + j] == 1
  }

  /** Customer i is assigned to one of the first n facilities. */
  predicate ServedBy(x: seq<int>, i: nat, f: nat, n: nat) {
    exists j :: 0 <= j < n && AssignedTo(x, i, j, f)
  }

  /** The total demand of the first c customers assigned to facility j. */
  function Load(x: seq<int>, j: nat, c: nat, f: nat, demands: seq<real>): real
    requires c <= |demands|
  {
    if c == 0 then 0.0
    else Load(x, j, c - 1, f, demands) + (if AssignedTo(x, c - 1, j, f) then demands[c - 1] else 0.0)
  }

  /** The total capacity of the open facilities among the first n. */
  function OpenCapacity(x: seq<int>, c: nat, f: nat, caps: seq<real>, n: nat): real
    requires n <= |caps|
  {
    if n == 0 then 0.0
    else OpenCapacity(x, c, f, caps, n - 1) + (if Opened(x, c, f, n - 1) then caps[n - 1] else 0.0)
  }

  /**
   * What a solution of the formulation is: every customer is assigned to some
   * facility, no facility carries more demand than it has capacity when open
   * (and none when closed), the open capacity covers the whole demand, and a
   * customer is only assigned to an open facility.
   */
  ghost predicate PlanOk(x: seq<int>, c: nat, f: nat, demands: seq<real>, caps: seq<real>)
    requires c <= |demands| && f <= |caps|
  {
    (forall i :: 0 <= i < c ==> ServedBy(x, i, f, f)) &&
    (forall j :: 0 <= j < f ==> Load(x, j, c, f, demands) <= (if Opened(x, c, f, j) then caps[j] else 0.0)) &&
    OpenCapacity(x, c, f, caps, f) >= SumReals(demands) &&
    (forall i, j :: 0 <= i < c && 0 <= j < f && AssignedTo(x, i, j, f) ==> Opened(x, c, f, j))
  }

  /** Over 0/1 values, Σ_{j < n} x_ij >= 1 holds exactly when some x_ij is one. */
  lemma {:induction false} ServedIffAssigned(x: seq<int>, i: nat, f: nat, n: nat)
    requires Binary01(x) && n <= f && Offset(i, f) + n <= |x|
    ensures Dot(Offset(i, f), Ones(n), x) >= 0.0
    ensures Dot(Offset(i, f), Ones(n), x) >= 1.0 <==> ServedBy(x, i, f, n)
  {
    if n > 0 {
      assert Ones(n)[..n - 1] == Ones(n - 1);
      ServedIffAssigned(x, i, f, n - 1);
      if AssignedTo(x, i, n - 1, f) {
        assert Dot(Offset(i, f), Ones(n), x) >= 1.0;
      } else {
        assert Dot(Offset(i, f), Ones(n), x) == Dot(Offset(i, f), Ones(n - 1), x);
        if ServedBy(x, i, f, n) {
          var j :| 0 <= j < n && AssignedTo(x, i, j, f);
          assert j < n - 1;
        }
      }
    }
  }

  /** Over 0/1 values, the demand terms of facility j add up to its load. */
  lemma {:induction false} LoadValue(x: seq<int>, j: nat, c: nat, f: nat, demands: seq<real>)
    requires Binary01(x) && c <= |demands| && j < f && Offset(c, f) <= |x|
    ensures TermsValue(LoadTerms(j, c, f, demands), x) == Load(x, j, c, f, demands)
    decreases c
  {
    if c > 0 {
      assert LoadTerms(j, c, f, demands)[..c - 1] == LoadTerms(j, c - 1, f, demands);
      CellBounds(c - 1, j, c, f);
      LoadValue(x, j, c - 1, f, demands);
    }
  }

  /** Over 0/1 values, Σ_j capacities[j] * y_j is the open capacity. */
  lemma {:induction false} OpenCapacityValue(x: seq<int>, c: nat, f: nat, caps: seq<real>, n: nat)
    requires Binary01(x) && n <= f <= |caps| && Offset(c, f) + n <= |x|
    ensures Dot(Offset(c, f), caps[..n], x) == OpenCapacity(x, c, f, caps, n)
  {
    if n > 0 {
      assert caps[..n][..n - 1] == caps[..n - 1];
      OpenCapacityValue(x, c, f, caps, n - 1);
    }
  }

  lemma DemandMeaning(c: nat, f: nat, x: seq<int>, i: nat)
    requires |x| == Offset(c, f) + f && Binary01(x) && i < c
    ensures Satisfies(DemandCons(i, f), x) <==> ServedBy(x, i, f, f)
  {
    EvalLinear(Offset(i, f), Ones(f), x);
    OffsetMono(i + 1, c, f);
    ServedIffAssigned(x, i, f, f);
  }

  lemma CapacityMeaning(c: nat, f: nat, demands: seq<real>, caps: seq<real>, x: seq<int>, j: nat)
    requires |x| == Offset(c, f) + f && Binary01(x) && j < f && c <= |demands| && f <= |caps|
    ensures Satisfies(CapacityCons(j, c, f, demands, caps), x)
            <==> Load(x, j, c, f, demands) <= (if Opened(x, c, f, j) then caps[j] else 0.0)
  {
    var y: Handle := Offset(c, f) + j;
    EvalSnoc(LoadTerms(j, c, f, demands), y, -caps[j], x);
    LoadValue(x, j, c, f, demands);
  }

  lemma TotalMeaning(c: nat, f: nat, demands: seq<real>, caps: seq<real>, x: seq<int>)
    requires |x| == Offset(c, f) + f && Binary01(x) && f <= |caps|
    ensures Satisfies(TotalCons(c, f, demands, caps), x) <==> OpenCapacity(x, c, f, caps, f) >= SumReals(demands)
  {
    EvalLinear(Offset(c, f), caps[..f], x);
    OpenCapacityValue(x, c, f, caps, f);
  }

  lemma LinkMeaning(c: nat, f: nat, x: seq<int>, i: nat, j: nat)
    requires |x| == Offset(c, f) + f && Binary01(x) && i < c && j < f
    ensures Satisfies(LinkCons(i, j, c, f), x) <==> (AssignedTo(x, i, j, f) ==> Opened(x, c, f, j))
  {
    CellBounds(i, j, c, f);
    EvalPair(Offset(i, f) + j, Offset(c, f) + j, 1.0, -1.0, x);
  }

  lemma ConssMeaning(model: Model, c: nat, f: nat, cost: seq<seq<real>>, demands: seq<real>,
                     fixed: seq<real>, caps: seq<real>, name: string, x: seq<int>)
    requires IsFacilityModel(model, c, f, cost, demands, fixed, caps, name)
    requires |x| == Offset(c, f) + f && Binary01(x)
    ensures (forall k :: 0 <= k < |model.conss| ==> Satisfies(model.conss[k], x))
            <==> PlanOk(x, c, f, demands, caps)
  {
    if forall k :: 0 <= k < |model.conss| ==> Satisfies(model.conss[k], x) {
      ConssGivePlan(model, c, f, cost, demands, fixed, caps, name, x);
    }
    if PlanOk(x, c, f, demands, caps) {
      PlanGivesConss(model, c, f, cost, demands, fixed, caps, name, x);
    }
  }

  lemma ConssGivePlan(model: Model, c: nat, f: nat, cost: seq<seq<real>>, demands: seq<real>,
                      fixed: seq<real>, caps: seq<real>, name: string, x: seq<int>)
    requires IsFacilityModel(model, c, f, cost, demands, fixed, caps, name)
    requires |x| == Offset(c, f) + f && Binary01(x)
    requires forall k :: 0 <= k < |model.conss| ==> Satisfies(model.conss[k], x)
    ensures PlanOk(x, c, f, demands, caps)
  {
    TotalMeaning(c, f, demands, caps, x);
    assert Satisfies(model.conss[c + f], x);
    forall i | 0 <= i < c ensures ServedBy(x, i, f, f) {
      assert Satisfies(model.conss[i], x) && model.conss[i] == DemandCons(i, f);
      DemandMeaning(c, f, x, i);
    }
    forall j | 0 <= j < f
      ensures Load(x, j, c, f, demands) <= (if Opened(x, c, f, j) then caps[j] else 0.0)
    {
      assert Satisfies(model.conss[c + j], x) && model.conss[c + j] == CapacityCons(j, c, f, demands, caps);
      CapacityMeaning(c, f, demands, caps, x, j);
    }
    forall i, j | 0 <= i < c && 0 <= j < f && AssignedTo(x, i, j, f) ensures Opened(x, c, f, j) {
      assert LinkAt(model.conss, i, j, c, f);
      assert Satisfies(model.conss[c + f + 1 + Offset(i, f) + j], x);
      LinkMeaning(c, f, x, i, j);
    }
  }

  lemma PlanGivesConss(model: Model, c: nat, f: nat, cost: seq<seq<real>>, demands: seq<real>,
                       fixed: seq<real>, caps: seq<real>, name: string, x: seq<int>)
    requires IsFacilityModel(model, c, f, cost, demands, fixed, caps, name)
    requires |x| == Offset(c, f) + f && Binary01(x) && PlanOk(x, c, f, demands, caps)
    ensures forall k :: 0 <= k < |model.conss| ==> Satisfies(model.conss[k], x)
  {
    forall k | 0 <= k < |model.conss| ensures Satisfies(model.conss[k], x) {
      if k < c {
        assert model.conss[k] == DemandCons(k, f);
        DemandMeaning(c, f, x, k);
      } else if k < c + f {
        assert model.conss[c + (k - c)] == CapacityCons(k - c, c, f, demands, caps);
        CapacityMeaning(c, f, demands, caps, x, k - c);
      } else if k == c + f {
        TotalMeaning(c, f, demands, caps, x);
      } else {
        var i, j := CellOf(k - (c + f + 1), c, f);
        assert LinkAt(model.conss, i, j, c, f);
        LinkMeaning(c, f, x, i, j);
      }
    }
  }

  /** The solutions of the model are exactly the 0/1 plans that PlanOk describes. */
  lemma FeasibleIffPlan(model: Model, c: nat, f: nat, cost: seq<seq<real>>, demands: seq<real>,
                        fixed: seq<real>, caps: seq<real>, name: string, x: seq<int>)
    requires IsFacilityModel(model, c, f, cost, demands, fixed, caps, name)
    ensures Feasible(model, x) <==> |x| == Offset(c, f) + f && Binary01(x) && PlanOk(x, c, f, demands, caps)
  {
    if |x| == Offset(c, f) + f {
      assert (forall h :: 0 <= h < |x| && h !in model.removed ==> InBounds(model.vars[h], x[h])) <==> Binary01(x);
      if Binary01(x) {
        ConssMeaning(model, c, f, cost, demands, fixed, caps, name, x);
      }
    }
  }
}

/**
 * cornuejols_instance_params of geco/mips/facility_location.py (the legacy
 * generator after Cornuejols, Sridharan and Thizy, 1991): random locations
 * in the unit square, integer demands, capacities and fixed-cost parts,
 * capacities rescaled to the requested capacity/demand ratio, and
 * transport costs growing with the distance and the demand. The square
 * root numpy takes is a parameter `root`, and the floating-point arithmetic
 * is done on exact reals.
 */
module FacilityLocationCornuejols {
  import opened Common
  import opened Mip
  import opened Rand
  import FacilityLocation

  /** Every draw the generator makes, grouped as the source names them. */
  datatype Draws = Draws(customerX: seq<real>, customerY: seq<real>, facilityX: seq<real>, facilityY: seq<real>,
                         demands: seq<int>, capacities: seq<int>, fixedBase: seq<int>, fixedExtra: seq<int>)

  /**
   * The draws cornuejols_instance_params makes, in order: c_x, c_y (c each),
   * f_x, f_y (f each), then the demands in [5, 36], the capacities in
   * [10, 161], the fixed-cost factors in [100, 111] and the fixed-cost
   * extras in [0, 91].
   */
  predicate Shaped(p: Draws, c: nat, f: nat) {
    |p.customerX| == c && |p.customerY| == c && |p.facilityX| == f && |p.facilityY| == f &&
    |p.demands| == c && |p.capacities| == f && |p.fixedBase| == f && |p.fixedExtra| == f
  }

  /** The 2c + 2f location draws come first, one random() call each. */
  function Locations(p: Draws): seq<real> {
    p.customerX + p.customerY + p.facilityX + p.facilityY
  }

  /** The log entries of the draws behind p, in the order the source makes them. */
  function DrawsOf(p: Draws): seq<Draw> {
    RandomDraws(Locations(p)) + IntegerDraws(p.demands, p.capacities, p.fixedBase, p.fixedExtra)
  }

  /** The integer draws after the locations: demands, then the facilities' draws. */
  function IntegerDraws(demands: seq<int>, caps: seq<int>, base: seq<int>, extra: seq<int>): seq<Draw> {
    IntDraws(5, 36, demands) + FacilityDraws(caps, base, extra)
  }

  /** The capacities, then the two fixed-cost parts. */
  function FacilityDraws(caps: seq<int>, base: seq<int>, extra: seq<int>): seq<Draw> {
    IntDraws(10, 161, caps) + FixedDraws(base, extra)
  }

  function FixedDraws(base: seq<int>, extra: seq<int>): seq<Draw> {
    IntDraws(100, 111, base) + IntDraws(0, 91, extra)
  }

  /** The ranges seed.random() and seed.randint give every draw: each coordinate in [0, 1). */
  predicate InRanges(p: Draws) {
    (forall k :: 0 <= k < |Locations(p)| ==> 0.0 <= Locations(p)[k] < 1.0) &&
    (forall i :: 0 <= i < |p.demands| ==> 5 <= p.demands[i] <= 36) &&
    (forall j :: 0 <= j < |p.capacities| ==> 10 <= p.capacities[j] <= 161) &&
    (forall j :: 0 <= j < |p.fixedBase| ==> 100 <= p.fixedBase[j] <= 111) &&
    (forall j :: 0 <= j < |p.fixedExtra| ==> 0 <= p.fixedExtra[j] <= 91)
  }

  method DrawFixed(f: nat, s: Sampler) returns (base: seq<int>, extra: seq<int>, ghost draws: seq<Draw>)
    requires s.Valid()
    modifies s
    ensures s.Valid() && s.log == old(s.log) + draws && draws == FixedDraws(base, extra)
    ensures |base| == f && |extra| == f
    ensures (forall j :: 0 <= j < f ==> 100 <= base[j] <= 111) && (forall j :: 0 <= j < f ==> 0 <= extra[j] <= 91)
  {
    ghost var d1, d2;
    base, d1 := RandInts(s, 100, 111, f);
    extra, d2 := RandInts(s, 0, 91, f);
    IntsDrawnIs(d1, 100, 111, base);
    IntsDrawnIs(d2, 0, 91, extra);
    draws := d1 + d2;
  }

  method DrawFacilities(f: nat, s: Sampler) returns (caps: seq<int>, base: seq<int>, extra: seq<int>, ghost draws: seq<Draw>)
    requires s.Valid()
    modifies s
    ensures s.Valid() && s.log == old(s.log) + draws && draws == FacilityDraws(caps, base, extra)
    ensures |caps| == f && |base| == f && |extra| == f
    ensures forall j :: 0 <= j < f ==> 10 <= caps[j] <= 161
    ensures (forall j :: 0 <= j < f ==> 100 <= base[j] <= 111) && (forall j :: 0 <= j < f ==> 0 <= extra[j] <= 91)
  {
    ghost var d1, d2;
    caps, d1 := RandInts(s, 10, 161, f);
    IntsDrawnIs(d1, 10, 161, caps);
    base, extra, d2 := DrawFixed(f, s);
    draws := d1 + d2;
  }

  method DrawIntegers(c: nat, f: nat, s: Sampler)
    returns (demands: seq<int>, caps: seq<int>, base: seq<int>, extra: seq<int>, ghost draws: seq<Draw>)
    requires s.Valid()
    modifies s
    ensures s.Valid() && s.log == old(s.log) + draws && draws == IntegerDraws(demands, caps, base, extra)
    ensures |demands| == c && |caps| == f && |base| == f && |extra| == f
    ensures (forall i :: 0 <= i < c ==> 5 <= demands[i] <= 36) && (forall j :: 0 <= j < f ==> 10 <= caps[j] <= 161)
    ensures (forall j :: 0 <= j < f ==> 100 <= base[j] <= 111) && (forall j :: 0 <= j < f ==> 0 <= extra[j] <= 91)
  {
    ghost var d1, d2;
    demands, d1 := RandInts(s, 5, 36, c);
    IntsDrawnIs(d1, 5, 36, demands);
    caps, base, extra, d2 := DrawFacilities(f, s);
    draws := d1 + d2;
  }

  /** The location draws cut into c_x, c_y, f_x and f_y, with the integer draws beside them. */
  function Gather(c: nat, f: nat, locations: seq<real>, demands: seq<int>, caps: seq<int>, base: seq<int>,
                  extra: seq<int>): (p: Draws)
    requires |locations| == 2 * c + 2 * f
    ensures Locations(p) == locations
    ensures |p.customerX| == c && |p.customerY| == c && |p.facilityX| == f && |p.facilityY| == f
    ensures p.demands == demands && p.capacities == caps && p.fixedBase == base && p.fixedExtra == extra
  {
    var p := Draws(locations[..c], locations[c..2 * c], locations[2 * c..2 * c + f], locations[2 * c + f..],
                   demands, caps, base, extra);
    assert Locations(p) == locations;
    p
  }

  /** Every draw cornuejols_instance_params makes, in the source's order. */
  method DrawAll(c: nat, f: nat, s: Sampler) returns (p: Draws, ghost draws: seq<Draw>)
    requires s.Valid()
    modifies s
    ensures s.Valid() && s.log == old(s.log) + draws
    ensures Shaped(p, c, f) && draws == DrawsOf(p) && InRanges(p)
  {
    ghost var d1, d2;
    var locations, demands, caps, base, extra;
    locations, d1 := Randoms(s, 2 * c + 2 * f);
    RandomsDrawnIs(d1, locations);
    demands, caps, base, extra, d2 := DrawIntegers(c, f, s);
    p := Gather(c, f, locations, demands, caps, base, extra);
    draws := d1 + d2;
  }

  /**
   * capacities * ratio * total_demand / total_capacity, each entry truncated
   * by astype(int). On exact reals the product does not depend on the order
   * numpy multiplies in, so the common factor is computed once.
   */
  function ScaledCapacities(raw: seq<int>, ratio: real, demand: int, total: int): (caps: seq<int>)
    requires total > 0 || raw == []
    ensures |caps| == |raw|
  {
    if raw == [] then [] else TruncScaled(raw, ratio * (demand as real) / (total as real))
  }

  /** Each entry times k, truncated toward zero. */
  function TruncScaled(raw: seq<int>, k: real): (caps: seq<int>)
    ensures |caps| == |raw|
  {
    if raw == [] then [] else TruncScaled(raw[..|raw| - 1], k) + [Trunc((raw[|raw| - 1] as real) * k)]
  }

  /** Σ raw[j] * k, entry by entry, before any truncation. */
  function Scaled(raw: seq<int>, k: real): real {
    if raw == [] then 0.0 else Scaled(raw[..|raw| - 1], k) + (raw[|raw| - 1] as real) * k
  }

  lemma {:induction false} ScaledIsProduct(raw: seq<int>, k: real)
    ensures Scaled(raw, k) == (Sum(raw) as real) * k
  {
    if raw != [] {
      ScaledIsProduct(raw[..|raw| - 1], k);
      Distribute(Sum(raw[..|raw| - 1]) as real, raw[|raw| - 1] as real, k);
    }
  }

  /**
   * Truncating each scaled entry loses less than one unit per entry: the
   * truncated total lies in (exact - |raw|, exact] for non-empty raw, exact
   * being Σ raw * k.
   */
  lemma {:induction false} TruncScaledSum(raw: seq<int>, k: real)
    requires k >= 0.0
    requires forall j :: 0 <= j < |raw| ==> raw[j] >= 0
    ensures Scaled(raw, k) - (|raw| as real) <= Sum(TruncScaled(raw, k)) as real <= Scaled(raw, k)
    ensures raw != [] ==> Scaled(raw, k) - (|raw| as real) < Sum(TruncScaled(raw, k)) as real
  {
    if raw != [] {
      var init, last := raw[..|raw| - 1], raw[|raw| - 1] as real;
      TruncScaledSum(init, k);
      NonNegativeProduct(last, k);
      TruncFloor(last * k);
      var caps := TruncScaled(raw, k);
      assert caps[..|caps| - 1] == TruncScaled(init, k);
    }
  }

  lemma Distribute(x: real, y: real, k: real)
    ensures (x + y) * k == x * k + y * k
  {
  }

  lemma NonNegativeProduct(x: real, k: real)
    requires x >= 0.0 && k >= 0.0
    ensures x * k >= 0.0
  {
  }

  lemma TruncFloor(v: real)
    requires v >= 0.0
    ensures v - 1.0 < Trunc(v) as real <= v
  {
  }

  /** The entries of caps add up to at most goal, and to more than goal - |caps|. */
  predicate NearBelow(caps: seq<int>, goal: real) {
    Sum(caps) as real <= goal && goal - (|caps| as real) < Sum(caps) as real
  }

  /**
   * "Adjust capacities according to ratio": with at least one facility and a
   * non-negative ratio, the rescaled capacities add up to ratio * total_demand,
   * less than one unit per facility lost to truncation.
   */
  lemma CapacitiesMeetRatio(raw: seq<int>, ratio: real, demands: seq<int>, d: int, t: int)
    requires raw != [] && ratio >= 0.0 && d == Sum(demands) && t == Sum(raw)
    requires forall j :: 0 <= j < |raw| ==> raw[j] >= 10
    requires forall i :: 0 <= i < |demands| ==> demands[i] >= 0
    ensures t > 0
    ensures NearBelow(ScaledCapacities(raw, ratio, d, t), ratio * (d as real))
  {
    TotalsSigns(raw, demands);
    ScaledNearGoal(raw, ratio, d, t);
  }

  lemma TotalsSigns(raw: seq<int>, demands: seq<int>)
    requires raw != []
    requires forall j :: 0 <= j < |raw| ==> raw[j] >= 10
    requires forall i :: 0 <= i < |demands| ==> demands[i] >= 0
    ensures Sum(raw) > 0 && Sum(demands) >= 0 && forall j :: 0 <= j < |raw| ==> raw[j] >= 0
  {
    SumAtLeast(raw, 10);
    SumNonNegative(demands);
  }

  lemma ScaledNearGoal(raw: seq<int>, ratio: real, d: int, t: int)
    requires raw != [] && ratio >= 0.0 && d >= 0 && t > 0 && t == Sum(raw)
    requires forall j :: 0 <= j < |raw| ==> raw[j] >= 0
    ensures NearBelow(ScaledCapacities(raw, ratio, d, t), ratio * (d as real))
  {
    ScaledCapacitiesIs(raw, ratio, d, t);
    NonNegativeProduct(ratio, d as real);
    RatioBounds(raw, ratio * (d as real), t as real);
  }

  lemma ScaledCapacitiesIs(raw: seq<int>, ratio: real, demand: int, total: int)
    requires total > 0
    ensures ScaledCapacities(raw, ratio, demand, total) == TruncScaled(raw, ratio * (demand as real) / (total as real))
  {
  }

  /** Scaling by goal / Σ raw and truncating lands within |raw| below goal. */
  lemma RatioBounds(raw: seq<int>, goal: real, total: real)
    requires raw != [] && goal >= 0.0 && total == Sum(raw) as real && total > 0.0
    requires forall j :: 0 <= j < |raw| ==> raw[j] >= 0
    ensures NearBelow(TruncScaled(raw, goal / total), goal)
  {
    Factor(goal, total);
    ScaledGoal(raw, goal, total);
    TruncScaledSum(raw, goal / total);
  }

  lemma ScaledGoal(raw: seq<int>, goal: real, total: real)
    requires total == Sum(raw) as real && total > 0.0
    ensures Scaled(raw, goal / total) == goal
  {
    Factor'(goal, total);
    ScaledIsProduct(raw, goal / total);
  }

  lemma Factor(goal: real, total: real)
    requires goal >= 0.0 && total > 0.0
    ensures goal / total >= 0.0
  {
  }

  /** Multiplying goal / total back by total recovers goal. */
  lemma Factor'(goal: real, total: real)
    requires total > 0.0
    ensures total * (goal / total) == goal
  {
  }

  lemma {:induction false} SumAtLeast(s: seq<int>, m: int)
    requires forall j :: 0 <= j < |s| ==> s[j] >= m
    ensures Sum(s) >= m * |s|
  {
    if s != [] { SumAtLeast(s[..|s| - 1], m); }
  }

  /** (fixed base * sqrt(capacities) + extra).astype(int), on the capacities before rescaling. */
  function FixedCosts(p: Draws, root: real -> real): (fixed: seq<int>)
    requires |p.fixedBase| == |p.capacities| && |p.fixedExtra| == |p.capacities|
    ensures |fixed| == |p.capacities|
  {
    seq(|p.capacities|, j requires 0 <= j < |p.capacities| =>
      Trunc((p.fixedBase[j] as real) * root(p.capacities[j] as real) + (p.fixedExtra[j] as real)))
  }

  function Square(r: real): real { r * r }

  /** sqrt((c_x[i] - f_x[j])^2 + (c_y[i] - f_y[j])^2) * 10 * demands[i] */
  function TransportCosts(p: Draws, root: real -> real): (cost: seq<seq<real>>)
    requires |p.customerY| == |p.customerX| && |p.demands| == |p.customerX| && |p.facilityY| == |p.facilityX|
    ensures |cost| == |p.customerX| && forall i :: 0 <= i < |cost| ==> |cost[i]| == |p.facilityX|
  {
    seq(|p.customerX|, i requires 0 <= i < |p.customerX| =>
      seq(|p.facilityX|, j requires 0 <= j < |p.facilityX| =>
        root(Square(p.customerX[i] - p.facilityX[j]) + Square(p.customerY[i] - p.facilityY[j]))
        * 10.0 * (p.demands[i] as real)))
  }

  /** cornuejols_instance_params(c, f, ratio, seed): transport costs, demands, fixed costs and capacities. */
  method CornuejolsParams(c: nat, f: nat, ratio: real, root: real -> real, s: Sampler)
    returns (cost: seq<seq<real>>, demands: seq<int>, fixed: seq<int>, caps: seq<int>, ghost p: Draws, ghost draws: seq<Draw>)
    requires s.Valid()
    modifies s
    ensures s.Valid() && s.log == old(s.log) + draws
    ensures Shaped(p, c, f) && draws == DrawsOf(p) && InRanges(p)
    ensures demands == p.demands && fixed == FixedCosts(p, root) && cost == TransportCosts(p, root)
    ensures Sum(p.capacities) > 0 || f == 0
    ensures caps == ScaledCapacities(p.capacities, ratio, Sum(p.demands), Sum(p.capacities))
    ensures |cost| == c && (forall i :: 0 <= i < c ==> |cost[i]| == f) && |demands| == c && |fixed| == f && |caps| == f
  {
    var q;
    q, draws := DrawAll(c, f, s);
    if f > 0 { SumAtLeast(q.capacities, 10); }
    fixed := FixedCosts(q, root);
    demands := q.demands;
    caps := ScaledCapacities(q.capacities, ratio, Sum(q.demands), Sum(q.capacities));
    cost := TransportCosts(q, root);
    p := q;
  }

  lemma FixedDeterministic(f: nat, stream: nat -> Raw, b: nat, base1: seq<int>, extra1: seq<int>,
                            base2: seq<int>, extra2: seq<int>)
    requires |base1| == f && |extra1| == f && |base2| == f && |extra2| == f
    requires ExplainedFrom(stream, b, FixedDraws(base1, extra1)) && ExplainedFrom(stream, b, FixedDraws(base2, extra2))
    ensures base1 == base2 && extra1 == extra2
  {
    ExplainedConcat(stream, b, IntDraws(100, 111, base1), IntDraws(0, 91, extra1));
    ExplainedConcat(stream, b, IntDraws(100, 111, base2), IntDraws(0, 91, extra2));
    IntsDeterministic(stream, b, 100, 111, IntDraws(100, 111, base1), base1, IntDraws(100, 111, base2), base2);
    IntsDeterministic(stream, b + f, 0, 91, IntDraws(0, 91, extra1), extra1, IntDraws(0, 91, extra2), extra2);
  }

  lemma FacilitiesDeterministic(f: nat, stream: nat -> Raw, b: nat, caps1: seq<int>, base1: seq<int>, extra1: seq<int>,
                                caps2: seq<int>, base2: seq<int>, extra2: seq<int>)
    requires |caps1| == f && |base1| == f && |extra1| == f && |caps2| == f && |base2| == f && |extra2| == f
    requires ExplainedFrom(stream, b, FacilityDraws(caps1, base1, extra1))
    requires ExplainedFrom(stream, b, FacilityDraws(caps2, base2, extra2))
    ensures caps1 == caps2 && base1 == base2 && extra1 == extra2
  {
    ExplainedConcat(stream, b, IntDraws(10, 161, caps1), FixedDraws(base1, extra1));
    ExplainedConcat(stream, b, IntDraws(10, 161, caps2), FixedDraws(base2, extra2));
    IntsDeterministic(stream, b, 10, 161, IntDraws(10, 161, caps1), caps1, IntDraws(10, 161, caps2), caps2);
    FixedDeterministic(f, stream, b + f, base1, extra1, base2, extra2);
  }

  lemma IntegersDeterministic(c: nat, f: nat, stream: nat -> Raw, b: nat, p1: Draws, p2: Draws)
    requires Shaped(p1, c, f) && Shaped(p2, c, f)
    requires ExplainedFrom(stream, b, IntegerDraws(p1.demands, p1.capacities, p1.fixedBase, p1.fixedExtra))
    requires ExplainedFrom(stream, b, IntegerDraws(p2.demands, p2.capacities, p2.fixedBase, p2.fixedExtra))
    ensures p1.demands == p2.demands && p1.capacities == p2.capacities
    ensures p1.fixedBase == p2.fixedBase && p1.fixedExtra == p2.fixedExtra
  {
    var e1, e2 := IntDraws(5, 36, p1.demands), IntDraws(5, 36, p2.demands);
    ExplainedConcat(stream, b, e1, FacilityDraws(p1.capacities, p1.fixedBase, p1.fixedExtra));
    ExplainedConcat(stream, b, e2, FacilityDraws(p2.capacities, p2.fixedBase, p2.fixedExtra));
    IntsDeterministic(stream, b, 5, 36, e1, p1.demands, e2, p2.demands);
    FacilitiesDeterministic(f, stream, b + c, p1.capacities, p1.fixedBase, p1.fixedExtra,
                            p2.capacities, p2.fixedBase, p2.fixedExtra);
  }

  /** Draws answered from the same raw rows are the same draws. */
  lemma CornuejolsDeterministic(c: nat, f: nat, stream: nat -> Raw, b: nat, p1: Draws, p2: Draws)
    requires Shaped(p1, c, f) && Shaped(p2, c, f)
    requires ExplainedFrom(stream, b, DrawsOf(p1)) && ExplainedFrom(stream, b, DrawsOf(p2))
    ensures p1 == p2
  {
    var l1, l2 := RandomDraws(Locations(p1)), RandomDraws(Locations(p2));
    ExplainedConcat(stream, b, l1, IntegerDraws(p1.demands, p1.capacities, p1.fixedBase, p1.fixedExtra));
    ExplainedConcat(stream, b, l2, IntegerDraws(p2.demands, p2.capacities, p2.fixedBase, p2.fixedExtra));
    RandomsDeterministic(stream, b, l1, Locations(p1), l2, Locations(p2));
    IntegersDeterministic(c, f, stream, b + 2 * c + 2 * f, p1, p2);
    Parts4(p1.customerX, p1.customerY, p1.facilityX, p1.facilityY);
    Parts4(p2.customerX, p2.customerY, p2.facilityX, p2.facilityY);
  }

  /** Samplers in the same state give the same instance parameters. */
  method SameSeedSameParams(c: nat, f: nat, ratio: real, root: real -> real, s1: Sampler, s2: Sampler)
    returns (p1: (seq<seq<real>>, seq<int>, seq<int>, seq<int>), p2: (seq<seq<real>>, seq<int>, seq<int>, seq<int>))
    requires s1 != s2 && s1.Valid() && s2.Valid() && s1.stream == s2.stream && s1.pos == s2.pos
    modifies s1, s2
    ensures p1 == p2
  {
    ghost var start1, start2 := s1.log, s2.log;
    var t1, m1, x1, k1, q1, d1 := CornuejolsParams(c, f, ratio, root, s1);
    var t2, m2, x2, k2, q2, d2 := CornuejolsParams(c, f, ratio, root, s2);
    NewDrawsExplained(s1.stream, start1, d1);
    NewDrawsExplained(s2.stream, start2, d2);
    CornuejolsDeterministic(c, f, s1.stream, |start1|, q1, q2);
    p1, p2 := (t1, m1, x1, k1), (t2, m2, x2, k2);
  }

  /** cornuejols_instance: the formulation of freshly drawn parameters, under the default name. */
  method CornuejolsInstance(c: nat, f: nat, ratio: real, root: real -> real, s: Sampler)
    returns (model: Model, ghost p: Draws)
    requires s.Valid()
    modifies s
    ensures s.Valid() && Shaped(p, c, f) && InRanges(p) && model.WellFormed()
    ensures Sum(p.capacities) > 0 || f == 0
    ensures FacilityLocation.IsFacilityModel(model, c, f, TransportCosts(p, root), ToReals(p.demands),
              ToReals(FixedCosts(p, root)),
              ToReals(ScaledCapacities(p.capacities, ratio, Sum(p.demands), Sum(p.capacities))),
              FacilityLocation.DefaultName)
  {
    var cost, demands, fixed, caps, q, _ := CornuejolsParams(c, f, ratio, root, s);
    p := q;
    model := FacilityLocation.CapacitatedFacilityLocation(c, f, cost, ToReals(demands), ToReals(fixed), ToReals(caps),
                                                          FacilityLocation.DefaultName);
  }
}
