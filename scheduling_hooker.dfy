/**
 * geco/mips/scheduling.py, hooker_late_tasks_formulation: the late tasks
 * formulation of section 4 of Hooker, "Planning and Scheduling to Minimize
 * Tardiness" (2005), over F facilities, T tasks and N time steps.
 *
 * The T binary L_j ("task j is late", objective 1) come first, at handle j.
 * The binary x[j, i, t] ("task j starts on facility i at step t",
 * objective 0) follow in itertools.product(tasks, facilities, steps) order,
 * so x[j, i, t] sits at T + j * (F * N) + i * N + t (XH). The constraints
 * are, in order: (a) one per (j, t), (b) one per j, (c) one per (i, t), and
 * (d) one per (i, j, t) outside task j's window on facility i. The sense is
 * minimise.
 */
module SchedulingHooker {
  import opened Common
  import opened Mip
  import Naming

  const FormulationName: string := "Hooker Scheduling Late Tasks Formulation"

  /** Why hooker_late_tasks_formulation stops before adding any variable. */
  datatype HookerError =
    | EmptyRelease    // min(r) of an empty r raises ValueError
    | ReleaseNotZero  // assert min(r) == 0 fails

  /**
   * The arguments: F facilities, T tasks, N time steps, processing times
   * p[j][i], capacities C[i], assignment costs c[j][i], release times r[j]
   * and deadlines d[j].
   */
  datatype Instance = Instance(facilities: nat, tasks: nat, steps: nat, p: seq<seq<int>>, C: seq<int>,
                               c: seq<seq<int>>, r: seq<int>, d: seq<real>)
  {
    /** Every entry the constraints read exists; with no facility or no step none is read. */
    predicate Fits() {
      facilities == 0 || steps == 0 ||
      (|p| >= tasks && |c| >= tasks && |r| >= tasks && |d| >= tasks && |C| >= facilities &&
       forall j :: 0 <= j < tasks ==> |p[j]| >= facilities && |c[j]| >= facilities)
    }
  }

  // ---------------------------------------------------------------- variables

  /** The handle of x[j, i, t]. */
  function XH(T: nat, F: nat, N: nat, j: nat, i: nat, t: nat): (h: Handle)
    requires j < T && i < F && t < N
    ensures T <= h < T + Offset(T, Offset(F, N))
  {
    T + Entry(j, Entry(i, t, N, F), Offset(F, N), T)
  }

  /** addVar(lb=0, ub=1, obj=1, name=f"L_{i}", vtype="B") */
  function LVar(j: nat): Var {
    BinaryVar("L_" + Naming.NatToString(j), 1.0)
  }

  /** addVar(lb=0, ub=1, obj=0, name=f"x_{j}_{i}_{t}", vtype="B") */
  function XVar(j: nat, i: nat, t: nat): Var {
    BinaryVar("x_" + Naming.NatToString(j) + "_" + Naming.NatToString(i) + "_" + Naming.NatToString(t), 0.0)
  }

  function LVars(T: nat): (vs: seq<Var>)
    ensures |vs| == T && forall j :: 0 <= j < T ==> vs[j] == LVar(j)
  {
    seq(T, j requires 0 <= j < T => LVar(j))
  }

  /** x[j, i, t] for t in range(N). */
  function XRow(j: nat, i: nat, N: nat): (vs: seq<Var>)
    ensures |vs| == N && forall t :: 0 <= t < N ==> vs[t] == XVar(j, i, t)
  {
    seq(N, t requires 0 <= t < N => XVar(j, i, t))
  }

  /** The rows of task j, facility by facility. */
  function XTaskRows(j: nat, F: nat, N: nat): (rows: seq<seq<Var>>)
    ensures |rows| == F && forall i :: 0 <= i < F ==> rows[i] == XRow(j, i, N)
  {
    seq(F, i requires 0 <= i < F => XRow(j, i, N))
  }

  function XTasks(T: nat, F: nat, N: nat): (rows: seq<seq<Var>>)
    ensures |rows| == T && forall j :: 0 <= j < T ==> rows[j] == Join(XTaskRows(j, F, N))
  {
    seq(T, j requires 0 <= j < T => Join(XTaskRows(j, F, N)))
  }

  /** The variables in creation order: L, then x in product order. */
  function HookerVars(T: nat, F: nat, N: nat): seq<Var> {
    LVars(T) + Join(XTasks(T, F, N))
  }

  lemma XTaskAt(j: nat, F: nat, N: nat)
    ensures |Join(XTaskRows(j, F, N))| == Offset(F, N)
    ensures forall i, t :: 0 <= i < F && 0 <= t < N ==> Join(XTaskRows(j, F, N))[Entry(i, t, N, F)] == XVar(j, i, t)
  {
    JoinAt(XTaskRows(j, F, N), N);
  }

  /** Every x variable is one XVar(j, i, t). */
  lemma XVarsCover(T: nat, F: nat, N: nat, k: nat) returns (j: nat, i: nat, t: nat)
    requires k < |Join(XTasks(T, F, N))|
    ensures j < T && i < F && t < N && Join(XTasks(T, F, N))[k] == XVar(j, i, t)
  {
    var q: nat;
    j, q := JoinMember(XTasks(T, F, N), k);
    i, t := JoinMember(XTaskRows(j, F, N), q);
  }

  /** Different (j, i, t) have different handles. */
  lemma XHInjective(T: nat, F: nat, N: nat, j1: nat, i1: nat, t1: nat, j2: nat, i2: nat, t2: nat)
    requires j1 < T && i1 < F && t1 < N && j2 < T && i2 < F && t2 < N
    requires XH(T, F, N, j1, i1, t1) == XH(T, F, N, j2, i2, t2)
    ensures j1 == j2 && i1 == i2 && t1 == t2
  {
    CellInjective(j1, Entry(i1, t1, N, F), j2, Entry(i2, t2, N, F), Offset(F, N));
    CellInjective(i1, t1, i2, t2, N);
  }

  lemma XHDistinct(T: nat, F: nat, N: nat, j1: nat, i1: nat, t1: nat, j2: nat, i2: nat, t2: nat)
    requires j1 < T && i1 < F && t1 < N && j2 < T && i2 < F && t2 < N
    requires j1 != j2 || i1 != i2 || t1 != t2
    ensures XH(T, F, N, j1, i1, t1) != XH(T, F, N, j2, i2, t2)
  {
    if XH(T, F, N, j1, i1, t1) == XH(T, F, N, j2, i2, t2) {
      XHInjective(T, F, N, j1, i1, t1, j2, i2, t2);
    }
  }

  /** L_j at j and x[j, i, t] at XH. */
  lemma HookerVarsAt(T: nat, F: nat, N: nat)
    ensures |HookerVars(T, F, N)| == T + Offset(T, Offset(F, N))
    ensures forall j :: 0 <= j < T ==> HookerVars(T, F, N)[j] == LVar(j)
    ensures forall j, i, t :: 0 <= j < T && 0 <= i < F && 0 <= t < N ==>
              HookerVars(T, F, N)[XH(T, F, N, j, i, t)] == XVar(j, i, t)
  {
    var xs := XTasks(T, F, N);
    forall j | 0 <= j < T ensures |xs[j]| == Offset(F, N) {
      XTaskAt(j, F, N);
    }
    JoinAt(xs, Offset(F, N));
    forall j, i, t | 0 <= j < T && 0 <= i < F && 0 <= t < N
      ensures HookerVars(T, F, N)[XH(T, F, N, j, i, t)] == XVar(j, i, t)
    {
      XAt(T, F, N, j, i, t);
    }
  }

  lemma XAt(T: nat, F: nat, N: nat, j: nat, i: nat, t: nat)
    requires j < T && i < F && t < N
    ensures XH(T, F, N, j, i, t) < |HookerVars(T, F, N)| && HookerVars(T, F, N)[XH(T, F, N, j, i, t)] == XVar(j, i, t)
  {
    var xs := XTasks(T, F, N);
    forall j' | 0 <= j' < T ensures |xs[j']| == Offset(F, N) {
      XTaskAt(j', F, N);
    }
    JoinAt(xs, Offset(F, N));
    XTaskAt(j, F, N);
    var q := Entry(j, Entry(i, t, N, F), Offset(F, N), T);
    assert Join(xs)[q] == XVar(j, i, t);
    assert (LVars(T) + Join(xs))[T + q] == Join(xs)[q];
  }

  /** Every variable is binary and has a name. */
  lemma HookerVarsBinary(T: nat, F: nat, N: nat)
    ensures forall h :: 0 <= h < |HookerVars(T, F, N)| ==>
              HookerVars(T, F, N)[h].name != "" && HookerVars(T, F, N)[h].lb == 0.0 &&
              HookerVars(T, F, N)[h].ub == Some(1.0) && HookerVars(T, F, N)[h].vtype == Binary
  {
    var vs := HookerVars(T, F, N);
    forall h | 0 <= h < |vs|
      ensures vs[h].name != "" && vs[h].lb == 0.0 && vs[h].ub == Some(1.0) && vs[h].vtype == Binary
    {
      if h >= T {
        var j, i, t := XVarsCover(T, F, N, h - T);
        assert vs[h] == XVar(j, i, t);
      }
    }
  }

  // ---------------------------------------------------------------- (a) lateness

  /** -(t + p[j, i]) x[j, i, t] for each facility i: the quicksum of (a) moved to the left. */
  function LateTerms(inst: Instance, j: nat, t: nat): (ts: seq<Term>)
    requires inst.Fits() && j < inst.tasks && t < inst.steps
    ensures |ts| == inst.facilities
    ensures forall i :: 0 <= i < inst.facilities ==>
              ts[i] == (XH(inst.tasks, inst.facilities, inst.steps, j, i, t), -((t + inst.p[j][i]) as real))
  {
    seq(inst.facilities, i requires 0 <= i < inst.facilities =>
      (XH(inst.tasks, inst.facilities, inst.steps, j, i, t), -((t + inst.p[j][i]) as real)))
  }

  /** k copies of d[j] added up (no copy at all when there is no facility to sum over). */
  function Subtracted(inst: Instance, k: nat, j: nat): real
    requires inst.Fits() && j < inst.tasks && inst.steps > 0
  {
    if inst.facilities == 0 then 0.0 else Times(inst.d[j], k)
  }

  /**
   * (a) time_steps * L[j] >= quicksum((t + p[j, i]) * x[j, i, t] - d[j] for i),
   * with the constants moved right: N L_j - Σ_i (t + p[j, i]) x[j, i, t] >= -k d[j].
   * k counts the copies of d[j] the sum subtracts: F as written, one in the paper.
   */
  function LateCons(inst: Instance, k: nat, j: nat, t: nat): Cons
    requires inst.Fits() && j < inst.tasks && t < inst.steps
  {
    Cons(Quicksum(LateTerms(inst, j, t) + [(j, inst.steps as real)]), Ge, -Subtracted(inst, k, j))
  }

  function LateRow(inst: Instance, k: nat, j: nat): (cs: seq<Cons>)
    requires inst.Fits() && j < inst.tasks
    ensures |cs| == inst.steps && forall t :: 0 <= t < inst.steps ==> cs[t] == LateCons(inst, k, j, t)
  {
    seq(inst.steps, t requires 0 <= t < inst.steps => LateCons(inst, k, j, t))
  }

  /** The constraints (a), for j, t in product(range(T), range(N)). */
  function LateBlocks(inst: Instance, k: nat): (bs: seq<seq<Cons>>)
    requires inst.Fits()
    ensures |bs| == inst.tasks && forall j :: 0 <= j < inst.tasks ==> bs[j] == LateRow(inst, k, j)
  {
    seq(inst.tasks, j requires 0 <= j < inst.tasks => LateRow(inst, k, j))
  }

  // ---------------------------------------------------------------- (b) assignment

  /** x[j, i, t] for t in range(N). */
  function HandleRow(T: nat, F: nat, N: nat, j: nat, i: nat): (hs: seq<Handle>)
    requires j < T && i < F
    ensures |hs| == N && forall t :: 0 <= t < N ==> hs[t] == XH(T, F, N, j, i, t)
  {
    seq(N, t requires 0 <= t < N => XH(T, F, N, j, i, t))
  }

  function HandleRows(T: nat, F: nat, N: nat, j: nat): (rows: seq<seq<Handle>>)
    requires j < T
    ensures |rows| == F && forall i :: 0 <= i < F ==> rows[i] == HandleRow(T, F, N, j, i)
  {
    seq(F, i requires 0 <= i < F => HandleRow(T, F, N, j, i))
  }

  /** x[j, i, t] for i, t in product(range(F), range(N)). */
  function TaskHandles(T: nat, F: nat, N: nat, j: nat): seq<Handle>
    requires j < T
  {
    Join(HandleRows(T, F, N, j))
  }

  /** (b) quicksum(x[j, i, t] for i, t) == 1 */
  function AssignCons(T: nat, F: nat, N: nat, j: nat): Cons
    requires j < T
  {
    Cons(Quicksum(UnitTerms(TaskHandles(T, F, N, j))), Eq, 1.0)
  }

  function AssignConss(T: nat, F: nat, N: nat): (cs: seq<Cons>)
    ensures |cs| == T && forall j :: 0 <= j < T ==> cs[j] == AssignCons(T, F, N, j)
  {
    seq(T, j requires 0 <= j < T => AssignCons(T, F, N, j))
  }

  // ---------------------------------------------------------------- (c) capacity

  /** The steps of range(t - p + 1, t + 1) at which an x exists (0 <= t' < N, given t < N). */
  function Window(t: nat, p: int): (w: seq<int>)
    ensures forall q :: 0 <= q < |w| ==> 0 <= w[q] <= t && t - p < w[q]
    ensures forall q :: 0 <= q < |w| ==> w[q] == Max(t - p + 1, 0) + q
  {
    Range(Max(t - p + 1, 0), t + 1)
  }

  /** x[j, i, t'] for the steps t' of the window of (j, i) that ends at t. */
  function WindowHandles(inst: Instance, j: nat, i: nat, t: nat): (hs: seq<Handle>)
    requires inst.Fits() && j < inst.tasks && i < inst.facilities && t < inst.steps
    ensures |hs| == |Window(t, inst.p[j][i])|
    ensures forall q :: 0 <= q < |hs| ==>
              hs[q] == XH(inst.tasks, inst.facilities, inst.steps, j, i, Window(t, inst.p[j][i])[q] as nat)
  {
    var w := Window(t, inst.p[j][i]);
    seq(|w|, q requires 0 <= q < |w| => XH(inst.tasks, inst.facilities, inst.steps, j, i, w[q] as nat))
  }

  /** c[j, i] * x[j, i, t'] for the steps t' of the window of (j, i) that ends at t. */
  function LoadTerms(inst: Instance, j: nat, i: nat, t: nat): seq<Term>
    requires inst.Fits() && j < inst.tasks && i < inst.facilities && t < inst.steps
  {
    ScaledTerms(WindowHandles(inst, j, i, t), inst.c[j][i] as real)
  }

  /** The load terms of every task, task by task. */
  function LoadRows(inst: Instance, i: nat, t: nat): (rows: seq<seq<Term>>)
    requires inst.Fits() && i < inst.facilities && t < inst.steps
    ensures |rows| == inst.tasks && forall j :: 0 <= j < inst.tasks ==> rows[j] == LoadTerms(inst, j, i, t)
  {
    seq(inst.tasks, j requires 0 <= j < inst.tasks => LoadTerms(inst, j, i, t))
  }

  /** (c) quicksum(c[j, i] * x[j, i, t'] for j and t' in its window) <= C[i] */
  function CapacityCons(inst: Instance, i: nat, t: nat): Cons
    requires inst.Fits() && i < inst.facilities && t < inst.steps
  {
    Cons(Quicksum(Join(LoadRows(inst, i, t))), Le, inst.C[i] as real)
  }

  function CapacityRow(inst: Instance, i: nat): (cs: seq<Cons>)
    requires inst.Fits() && i < inst.facilities
    ensures |cs| == inst.steps && forall t :: 0 <= t < inst.steps ==> cs[t] == CapacityCons(inst, i, t)
  {
    seq(inst.steps, t requires 0 <= t < inst.steps => CapacityCons(inst, i, t))
  }

  /** The constraints (c), for i, t in product(range(F), range(N)). */
  function CapacityBlocks(inst: Instance): (bs: seq<seq<Cons>>)
    requires inst.Fits()
    ensures |bs| == inst.facilities && forall i :: 0 <= i < inst.facilities ==> bs[i] == CapacityRow(inst, i)
  {
    seq(inst.facilities, i requires 0 <= i < inst.facilities => CapacityRow(inst, i))
  }

  // ---------------------------------------------------------------- (d) windows

  /** (d) applies to x[j, i, t] when t < r[j] or t > N - p[j, i]. */
  predicate OutsideWindow(inst: Instance, j: nat, i: nat, t: nat)
    requires inst.Fits() && j < inst.tasks && i < inst.facilities && t < inst.steps
  {
    t < inst.r[j] || t > inst.steps - inst.p[j][i]
  }

  /** (d) x[j, i, t] == 0 */
  function FixCons(T: nat, F: nat, N: nat, j: nat, i: nat, t: nat): Cons
    requires j < T && i < F && t < N
  {
    Cons(Quicksum([(XH(T, F, N, j, i, t), 1.0)]), Eq, 0.0)
  }

  /** The constraints (d) of facility i and task j for the steps t < n. */
  function FixRow(inst: Instance, i: nat, j: nat, n: nat): (cs: seq<Cons>)
    requires inst.Fits() && j < inst.tasks && i < inst.facilities && n <= inst.steps
    ensures |cs| <= n
  {
    if n == 0 then []
    else
      FixRow(inst, i, j, n - 1) +
      (if OutsideWindow(inst, j, i, n - 1) then [FixCons(inst.tasks, inst.facilities, inst.steps, j, i, n - 1)] else [])
  }

  function FixRows(inst: Instance, i: nat): (rows: seq<seq<Cons>>)
    requires inst.Fits() && i < inst.facilities
    ensures |rows| == inst.tasks && forall j :: 0 <= j < inst.tasks ==> rows[j] == FixRow(inst, i, j, inst.steps)
  {
    seq(inst.tasks, j requires 0 <= j < inst.tasks => FixRow(inst, i, j, inst.steps))
  }

  /** The constraints (d), for i, j, t in product(range(F), range(T), range(N)). */
  function FixBlocks(inst: Instance): (bs: seq<seq<Cons>>)
    requires inst.Fits()
    ensures |bs| == inst.facilities && forall i :: 0 <= i < inst.facilities ==> bs[i] == Join(FixRows(inst, i))
  {
    seq(inst.facilities, i requires 0 <= i < inst.facilities => Join(FixRows(inst, i)))
  }

  // ---------------------------------------------------------------- the model

  function HookerConss(inst: Instance, k: nat): seq<Cons>
    requires inst.Fits()
  {
    Flatten(LateBlocks(inst, k)) + AssignConss(inst.tasks, inst.facilities, inst.steps) +
    Flatten(CapacityBlocks(inst)) + Flatten(FixBlocks(inst))
  }

  /** The model built once min(r) == 0, with d[j] subtracted k times in (a). */
  function HookerModel(inst: Instance, k: nat): Model
    requires inst.Fits()
  {
    Model(FormulationName, HookerVars(inst.tasks, inst.facilities, inst.steps), {}, HookerConss(inst, k), Minimize)
  }

  /** The checks on r, then the variables and the four constraint families in order. */
  method Build(inst: Instance, k: nat) returns (result: Result<Model, HookerError>)
    requires inst.Fits()
    ensures inst.r == [] ==> result == Failure(EmptyRelease)
    ensures inst.r != [] && MinOf(inst.r) != 0 ==> result == Failure(ReleaseNotZero)
    ensures inst.r != [] && MinOf(inst.r) == 0 ==> result == Success(HookerModel(inst, k))
  {
    if inst.r == [] {
      return Failure(EmptyRelease);
    }
    if MinOf(inst.r) != 0 {
      return Failure(ReleaseNotZero);
    }
    var T, F, N := inst.tasks, inst.facilities, inst.steps;
    HookerVarsBinary(T, F, N);
    var vs := HookerVars(T, F, N);
    EmptyConcat(vs);
    var model := AddVars(NewModel(FormulationName), vs);
    ghost var a, b, c, d := Flatten(LateBlocks(inst, k)), AssignConss(T, F, N),
                            Flatten(CapacityBlocks(inst)), Flatten(FixBlocks(inst));
    EmptyConcat(a);
    model := AddBlocks(model, LateBlocks(inst, k));
    model := AddConss(model, AssignConss(T, F, N));
    model := AddBlocks(model, CapacityBlocks(inst));
    model := AddBlocks(model, FixBlocks(inst));
    assert model.conss == a + b + c + d;
    model := model.SetSense(Minimize);
    result := Success(model);
  }

  /** hooker_late_tasks_formulation(F, T, N, p, C, c, r, d) as written: d[j] subtracted F times. */
  method LateTasksFormulation(inst: Instance) returns (result: Result<Model, HookerError>)
    requires inst.Fits()
    ensures inst.r == [] ==> result == Failure(EmptyRelease)
    ensures inst.r != [] && MinOf(inst.r) != 0 ==> result == Failure(ReleaseNotZero)
    ensures inst.r != [] && MinOf(inst.r) == 0 ==> result == Success(HookerModel(inst, inst.facilities))
  {
    result := Build(inst, inst.facilities);
  }

  /** The formulation as the paper states (a): d[j] subtracted once. */
  method CorrectedLateTasksFormulation(inst: Instance) returns (result: Result<Model, HookerError>)
    requires inst.Fits()
    ensures inst.r == [] ==> result == Failure(EmptyRelease)
    ensures inst.r != [] && MinOf(inst.r) != 0 ==> result == Failure(ReleaseNotZero)
    ensures inst.r != [] && MinOf(inst.r) == 0 ==> result == Success(HookerModel(inst, 1))
  {
    result := Build(inst, 1);
  }

  // ---------------------------------------------------------------- sizes

  lemma HookerVarsSize(T: nat, F: nat, N: nat)
    ensures |HookerVars(T, F, N)| == T + Offset(T, Offset(F, N))
  {
    var xs := XTasks(T, F, N);
    forall j | 0 <= j < T ensures |xs[j]| == Offset(F, N) {
      XTaskAt(j, F, N);
    }
    JoinAt(xs, Offset(F, N));
  }

  /** getNVars() == F T N + T. */
  lemma HookerVarCount(inst: Instance, k: nat)
    requires inst.Fits()
    ensures HookerModel(inst, k).NumVars() == inst.facilities * inst.tasks * inst.steps + inst.tasks
  {
    HookerVarsSize(inst.tasks, inst.facilities, inst.steps);
    GridOfGrids(inst.tasks, inst.facilities, inst.steps);
  }

  /** (d) adds at most one constraint per x: at most F T N. */
  lemma FixCount(inst: Instance)
    requires inst.Fits()
    ensures |Flatten(FixBlocks(inst))| <= Offset(inst.facilities, Offset(inst.tasks, inst.steps))
  {
    var fb := FixBlocks(inst);
    forall i | 0 <= i < inst.facilities ensures |fb[i]| <= Offset(inst.tasks, inst.steps) {
      JoinAtMost(FixRows(inst, i), inst.steps);
    }
    FlattenIsJoin(fb);
    JoinAtMost(fb, Offset(inst.tasks, inst.steps));
  }

  lemma HookerConssSize(inst: Instance, k: nat)
    requires inst.Fits()
    ensures |HookerConss(inst, k)| == inst.steps * inst.tasks + inst.tasks + inst.steps * inst.facilities + |Flatten(FixBlocks(inst))|
  {
    FlattenSize(LateBlocks(inst, k), inst.steps);
    FlattenSize(CapacityBlocks(inst), inst.steps);
  }

  /** T N + T + F N <= getNConss() <= T N + T + F N + F T N. */
  lemma HookerConsCount(inst: Instance, k: nat)
    requires inst.Fits()
    ensures var T, F, N := inst.tasks, inst.facilities, inst.steps;
            T * N + T + F * N <= HookerModel(inst, k).NumConss() <= T * N + T + F * N + F * T * N
  {
    HookerConssSize(inst, k);
    FixCount(inst);
    GridOfGrids(inst.facilities, inst.tasks, inst.steps);
  }

  // ---------------------------------------------------------------- what the constraints say

  /** The handles of (b) are x[j, i, t] for every facility i and step t, in product order. */
  lemma TaskHandlesAt(T: nat, F: nat, N: nat, j: nat)
    requires j < T
    ensures |TaskHandles(T, F, N, j)| == Offset(F, N)
    ensures forall i, t :: 0 <= i < F && 0 <= t < N ==> TaskHandles(T, F, N, j)[Entry(i, t, N, F)] == XH(T, F, N, j, i, t)
  {
    JoinAt(HandleRows(T, F, N, j), N);
  }

  /** (b) holds for a 0/1 assignment exactly when task j starts once, over all facilities and steps. */
  lemma AssignMeaning(T: nat, F: nat, N: nat, j: nat, x: seq<int>)
    requires j < T && Binary01(x)
    ensures Satisfies(AssignCons(T, F, N, j), x) <==> Picks(TaskHandles(T, F, N, j), x) == 1
  {
    EvalUnitTerms(TaskHandles(T, F, N, j), x);
  }

  /** Task j never starts on facility i at a step t < n outside its window. */
  predicate WindowKept(inst: Instance, i: nat, j: nat, n: nat, x: seq<int>)
    requires inst.Fits() && j < inst.tasks && i < inst.facilities && n <= inst.steps
    requires |x| == inst.tasks + Offset(inst.tasks, Offset(inst.facilities, inst.steps))
  {
    forall t :: 0 <= t < n && OutsideWindow(inst, j, i, t) ==> x[XH(inst.tasks, inst.facilities, inst.steps, j, i, t)] == 0
  }

  /** The constraints (d) of (i, j) hold exactly when no start outside the window is chosen. */
  lemma {:induction false} FixRowMeaning(inst: Instance, i: nat, j: nat, n: nat, x: seq<int>)
    requires inst.Fits() && j < inst.tasks && i < inst.facilities && n <= inst.steps
    requires |x| == inst.tasks + Offset(inst.tasks, Offset(inst.facilities, inst.steps))
    ensures SatisfiesAll(FixRow(inst, i, j, n), x) <==> WindowKept(inst, i, j, n, x)
  {
    if n > 0 {
      var T, F, N := inst.tasks, inst.facilities, inst.steps;
      FixRowMeaning(inst, i, j, n - 1, x);
      var tail := if OutsideWindow(inst, j, i, n - 1) then [FixCons(T, F, N, j, i, n - 1)] else [];
      SatisfiesAllAppend(FixRow(inst, i, j, n - 1), tail, x);
      var h := XH(T, F, N, j, i, n - 1);
      SatisfiesOne(FixCons(T, F, N, j, i, n - 1), x);
      EvalSingle(h, 1.0, x);
      assert WindowKept(inst, i, j, n, x) <==>
             WindowKept(inst, i, j, n - 1, x) && (OutsideWindow(inst, j, i, n - 1) ==> x[h] == 0);
    }
  }

  /** Σ_{j < n} c[j, i] * (starts of task j on facility i within the window that ends at t). */
  function Load(inst: Instance, i: nat, t: nat, x: seq<int>, n: nat): real
    requires inst.Fits() && i < inst.facilities && t < inst.steps && n <= inst.tasks
  {
    if n == 0 then 0.0
    else Load(inst, i, t, x, n - 1) + Times(inst.c[n - 1][i] as real, Picks(WindowHandles(inst, n - 1, i, t), x))
  }

  lemma {:induction false} LoadValue(inst: Instance, i: nat, t: nat, x: seq<int>, n: nat)
    requires inst.Fits() && i < inst.facilities && t < inst.steps && n <= inst.tasks && Binary01(x)
    ensures TermsValue(Join(LoadRows(inst, i, t)[..n]), x) == Load(inst, i, t, x, n)
  {
    var rows := LoadRows(inst, i, t);
    if n == 0 {
      assert rows[..n] == [];
    } else {
      LoadValue(inst, i, t, x, n - 1);
      JoinSnoc(rows, n - 1);
      var prefix, last := Join(rows[..n - 1]), rows[n - 1];
      TermsValueConcat(prefix, last, x);
      var hs, c := WindowHandles(inst, n - 1, i, t), inst.c[n - 1][i] as real;
      assert last == ScaledTerms(hs, c);
      TermsScaled(hs, c, x);
    }
  }

  /** (c) holds for a 0/1 assignment exactly when the load of the jobs running on i at t is at most C[i]. */
  lemma CapacityMeaning(inst: Instance, i: nat, t: nat, x: seq<int>)
    requires inst.Fits() && i < inst.facilities && t < inst.steps && Binary01(x)
    ensures Satisfies(CapacityCons(inst, i, t), x) <==> Load(inst, i, t, x, inst.tasks) <= inst.C[i] as real
  {
    var rows := LoadRows(inst, i, t);
    LoadValue(inst, i, t, x, inst.tasks);
    assert rows[..inst.tasks] == rows;
    EvalQuicksum(Join(rows), x);
  }

  /** The left side of (a): minus the picked (t + p[j, i]), plus N once L_j is set. */
  lemma LateValue(inst: Instance, k: nat, j: nat, t: nat, x: seq<int>)
    requires inst.Fits() && j < inst.tasks && t < inst.steps
    requires Binary01(x) && j < |x|
    ensures Eval(LateCons(inst, k, j, t).expr, x) ==
            TermsValue(LateTerms(inst, j, t), x) + (if x[j] == 1 then inst.steps as real else 0.0)
  {
    EvalSnoc(LateTerms(inst, j, t), j, inst.steps as real, x);
  }

  /** A picked start (j, i, t) brings the terms of (a) down to at most -(t + p[j, i]). */
  lemma LateTermsBelow(inst: Instance, j: nat, i: nat, t: nat, x: seq<int>)
    requires inst.Fits() && j < inst.tasks && i < inst.facilities && t < inst.steps
    requires Binary01(x) && |x| == inst.tasks + Offset(inst.tasks, Offset(inst.facilities, inst.steps))
    requires forall f :: 0 <= f < inst.facilities ==> t + inst.p[j][f] >= 0
    requires x[XH(inst.tasks, inst.facilities, inst.steps, j, i, t)] == 1
    ensures TermsValue(LateTerms(inst, j, t), x) <= -((t + inst.p[j][i]) as real)
  {
    TermsBelowPick(LateTerms(inst, j, t), x, i);
  }

  /**
   * Under (a) with k copies of d[j] subtracted, a 0/1 assignment that starts task j
   * on facility i at step t, finishing at t + p[j, i] > k d[j], must set L_j.
   */
  lemma LateForced(inst: Instance, k: nat, j: nat, i: nat, t: nat, x: seq<int>)
    requires inst.Fits() && j < inst.tasks && i < inst.facilities && t < inst.steps
    requires Binary01(x) && |x| == inst.tasks + Offset(inst.tasks, Offset(inst.facilities, inst.steps))
    requires forall f :: 0 <= f < inst.facilities ==> t + inst.p[j][f] >= 0
    requires Satisfies(LateCons(inst, k, j, t), x)
    requires x[XH(inst.tasks, inst.facilities, inst.steps, j, i, t)] == 1
    requires (t + inst.p[j][i]) as real > Times(inst.d[j], k)
    ensures x[j] == 1
  {
    LateValue(inst, k, j, t, x);
    LateTermsBelow(inst, j, i, t, x);
  }
}
