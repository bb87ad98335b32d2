/**
 * geco/mips/scheduling.py, heinz_formulation: Model 4 of Heinz et al. over F
 * facilities and T tasks, with release times R[j], deadlines d[j], processing
 * times p[j, k], resource requirements r[j, k], capacities C[k] and
 * assignment costs c[j, k].
 *
 * The time steps are range(min(R), int(max(d.values()))). The F T binary
 * x[j, k] ("task j runs on facility k", objective c[j, k]) come first, in
 * product(tasks, facilities) order, so x[j, k] sits at j * F + k (XH). The
 * binary y[j, k, t] ("task j starts on facility k at t", objective 0) follow,
 * one for each (j, k, t) in product order with R[j] <= t <= d[j] - p[j, k]
 * (YKeys). The constraints are, in order: (12) one per task, (13) one per
 * (j, k), (14) one per (k, t), and (15) one per facility and pair of a
 * release time below a deadline. No sense is set, so the model minimises.
 */
module SchedulingHeinz {
  import opened Common
  import opened Mip
  import Naming

  const FormulationName: string := "Heinz Scheduling"

  /** Why heinz_formulation stops before returning a model. */
  datatype HeinzError =
    | EmptyRelease    // min(R) of an empty R raises ValueError
    | EmptyDeadlines  // max(d.values()) of an empty d raises ValueError
    | MissingKey      // (13) reads a y[j, k, t] that was never created: KeyError

  /**
   * The arguments: F facilities, T tasks, processing times p[j][k],
   * capacities C[k], assignment costs c[j][k], release times R, the deadlines
   * d.values() in key order (d[j] is the deadline of task j) and resource
   * requirements r[j][k].
   */
  datatype Instance = Instance(facilities: nat, tasks: nat, p: seq<seq<int>>, C: seq<int>, c: seq<seq<int>>,
                               R: seq<int>, d: seq<real>, r: seq<seq<int>>)
  {
    /** Every entry the model reads exists; with no facility no entry of a task is read. */
    predicate Fits() {
      facilities == 0 ||
      (|p| >= tasks && |c| >= tasks && |r| >= tasks && |R| >= tasks && |d| >= tasks && |C| >= facilities &&
       forall j :: 0 <= j < tasks ==> |p[j]| >= facilities && |c[j]| >= facilities && |r[j]| >= facilities)
    }
  }

  /** The key (j, k, t) of y[j, k, t]. */
  datatype Key = Key(j: nat, k: nat, t: int)

  /**
   * Which start variables (13) sums for (j, k): as written, the t of
   * range(R[j], int(d[j]) - p[j, k]) with t < len(time_steps); as the paper
   * states it, every t for which y[j, k, t] exists.
   */
  datatype StartRule = CountBound | ExistingKeys

  /** time_steps = range(min(R), int(max(d.values()))) */
  function TimeSteps(inst: Instance): seq<int>
    requires inst.R != [] && inst.d != []
  {
    Range(MinOf(inst.R), Trunc(MaxOf(inst.d)))
  }

  // ---------------------------------------------------------------- variables

  /** The handle of x[j, k]. */
  function XH(T: nat, F: nat, j: nat, k: nat): (h: Handle)
    requires j < T && k < F
    ensures h < Offset(T, F)
  {
    Entry(j, k, F, T)
  }

  /** addVar(lb=0, ub=1, obj=c[j, k], name=f"x_{j}_{k}", vtype="B") */
  function XVar(inst: Instance, j: nat, k: nat): Var
    requires inst.Fits() && j < inst.tasks && k < inst.facilities
  {
    BinaryVar("x_" + Naming.NatToString(j) + "_" + Naming.NatToString(k), inst.c[j][k] as real)
  }

  function XRow(inst: Instance, j: nat): (vs: seq<Var>)
    requires inst.Fits() && j < inst.tasks
    ensures |vs| == inst.facilities && forall k :: 0 <= k < inst.facilities ==> vs[k] == XVar(inst, j, k)
  {
    seq(inst.facilities, k requires 0 <= k < inst.facilities => XVar(inst, j, k))
  }

  function XRows(inst: Instance): (rows: seq<seq<Var>>)
    requires inst.Fits()
    ensures |rows| == inst.tasks && forall j :: 0 <= j < inst.tasks ==> rows[j] == XRow(inst, j)
  {
    seq(inst.tasks, j requires 0 <= j < inst.tasks => XRow(inst, j))
  }

  /** R[j] <= t <= d[j] - p[j, k]: the test that creates y[j, k, t] for a time step t. */
  predicate Admits(inst: Instance, j: nat, k: nat, t: int)
    requires inst.Fits() && j < inst.tasks && k < inst.facilities
  {
    inst.R[j] <= t && (t as real) <= inst.d[j] - (inst.p[j][k] as real)
  }

  /** The steps of s that Admits, in order. */
  function Admitted(inst: Instance, j: nat, k: nat, s: seq<int>): (a: seq<int>)
    requires inst.Fits() && j < inst.tasks && k < inst.facilities
    ensures |a| <= |s|
  {
    if s == [] then []
    else Admitted(inst, j, k, s[..|s| - 1]) + (if Admits(inst, j, k, s[|s| - 1]) then [s[|s| - 1]] else [])
  }

  /** The keys of the y variables of (j, k): y[j, k, t] for the admitted time steps t. */
  function YRow(inst: Instance, ts: seq<int>, j: nat, k: nat): (ks: seq<Key>)
    requires inst.Fits() && j < inst.tasks && k < inst.facilities
    ensures |ks| == |Admitted(inst, j, k, ts)|
    ensures forall q :: 0 <= q < |ks| ==> ks[q] == Key(j, k, Admitted(inst, j, k, ts)[q])
  {
    var a := Admitted(inst, j, k, ts);
    seq(|a|, q requires 0 <= q < |a| => Key(j, k, a[q]))
  }

  function YTaskRows(inst: Instance, ts: seq<int>, j: nat): (rows: seq<seq<Key>>)
    requires inst.Fits() && j < inst.tasks
    ensures |rows| == inst.facilities && forall k :: 0 <= k < inst.facilities ==> rows[k] == YRow(inst, ts, j, k)
  {
    seq(inst.facilities, k requires 0 <= k < inst.facilities => YRow(inst, ts, j, k))
  }

  function YRows(inst: Instance, ts: seq<int>): (rows: seq<seq<Key>>)
    requires inst.Fits()
    ensures |rows| == inst.tasks && forall j :: 0 <= j < inst.tasks ==> rows[j] == Join(YTaskRows(inst, ts, j))
  {
    seq(inst.tasks, j requires 0 <= j < inst.tasks => Join(YTaskRows(inst, ts, j)))
  }

  /** The keys of y in creation order: product(tasks, facilities, ts) filtered by Admits. */
  function YKeys(inst: Instance, ts: seq<int>): seq<Key>
    requires inst.Fits()
  {
    Join(YRows(inst, ts))
  }

  /** addVar(lb=0, ub=1, obj=0, name=f"y_{j}_{k}_{t}", vtype="B") */
  function YVar(key: Key): Var {
    BinaryVar("y_" + Naming.NatToString(key.j) + "_" + Naming.NatToString(key.k) + "_" + Naming.IntToString(key.t), 0.0)
  }

  function YVars(keys: seq<Key>): (vs: seq<Var>)
    ensures |vs| == |keys| && forall q :: 0 <= q < |keys| ==> vs[q] == YVar(keys[q])
  {
    seq(|keys|, q requires 0 <= q < |keys| => YVar(keys[q]))
  }

  /** The variables in creation order: x, then y. */
  function HeinzVars(inst: Instance, keys: seq<Key>): seq<Var>
    requires inst.Fits()
  {
    Join(XRows(inst)) + YVars(keys)
  }

  /** The handle of y[key]: after the F T x variables, at the key's position. */
  function YH(T: nat, F: nat, keys: seq<Key>, key: Key): (h: Handle)
    requires key in keys
    ensures Offset(T, F) <= h < Offset(T, F) + |keys|
  {
    Offset(T, F) + Position(keys, key)
  }

  // ---------------------------------------------------------------- (12) assignment

  /** x[j, k] for k in range(F). */
  function XRowHandles(T: nat, F: nat, j: nat): (hs: seq<Handle>)
    requires j < T
    ensures |hs| == F && forall k :: 0 <= k < F ==> hs[k] == XH(T, F, j, k)
  {
    seq(F, k requires 0 <= k < F => XH(T, F, j, k))
  }

  /** (12) quicksum(x[j, k] for k in range(F)) == 1 */
  function AssignCons(T: nat, F: nat, j: nat): Cons
    requires j < T
  {
    Cons(Quicksum(UnitTerms(XRowHandles(T, F, j))), Eq, 1.0)
  }

  function AssignConss(T: nat, F: nat): (cs: seq<Cons>)
    ensures |cs| == T && forall j :: 0 <= j < T ==> cs[j] == AssignCons(T, F, j)
  {
    seq(T, j requires 0 <= j < T => AssignCons(T, F, j))
  }

  // ---------------------------------------------------------------- (13) one start per chosen facility

  /** The values of s below n, in order. */
  function Below(s: seq<int>, n: int): (b: seq<int>)
    ensures |b| <= |s|
  {
    if s == [] then [] else Below(s[..|s| - 1], n) + (if s[|s| - 1] < n then [s[|s| - 1]] else [])
  }

  /** The steps t whose y[j, k, t] (13) sums. */
  function StartTimes(inst: Instance, ts: seq<int>, rule: StartRule, j: nat, k: nat): seq<int>
    requires inst.Fits() && j < inst.tasks && k < inst.facilities
  {
    match rule
    case CountBound => Below(Range(inst.R[j], Trunc(inst.d[j]) - inst.p[j][k]), |ts|)
    case ExistingKeys => Admitted(inst, j, k, ts)
  }

  /** Every y[j, k, t] that (13) reads for (j, k) exists. */
  predicate StartKeysPresent(inst: Instance, ts: seq<int>, keys: seq<Key>, rule: StartRule, j: nat, k: nat)
    requires inst.Fits() && j < inst.tasks && k < inst.facilities
  {
    forall t :: t in StartTimes(inst, ts, rule, j, k) ==> Key(j, k, t) in keys
  }

  /** No lookup of (13) raises KeyError. */
  predicate StartsPresent(inst: Instance, ts: seq<int>, keys: seq<Key>, rule: StartRule)
    requires inst.Fits()
  {
    forall j, k :: 0 <= j < inst.tasks && 0 <= k < inst.facilities ==> StartKeysPresent(inst, ts, keys, rule, j, k)
  }

  /** y[j, k, t] for the steps t of times. */
  function StartHandles(T: nat, F: nat, keys: seq<Key>, j: nat, k: nat, times: seq<int>): (hs: seq<Handle>)
    requires forall t :: t in times ==> Key(j, k, t) in keys
    ensures |hs| == |times| && forall q :: 0 <= q < |times| ==> hs[q] == YH(T, F, keys, Key(j, k, times[q]))
  {
    seq(|times|, q requires 0 <= q < |times| => YH(T, F, keys, Key(j, k, times[q])))
  }

  /** (13) quicksum(y[j, k, t] for the start times t) == x[j, k], moved left: Σ y - x[j, k] == 0. */
  function StartCons(inst: Instance, ts: seq<int>, keys: seq<Key>, rule: StartRule, j: nat, k: nat): Cons
    requires inst.Fits() && j < inst.tasks && k < inst.facilities
    requires StartKeysPresent(inst, ts, keys, rule, j, k)
  {
    var hs := StartHandles(inst.tasks, inst.facilities, keys, j, k, StartTimes(inst, ts, rule, j, k));
    Cons(Quicksum(UnitTerms(hs) + [(XH(inst.tasks, inst.facilities, j, k), -1.0)]), Eq, 0.0)
  }

  function StartRow(inst: Instance, ts: seq<int>, keys: seq<Key>, rule: StartRule, j: nat): (cs: seq<Cons>)
    requires inst.Fits() && j < inst.tasks && StartsPresent(inst, ts, keys, rule)
    ensures |cs| == inst.facilities && forall k :: 0 <= k < inst.facilities ==> cs[k] == StartCons(inst, ts, keys, rule, j, k)
  {
    seq(inst.facilities, k requires 0 <= k < inst.facilities => StartCons(inst, ts, keys, rule, j, k))
  }

  /** The constraints (13), for j, k in product(range(T), range(F)). */
  function StartBlocks(inst: Instance, ts: seq<int>, keys: seq<Key>, rule: StartRule): (bs: seq<seq<Cons>>)
    requires inst.Fits() && StartsPresent(inst, ts, keys, rule)
    ensures |bs| == inst.tasks && forall j :: 0 <= j < inst.tasks ==> bs[j] == StartRow(inst, ts, keys, rule, j)
  {
    seq(inst.tasks, j requires 0 <= j < inst.tasks => StartRow(inst, ts, keys, rule, j))
  }

  // ---------------------------------------------------------------- (14) resource capacity

  /** y[j, k, t'] for the steps t' of ws for which it exists. */
  function Present(T: nat, F: nat, keys: seq<Key>, j: nat, k: nat, ws: seq<int>): (hs: seq<Handle>)
    ensures |hs| <= |ws|
  {
    if ws == [] then []
    else
      Present(T, F, keys, j, k, ws[..|ws| - 1]) +
      (if Key(j, k, ws[|ws| - 1]) in keys then [YH(T, F, keys, Key(j, k, ws[|ws| - 1]))] else [])
  }

  /** r[j, k] * y[j, k, t'] for t' in range(t - p[j, k], t + 1) if (j, k, t') in y. */
  function UseTerms(inst: Instance, keys: seq<Key>, j: nat, k: nat, t: int): seq<Term>
    requires inst.Fits() && j < inst.tasks && k < inst.facilities
  {
    ScaledTerms(Present(inst.tasks, inst.facilities, keys, j, k, Range(t - inst.p[j][k], t + 1)), inst.r[j][k] as real)
  }

  function UseRows(inst: Instance, keys: seq<Key>, k: nat, t: int): (rows: seq<seq<Term>>)
    requires inst.Fits() && k < inst.facilities
    ensures |rows| == inst.tasks && forall j :: 0 <= j < inst.tasks ==> rows[j] == UseTerms(inst, keys, j, k, t)
  {
    seq(inst.tasks, j requires 0 <= j < inst.tasks => UseTerms(inst, keys, j, k, t))
  }

  /** (14) quicksum(r[j, k] * y[j, k, t'] for j and t' in its window) <= C[k] */
  function CapacityCons(inst: Instance, keys: seq<Key>, k: nat, t: int): Cons
    requires inst.Fits() && k < inst.facilities
  {
    Cons(Quicksum(Join(UseRows(inst, keys, k, t))), Le, inst.C[k] as real)
  }

  function CapacityRow(inst: Instance, ts: seq<int>, keys: seq<Key>, k: nat): (cs: seq<Cons>)
    requires inst.Fits() && k < inst.facilities
    ensures |cs| == |ts| && forall q :: 0 <= q < |ts| ==> cs[q] == CapacityCons(inst, keys, k, ts[q])
  {
    seq(|ts|, q requires 0 <= q < |ts| => CapacityCons(inst, keys, k, ts[q]))
  }

  /** The constraints (14), for k, t in product(range(F), time_steps). */
  function CapacityBlocks(inst: Instance, ts: seq<int>, keys: seq<Key>): (bs: seq<seq<Cons>>)
    requires inst.Fits()
    ensures |bs| == inst.facilities && forall k :: 0 <= k < inst.facilities ==> bs[k] == CapacityRow(inst, ts, keys, k)
  {
    seq(inst.facilities, k requires 0 <= k < inst.facilities => CapacityRow(inst, ts, keys, k))
  }

  // ---------------------------------------------------------------- (15) energy

  /** The pairs (t1, d) for the deadlines d of ds with t1 < d, in order. */
  function EpsilonRow(t1: int, ds: seq<real>): (ps: seq<(int, real)>)
    ensures |ps| <= |ds|
  {
    if ds == [] then []
    else EpsilonRow(t1, ds[..|ds| - 1]) + (if (t1 as real) < ds[|ds| - 1] then [(t1, ds[|ds| - 1])] else [])
  }

  function EpsilonRows(R: seq<int>, ds: seq<real>): (rows: seq<seq<(int, real)>>)
    ensures |rows| == |R| && forall a :: 0 <= a < |R| ==> rows[a] == EpsilonRow(R[a], ds)
  {
    seq(|R|, a requires 0 <= a < |R| => EpsilonRow(R[a], ds))
  }

  /** epsilon = filter(lambda ts: ts[0] < ts[1], product(R, d.values())) */
  function Epsilon(R: seq<int>, ds: seq<real>): seq<(int, real)> {
    Join(EpsilonRows(R, ds))
  }

  /** Task j has to run inside [t1, t2]: t1 <= R[j] and t2 >= d[j]. */
  predicate Inside(inst: Instance, j: nat, t1: int, t2: real)
    requires inst.Fits() && j < inst.tasks && inst.facilities > 0
  {
    t1 <= inst.R[j] && t2 >= inst.d[j]
  }

  /** p[j, k] * r[j, k] * x[j, k] for each job j < n inside [t1, t2]. */
  function EnergyTerms(inst: Instance, k: nat, t1: int, t2: real, n: nat): (ts: seq<Term>)
    requires inst.Fits() && k < inst.facilities && n <= inst.tasks
    ensures |ts| <= n
  {
    if n == 0 then []
    else
      EnergyTerms(inst, k, t1, t2, n - 1) +
      (if Inside(inst, n - 1, t1, t2)
       then [(XH(inst.tasks, inst.facilities, n - 1, k), (inst.p[n - 1][k] * inst.r[n - 1][k]) as real)]
       else [])
  }

  /** C[k] * (t2 - t1): the work facility k can do between t1 and t2. */
  function Room(capacity: int, t1: int, t2: real): real {
    (capacity as real) * (t2 - t1 as real)
  }

  /** (15) quicksum(p[j, k] * r[j, k] * x[j, k] for j inside [t1, t2]) <= C[k] * (t2 - t1) */
  function EnergyCons(inst: Instance, k: nat, e: (int, real)): Cons
    requires inst.Fits() && k < inst.facilities
  {
    Cons(Quicksum(EnergyTerms(inst, k, e.0, e.1, inst.tasks)), Le, Room(inst.C[k], e.0, e.1))
  }

  function EnergyRow(inst: Instance, eps: seq<(int, real)>, k: nat): (cs: seq<Cons>)
    requires inst.Fits() && k < inst.facilities
    ensures |cs| == |eps| && forall q :: 0 <= q < |eps| ==> cs[q] == EnergyCons(inst, k, eps[q])
  {
    seq(|eps|, q requires 0 <= q < |eps| => EnergyCons(inst, k, eps[q]))
  }

  /** The constraints (15), for k, (t1, t2) in product(range(F), epsilon). */
  function EnergyBlocks(inst: Instance, eps: seq<(int, real)>): (bs: seq<seq<Cons>>)
    requires inst.Fits()
    ensures |bs| == inst.facilities && forall k :: 0 <= k < inst.facilities ==> bs[k] == EnergyRow(inst, eps, k)
  {
    seq(inst.facilities, k requires 0 <= k < inst.facilities => EnergyRow(inst, eps, k))
  }

  // ---------------------------------------------------------------- the model

  function HeinzConss(inst: Instance, ts: seq<int>, keys: seq<Key>, rule: StartRule): seq<Cons>
    requires inst.Fits() && StartsPresent(inst, ts, keys, rule)
  {
    AssignConss(inst.tasks, inst.facilities) + Flatten(StartBlocks(inst, ts, keys, rule)) +
    Flatten(CapacityBlocks(inst, ts, keys)) + Flatten(EnergyBlocks(inst, Epsilon(inst.R, inst.d)))
  }

  /** The model heinz_formulation returns once every lookup of (13) succeeds. */
  function HeinzModel(inst: Instance, rule: StartRule): Model
    requires inst.Fits() && inst.R != [] && inst.d != []
    requires StartsPresent(inst, TimeSteps(inst), YKeys(inst, TimeSteps(inst)), rule)
  {
    var ts := TimeSteps(inst);
    var keys := YKeys(inst, ts);
    Model(FormulationName, HeinzVars(inst, keys), {}, HeinzConss(inst, ts, keys, rule), Minimize)
  }

  /** addVar(lb=0, ub=1, vtype="B") with a name. */
  predicate NamedBinary(v: Var) {
    v.name != "" && v.lb == 0.0 && v.ub == Some(1.0) && v.vtype == Binary
  }

  lemma XVarsBinary(inst: Instance)
    requires inst.Fits()
    ensures forall h :: 0 <= h < |Join(XRows(inst))| ==> NamedBinary(Join(XRows(inst))[h])
  {
    forall h | 0 <= h < |Join(XRows(inst))| ensures NamedBinary(Join(XRows(inst))[h]) {
      var j, k := JoinMember(XRows(inst), h);
    }
  }

  lemma YVarsBinary(keys: seq<Key>)
    ensures forall h :: 0 <= h < |YVars(keys)| ==> NamedBinary(YVars(keys)[h])
  {
    forall h | 0 <= h < |keys| ensures NamedBinary(YVar(keys[h])) {
      var key := keys[h];
      assert YVar(key).name[0] == 'y';
    }
  }

  lemma ConcatBinary(xs: seq<Var>, ys: seq<Var>)
    requires forall h :: 0 <= h < |xs| ==> NamedBinary(xs[h])
    requires forall h :: 0 <= h < |ys| ==> NamedBinary(ys[h])
    ensures forall h :: 0 <= h < |xs + ys| ==> NamedBinary((xs + ys)[h])
  {
  }

  /** Every variable is binary and has a name. */
  lemma HeinzVarsBinary(inst: Instance, keys: seq<Key>)
    requires inst.Fits()
    ensures forall h :: 0 <= h < |HeinzVars(inst, keys)| ==> NamedBinary(HeinzVars(inst, keys)[h])
  {
    XVarsBinary(inst);
    YVarsBinary(keys);
    ConcatBinary(Join(XRows(inst)), YVars(keys));
  }

  /** The variables, then (12), (13), (14) and (15) in order; (13) fails on a missing key. */
  method Build(inst: Instance, rule: StartRule) returns (result: Result<Model, HeinzError>)
    requires inst.Fits()
    ensures inst.R == [] ==> result == Failure(EmptyRelease)
    ensures inst.R != [] && inst.d == [] ==> result == Failure(EmptyDeadlines)
    ensures inst.R != [] && inst.d != [] && !StartsPresent(inst, TimeSteps(inst), YKeys(inst, TimeSteps(inst)), rule) ==>
              result == Failure(MissingKey)
    ensures inst.R != [] && inst.d != [] && StartsPresent(inst, TimeSteps(inst), YKeys(inst, TimeSteps(inst)), rule) ==>
              result == Success(HeinzModel(inst, rule))
  {
    if inst.R == [] {
      return Failure(EmptyRelease);
    }
    if inst.d == [] {
      return Failure(EmptyDeadlines);
    }
    var ts := TimeSteps(inst);
    var keys := YKeys(inst, ts);
    HeinzVarsBinary(inst, keys);
    var vs := HeinzVars(inst, keys);
    EmptyConcat(vs);
    var model := AddVars(NewModel(FormulationName), vs);
    if !StartsPresent(inst, ts, keys, rule) {
      return Failure(MissingKey);
    }
    ghost var a, b, c, e := AssignConss(inst.tasks, inst.facilities), Flatten(StartBlocks(inst, ts, keys, rule)),
                            Flatten(CapacityBlocks(inst, ts, keys)), Flatten(EnergyBlocks(inst, Epsilon(inst.R, inst.d)));
    EmptyConcat(a);
    model := AddConss(model, AssignConss(inst.tasks, inst.facilities));
    model := AddBlocks(model, StartBlocks(inst, ts, keys, rule));
    model := AddBlocks(model, CapacityBlocks(inst, ts, keys));
    model := AddBlocks(model, EnergyBlocks(inst, Epsilon(inst.R, inst.d)));
    assert model.conss == a + b + c + e;
    result := Success(model);
  }

  /** heinz_formulation(F, T, p, C, c, R, d, r) as written. */
  method HeinzFormulation(inst: Instance) returns (result: Result<Model, HeinzError>)
    requires inst.Fits()
    ensures inst.R == [] ==> result == Failure(EmptyRelease)
    ensures inst.R != [] && inst.d == [] ==> result == Failure(EmptyDeadlines)
    ensures inst.R != [] && inst.d != [] && !StartsPresent(inst, TimeSteps(inst), YKeys(inst, TimeSteps(inst)), CountBound) ==>
              result == Failure(MissingKey)
    ensures inst.R != [] && inst.d != [] && StartsPresent(inst, TimeSteps(inst), YKeys(inst, TimeSteps(inst)), CountBound) ==>
              result == Success(HeinzModel(inst, CountBound))
  {
    result := Build(inst, CountBound);
  }

  /** The formulation with (13) summing every y[j, k, t] that exists, as the paper states it. */
  method CorrectedHeinzFormulation(inst: Instance) returns (result: Result<Model, HeinzError>)
    requires inst.Fits()
    ensures inst.R == [] ==> result == Failure(EmptyRelease)
    ensures inst.R != [] && inst.d == [] ==> result == Failure(EmptyDeadlines)
    ensures inst.R != [] && inst.d != [] ==>
              StartsPresent(inst, TimeSteps(inst), YKeys(inst, TimeSteps(inst)), ExistingKeys) &&
              result == Success(HeinzModel(inst, ExistingKeys))
  {
    if inst.R != [] && inst.d != [] {
      ExistingKeysPresent(inst, TimeSteps(inst));
    }
    result := Build(inst, ExistingKeys);
  }

  // ---------------------------------------------------------------- the y keys

  /** t is admitted from s exactly when it is in s and Admits. */
  lemma {:induction false} AdmittedMember(inst: Instance, j: nat, k: nat, s: seq<int>, t: int)
    requires inst.Fits() && j < inst.tasks && k < inst.facilities
    ensures t in Admitted(inst, j, k, s) <==> t in s && Admits(inst, j, k, t)
  {
    if s != [] {
      var m := |s| - 1;
      AdmittedMember(inst, j, k, s[..m], t);
      assert s == s[..m] + [s[m]];
    }
  }

  /** Filtering a sequence without repeats keeps it without repeats. */
  lemma {:induction false} AdmittedDistinct(inst: Instance, j: nat, k: nat, s: seq<int>)
    requires inst.Fits() && j < inst.tasks && k < inst.facilities && Distinct(s)
    ensures Distinct(Admitted(inst, j, k, s))
  {
    if s != [] {
      var m := |s| - 1;
      assert Distinct(s[..m]) by {
        forall a, b | 0 <= a < b < m ensures s[..m][a] != s[..m][b] {
          assert s[..m][a] == s[a] && s[..m][b] == s[b];
        }
      }
      AdmittedDistinct(inst, j, k, s[..m]);
      var init := Admitted(inst, j, k, s[..m]);
      forall a | 0 <= a < |init| ensures init[a] != s[m] {
        AdmittedMember(inst, j, k, s[..m], init[a]);
        var b :| 0 <= b < m && s[..m][b] == init[a];
        assert s[..m][b] == s[b];
      }
      DistinctConcat(init, if Admits(inst, j, k, s[m]) then [s[m]] else []);
    }
  }

  /** y[j, k, t] is created exactly for the jobs, facilities and time steps that Admits. */
  lemma YKeysMember(inst: Instance, ts: seq<int>, key: Key)
    requires inst.Fits()
    ensures key in YKeys(inst, ts) <==>
              key.j < inst.tasks && key.k < inst.facilities && key.t in ts && Admits(inst, key.j, key.k, key.t)
  {
    var rows: seq<seq<Key>> := YRows(inst, ts);
    JoinContains(rows, key);
    if key in YKeys(inst, ts) {
      var j :| 0 <= j < |rows| && key in rows[j];
      JoinContains(YTaskRows(inst, ts, j), key);
      var k :| 0 <= k < inst.facilities && key in YTaskRows(inst, ts, j)[k];
      var q :| 0 <= q < |YRow(inst, ts, j, k)| && YRow(inst, ts, j, k)[q] == key;
      AdmittedMember(inst, j, k, ts, key.t);
    }
    if key.j < inst.tasks && key.k < inst.facilities && key.t in ts && Admits(inst, key.j, key.k, key.t) {
      var j, k := key.j, key.k;
      AdmittedMember(inst, j, k, ts, key.t);
      var a := Admitted(inst, j, k, ts);
      var q :| 0 <= q < |a| && a[q] == key.t;
      assert YRow(inst, ts, j, k)[q] == key;
      assert key in YTaskRows(inst, ts, j)[k];
      JoinContains(YTaskRows(inst, ts, j), key);
      assert key in rows[j];
    }
  }

  /** The keys of one task are the keys of its facilities, and with time steps without repeats none repeats. */
  lemma YTaskDistinct(inst: Instance, ts: seq<int>, j: nat)
    requires inst.Fits() && j < inst.tasks && Distinct(ts)
    ensures Distinct(Join(YTaskRows(inst, ts, j)))
    ensures forall key :: key in Join(YTaskRows(inst, ts, j)) ==> key.j == j
  {
    var rows: seq<seq<Key>> := YTaskRows(inst, ts, j);
    forall k | 0 <= k < |rows| ensures Distinct(rows[k]) {
      AdmittedDistinct(inst, j, k, ts);
      forall a, b | 0 <= a < b < |rows[k]| ensures rows[k][a] != rows[k][b] {
        assert rows[k][a].t == Admitted(inst, j, k, ts)[a];
      }
    }
    forall a, b, v | 0 <= a < b < |rows| && v in rows[a] ensures v !in rows[b] {
      assert v.k == a;
    }
    JoinDistinct(rows);
    forall key | key in Join(rows) ensures key.j == j {
      JoinContains(rows, key);
    }
  }

  /** Every y[j, k, t] is created once. */
  lemma YKeysDistinct(inst: Instance, ts: seq<int>)
    requires inst.Fits() && Distinct(ts)
    ensures Distinct(YKeys(inst, ts))
  {
    var rows: seq<seq<Key>> := YRows(inst, ts);
    forall j | 0 <= j < |rows| ensures Distinct(rows[j]) {
      YTaskDistinct(inst, ts, j);
    }
    forall a, b, v | 0 <= a < b < |rows| && v in rows[a] ensures v !in rows[b] {
      YTaskDistinct(inst, ts, a);
      YTaskDistinct(inst, ts, b);
    }
    JoinDistinct(rows);
  }

  /** Summing over the existing keys never reads a missing one. */
  lemma ExistingKeysPresent(inst: Instance, ts: seq<int>)
    requires inst.Fits()
    ensures StartsPresent(inst, ts, YKeys(inst, ts), ExistingKeys)
  {
    forall j, k, t | 0 <= j < inst.tasks && 0 <= k < inst.facilities && t in Admitted(inst, j, k, ts)
      ensures Key(j, k, t) in YKeys(inst, ts)
    {
      AdmittedMember(inst, j, k, ts, t);
      YKeysMember(inst, ts, Key(j, k, t));
    }
  }

  /** t is below n in s exactly when it is in s and below n. */
  lemma {:induction false} BelowMember(s: seq<int>, n: int, t: int)
    ensures t in Below(s, n) <==> t in s && t < n
  {
    if s != [] {
      var m := |s| - 1;
      BelowMember(s[..m], n, t);
      assert s == s[..m] + [s[m]];
    }
  }

  /**
   * With processing times that are not negative, every start time (13) reads
   * as written has its y variable, so heinz_formulation raises no KeyError.
   */
  lemma NoMissingKey(inst: Instance)
    requires inst.Fits() && inst.R != [] && inst.d != []
    requires forall j, k :: 0 <= j < inst.tasks && 0 <= k < inst.facilities ==> inst.p[j][k] >= 0
    ensures StartsPresent(inst, TimeSteps(inst), YKeys(inst, TimeSteps(inst)), CountBound)
  {
    var ts := TimeSteps(inst);
    forall j, k | 0 <= j < inst.tasks && 0 <= k < inst.facilities
      ensures StartKeysPresent(inst, ts, YKeys(inst, ts), CountBound, j, k)
    {
      forall t | t in StartTimes(inst, ts, CountBound, j, k) ensures Key(j, k, t) in YKeys(inst, ts) {
        StartKeyPresent(inst, j, k, t);
      }
    }
  }

  lemma StartKeyPresent(inst: Instance, j: nat, k: nat, t: int)
    requires inst.Fits() && inst.R != [] && inst.d != [] && j < inst.tasks && k < inst.facilities
    requires inst.p[j][k] >= 0
    requires t in StartTimes(inst, TimeSteps(inst), CountBound, j, k)
    ensures Key(j, k, t) in YKeys(inst, TimeSteps(inst))
  {
    var ts := TimeSteps(inst);
    var w := Range(inst.R[j], Trunc(inst.d[j]) - inst.p[j][k]);
    BelowMember(w, |ts|, t);
    var q :| 0 <= q < |w| && w[q] == t;
    // R[j] <= t and t + p[j, k] < int(d[j]), so t <= d[j] - p[j, k].
    TruncBelow(inst.d[j], t + inst.p[j][k]);
    // min(R) <= R[j] <= t < int(d[j]) <= int(max(d)).
    TruncMono(inst.d[j], MaxOf(inst.d));
    assert ts[t - MinOf(inst.R)] == t;
    YKeysMember(inst, ts, Key(j, k, t));
  }

  // ---------------------------------------------------------------- sizes

  lemma XVarsSize(inst: Instance)
    requires inst.Fits()
    ensures |Join(XRows(inst))| == Offset(inst.tasks, inst.facilities)
  {
    JoinAt(XRows(inst), inst.facilities);
  }

  /** At most one y per task, facility and time step. */
  lemma YKeysBound(inst: Instance, ts: seq<int>)
    requires inst.Fits()
    ensures |YKeys(inst, ts)| <= Offset(inst.tasks, Offset(inst.facilities, |ts|))
  {
    var rows := YRows(inst, ts);
    forall j | 0 <= j < inst.tasks ensures |rows[j]| <= Offset(inst.facilities, |ts|) {
      JoinAtMost(YTaskRows(inst, ts, j), |ts|);
    }
    JoinAtMost(rows, Offset(inst.facilities, |ts|));
  }

  /** getNVars() is F T plus one per y key, and so at most F T + F T len(time_steps). */
  lemma HeinzVarCount(inst: Instance, rule: StartRule)
    requires inst.Fits() && inst.R != [] && inst.d != []
    requires StartsPresent(inst, TimeSteps(inst), YKeys(inst, TimeSteps(inst)), rule)
    ensures HeinzModel(inst, rule).NumVars() == inst.facilities * inst.tasks + |YKeys(inst, TimeSteps(inst))|
    ensures HeinzModel(inst, rule).NumVars() <= inst.facilities * inst.tasks + inst.facilities * inst.tasks * |TimeSteps(inst)|
  {
    XVarsSize(inst);
    OffsetIsProduct(inst.tasks, inst.facilities);
    YKeysBound(inst, TimeSteps(inst));
    GridOfGrids(inst.tasks, inst.facilities, |TimeSteps(inst)|);
  }

  /** epsilon holds at most one pair per release time and deadline. */
  lemma EpsilonBound(R: seq<int>, ds: seq<real>)
    ensures |Epsilon(R, ds)| <= |R| * |ds|
  {
    JoinAtMost(EpsilonRows(R, ds), |ds|);
    OffsetIsProduct(|R|, |ds|);
  }

  /** getNConss() == T + T F + F len(time_steps) + F len(epsilon). */
  lemma HeinzConsCount(inst: Instance, rule: StartRule)
    requires inst.Fits() && inst.R != [] && inst.d != []
    requires StartsPresent(inst, TimeSteps(inst), YKeys(inst, TimeSteps(inst)), rule)
    ensures HeinzModel(inst, rule).NumConss() ==
            inst.tasks + inst.facilities * inst.tasks + |TimeSteps(inst)| * inst.facilities +
            |Epsilon(inst.R, inst.d)| * inst.facilities
  {
    var ts := TimeSteps(inst);
    var keys := YKeys(inst, ts);
    FlattenSize(StartBlocks(inst, ts, keys, rule), inst.facilities);
    FlattenSize(CapacityBlocks(inst, ts, keys), |ts|);
    FlattenSize(EnergyBlocks(inst, Epsilon(inst.R, inst.d)), |Epsilon(inst.R, inst.d)|);
  }

  // ---------------------------------------------------------------- what the constraints say

  /** (12) holds for a 0/1 assignment exactly when task j is put on exactly one facility. */
  lemma AssignMeaning(T: nat, F: nat, j: nat, x: seq<int>)
    requires j < T && Binary01(x)
    ensures Satisfies(AssignCons(T, F, j), x) <==> Picks(XRowHandles(T, F, j), x) == 1
  {
    EvalUnitTerms(XRowHandles(T, F, j), x);
  }

  /** (13) holds for a 0/1 assignment exactly when the starts it sums number x[j, k]. */
  lemma StartMeaning(inst: Instance, ts: seq<int>, keys: seq<Key>, rule: StartRule, j: nat, k: nat, x: seq<int>)
    requires inst.Fits() && j < inst.tasks && k < inst.facilities
    requires StartKeysPresent(inst, ts, keys, rule, j, k)
    requires Binary01(x) && Offset(inst.tasks, inst.facilities) <= |x|
    ensures Satisfies(StartCons(inst, ts, keys, rule, j, k), x) <==>
            Picks(StartHandles(inst.tasks, inst.facilities, keys, j, k, StartTimes(inst, ts, rule, j, k)), x) ==
            x[XH(inst.tasks, inst.facilities, j, k)]
  {
    var hs := StartHandles(inst.tasks, inst.facilities, keys, j, k, StartTimes(inst, ts, rule, j, k));
    EvalSnoc(UnitTerms(hs), XH(inst.tasks, inst.facilities, j, k), -1.0, x);
    TermsUnit(hs, x);
  }

  /** Σ_{j < n} r[j, k] * (starts of task j on k in range(t - p[j, k], t + 1)). */
  function Usage(inst: Instance, keys: seq<Key>, k: nat, t: int, x: seq<int>, n: nat): real
    requires inst.Fits() && k < inst.facilities && n <= inst.tasks
  {
    if n == 0 then 0.0
    else
      Usage(inst, keys, k, t, x, n - 1) +
      Times(inst.r[n - 1][k] as real,
            Picks(Present(inst.tasks, inst.facilities, keys, n - 1, k, Range(t - inst.p[n - 1][k], t + 1)), x))
  }

  lemma {:induction false} UsageValue(inst: Instance, keys: seq<Key>, k: nat, t: int, x: seq<int>, n: nat)
    requires inst.Fits() && k < inst.facilities && n <= inst.tasks && Binary01(x)
    ensures TermsValue(Join(UseRows(inst, keys, k, t)[..n]), x) == Usage(inst, keys, k, t, x, n)
  {
    var rows := UseRows(inst, keys, k, t);
    if n == 0 {
      assert rows[..n] == [];
    } else {
      UsageValue(inst, keys, k, t, x, n - 1);
      JoinSnoc(rows, n - 1);
      var prefix, last := Join(rows[..n - 1]), rows[n - 1];
      TermsValueConcat(prefix, last, x);
      var hs, c := Present(inst.tasks, inst.facilities, keys, n - 1, k, Range(t - inst.p[n - 1][k], t + 1)), inst.r[n - 1][k] as real;
      assert last == ScaledTerms(hs, c);
      TermsScaled(hs, c, x);
    }
  }

  /** (14) holds for a 0/1 assignment exactly when the resources used on k at t are at most C[k]. */
  lemma CapacityMeaning(inst: Instance, keys: seq<Key>, k: nat, t: int, x: seq<int>)
    requires inst.Fits() && k < inst.facilities && Binary01(x)
    ensures Satisfies(CapacityCons(inst, keys, k, t), x) <==> Usage(inst, keys, k, t, x, inst.tasks) <= inst.C[k] as real
  {
    var rows := UseRows(inst, keys, k, t);
    UsageValue(inst, keys, k, t, x, inst.tasks);
    assert rows[..inst.tasks] == rows;
    EvalQuicksum(Join(rows), x);
  }

  /** Σ p[j, k] r[j, k] over the jobs j < n inside [t1, t2] that x puts on k. */
  function Energy(inst: Instance, k: nat, t1: int, t2: real, x: seq<int>, n: nat): real
    requires inst.Fits() && k < inst.facilities && n <= inst.tasks && Offset(inst.tasks, inst.facilities) <= |x|
  {
    if n == 0 then 0.0
    else
      Energy(inst, k, t1, t2, x, n - 1) +
      (if Inside(inst, n - 1, t1, t2) && x[XH(inst.tasks, inst.facilities, n - 1, k)] == 1
       then (inst.p[n - 1][k] * inst.r[n - 1][k]) as real else 0.0)
  }

  lemma {:induction false} EnergyValue(inst: Instance, k: nat, t1: int, t2: real, x: seq<int>, n: nat)
    requires inst.Fits() && k < inst.facilities && n <= inst.tasks
    requires Binary01(x) && Offset(inst.tasks, inst.facilities) <= |x|
    ensures TermsValue(EnergyTerms(inst, k, t1, t2, n), x) == Energy(inst, k, t1, t2, x, n)
  {
    if n > 0 {
      EnergyValue(inst, k, t1, t2, x, n - 1);
      var h := XH(inst.tasks, inst.facilities, n - 1, k);
      var tail: seq<Term> := if Inside(inst, n - 1, t1, t2) then [(h, (inst.p[n - 1][k] * inst.r[n - 1][k]) as real)] else [];
      TermsValueConcat(EnergyTerms(inst, k, t1, t2, n - 1), tail, x);
      assert |tail[..0]| == 0;
    }
  }

  /** (15) holds for a 0/1 assignment exactly when the work x puts on k inside [t1, t2] fits C[k] (t2 - t1). */
  lemma EnergyMeaning(inst: Instance, k: nat, e: (int, real), x: seq<int>)
    requires inst.Fits() && k < inst.facilities
    requires Binary01(x) && Offset(inst.tasks, inst.facilities) <= |x|
    ensures Satisfies(EnergyCons(inst, k, e), x) <==>
            Energy(inst, k, e.0, e.1, x, inst.tasks) <= Room(inst.C[k], e.0, e.1)
  {
    EnergyValue(inst, k, e.0, e.1, x, inst.tasks);
    EvalQuicksum(EnergyTerms(inst, k, e.0, e.1, inst.tasks), x);
  }

  /** A pair (t1, t2) is in epsilon exactly when t1 is a release time below the deadline t2. */
  lemma {:induction false} EpsilonRowMember(t1: int, ds: seq<real>, e: (int, real))
    ensures e in EpsilonRow(t1, ds) <==> e.0 == t1 && e.1 in ds && (t1 as real) < e.1
  {
    if ds != [] {
      var m := |ds| - 1;
      EpsilonRowMember(t1, ds[..m], e);
      assert ds == ds[..m] + [ds[m]];
    }
  }

  lemma EpsilonMember(R: seq<int>, ds: seq<real>, e: (int, real))
    ensures e in Epsilon(R, ds) <==> e.0 in R && e.1 in ds && (e.0 as real) < e.1
  {
    var rows := EpsilonRows(R, ds);
    JoinContains(rows, e);
    if e in Epsilon(R, ds) {
      var a :| 0 <= a < |rows| && e in rows[a];
      EpsilonRowMember(R[a], ds, e);
    }
    if e.0 in R && e.1 in ds && (e.0 as real) < e.1 {
      var a :| 0 <= a < |R| && R[a] == e.0;
      EpsilonRowMember(R[a], ds, e);
      assert e in rows[a];
    }
  }

  // ---------------------------------------------------------------- solutions of the model

  lemma AssignConsAt(inst: Instance, rule: StartRule, j: nat)
    requires inst.Fits() && inst.R != [] && inst.d != [] && j < inst.tasks
    requires StartsPresent(inst, TimeSteps(inst), YKeys(inst, TimeSteps(inst)), rule)
    ensures j < |HeinzModel(inst, rule).conss| && HeinzModel(inst, rule).conss[j] == AssignCons(inst.tasks, inst.facilities, j)
  {
    var ts := TimeSteps(inst);
    var keys := YKeys(inst, ts);
    var a, b := AssignConss(inst.tasks, inst.facilities), Flatten(StartBlocks(inst, ts, keys, rule));
    var c, e := Flatten(CapacityBlocks(inst, ts, keys)), Flatten(EnergyBlocks(inst, Epsilon(inst.R, inst.d)));
    assert (a + b + c + e)[j] == a[j];
  }

  /** Within the flattened blocks (13), the constraint of (j, k) is entry j F + k. */
  lemma StartBlockCell(inst: Instance, ts: seq<int>, keys: seq<Key>, rule: StartRule, j: nat, k: nat)
    requires inst.Fits() && StartsPresent(inst, ts, keys, rule) && j < inst.tasks && k < inst.facilities
    ensures XH(inst.tasks, inst.facilities, j, k) < |Flatten(StartBlocks(inst, ts, keys, rule))|
    ensures Flatten(StartBlocks(inst, ts, keys, rule))[XH(inst.tasks, inst.facilities, j, k)] ==
            StartCons(inst, ts, keys, rule, j, k)
  {
    var bs := StartBlocks(inst, ts, keys, rule);
    FlattenIsJoin(bs);
    JoinCell(bs, inst.facilities, j, k);
  }

  /** (13) of (j, k) is constraint T + j F + k. */
  lemma StartConsAt(inst: Instance, rule: StartRule, j: nat, k: nat)
    requires inst.Fits() && inst.R != [] && inst.d != [] && j < inst.tasks && k < inst.facilities
    requires StartsPresent(inst, TimeSteps(inst), YKeys(inst, TimeSteps(inst)), rule)
    ensures inst.tasks + XH(inst.tasks, inst.facilities, j, k) < |HeinzModel(inst, rule).conss|
    ensures HeinzModel(inst, rule).conss[inst.tasks + XH(inst.tasks, inst.facilities, j, k)] ==
            StartCons(inst, TimeSteps(inst), YKeys(inst, TimeSteps(inst)), rule, j, k)
  {
    var ts := TimeSteps(inst);
    var keys := YKeys(inst, ts);
    var a, b := AssignConss(inst.tasks, inst.facilities), Flatten(StartBlocks(inst, ts, keys, rule));
    var c, e := Flatten(CapacityBlocks(inst, ts, keys)), Flatten(EnergyBlocks(inst, Epsilon(inst.R, inst.d)));
    StartBlockCell(inst, ts, keys, rule, j, k);
    ConcatAt(a, b, c, e, XH(inst.tasks, inst.facilities, j, k));
    assert HeinzModel(inst, rule).conss == a + b + c + e;
  }

  /** A feasible assignment is 0/1, covers every x, and meets (12) of task j and (13) of each of its facilities. */
  lemma FeasibleParts(inst: Instance, rule: StartRule, j: nat, x: seq<int>)
    requires inst.Fits() && inst.R != [] && inst.d != [] && j < inst.tasks
    requires StartsPresent(inst, TimeSteps(inst), YKeys(inst, TimeSteps(inst)), rule)
    ensures Feasible(HeinzModel(inst, rule), x) ==>
              Binary01(x) && Offset(inst.tasks, inst.facilities) <= |x| &&
              Satisfies(AssignCons(inst.tasks, inst.facilities, j), x) &&
              forall k :: 0 <= k < inst.facilities ==>
                Satisfies(StartCons(inst, TimeSteps(inst), YKeys(inst, TimeSteps(inst)), rule, j, k), x)
  {
    var m := HeinzModel(inst, rule);
    var keys := YKeys(inst, TimeSteps(inst));
    HeinzVarsBinary(inst, keys);
    XVarsSize(inst);
    AssignConsAt(inst, rule, j);
    forall k | 0 <= k < inst.facilities ensures Feasible(m, x) ==> Satisfies(StartCons(inst, TimeSteps(inst), keys, rule, j, k), x) {
      StartConsAt(inst, rule, j, k);
    }
    assert Feasible(m, x) ==> Binary01(x) by {
      forall h | Feasible(m, x) && 0 <= h < |x| ensures x[h] == 0 || x[h] == 1 {
        assert NamedBinary(m.vars[h]) && InBounds(m.vars[h], x[h]);
      }
    }
  }

  // ---------------------------------------------------------------- the feasible set, both ways

  /** How many of the start variables (13) sums for (j, k) x sets to one. */
  function Starts(inst: Instance, ts: seq<int>, keys: seq<Key>, rule: StartRule, j: nat, k: nat, x: seq<int>): nat
    requires inst.Fits() && j < inst.tasks && k < inst.facilities
    requires StartKeysPresent(inst, ts, keys, rule, j, k)
  {
    Picks(StartHandles(inst.tasks, inst.facilities, keys, j, k, StartTimes(inst, ts, rule, j, k)), x)
  }

  /** (12) in words: every task is put on exactly one facility. */
  predicate AllAssigned(T: nat, F: nat, x: seq<int>) {
    forall j :: 0 <= j < T ==> Picks(XRowHandles(T, F, j), x) == 1
  }

  /** (13) in words: each task starts on each facility as often as it is assigned there. */
  predicate StartsMatch(inst: Instance, ts: seq<int>, keys: seq<Key>, rule: StartRule, x: seq<int>)
    requires inst.Fits() && StartsPresent(inst, ts, keys, rule) && Offset(inst.tasks, inst.facilities) <= |x|
  {
    forall j, k :: 0 <= j < inst.tasks && 0 <= k < inst.facilities ==>
      Starts(inst, ts, keys, rule, j, k, x) == x[XH(inst.tasks, inst.facilities, j, k)]
  }

  /** (14) in words: the resources in use on each facility at each time step are within its capacity. */
  predicate WithinCapacity(inst: Instance, ts: seq<int>, keys: seq<Key>, x: seq<int>)
    requires inst.Fits()
  {
    forall k, q :: 0 <= k < inst.facilities && 0 <= q < |ts| ==>
      Usage(inst, keys, k, ts[q], x, inst.tasks) <= inst.C[k] as real
  }

  /** (15) in words: the work inside each window fits what each facility can do in it. */
  predicate WithinRoom(inst: Instance, eps: seq<(int, real)>, x: seq<int>)
    requires inst.Fits() && Offset(inst.tasks, inst.facilities) <= |x|
  {
    forall k, q :: 0 <= k < inst.facilities && 0 <= q < |eps| ==>
      Energy(inst, k, eps[q].0, eps[q].1, x, inst.tasks) <= Room(inst.C[k], eps[q].0, eps[q].1)
  }

  /**
   * What a solution of Model 4 is: one 0/1 value per variable that meets
   * (12), (13), (14) and (15) as stated in words above.
   */
  predicate Schedule(inst: Instance, rule: StartRule, x: seq<int>)
    requires inst.Fits() && inst.R != [] && inst.d != []
    requires StartsPresent(inst, TimeSteps(inst), YKeys(inst, TimeSteps(inst)), rule)
  {
    var ts := TimeSteps(inst);
    var keys := YKeys(inst, ts);
    |x| == Offset(inst.tasks, inst.facilities) + |keys| && Binary01(x) &&
    AllAssigned(inst.tasks, inst.facilities, x) && StartsMatch(inst, ts, keys, rule, x) &&
    WithinCapacity(inst, ts, keys, x) && WithinRoom(inst, Epsilon(inst.R, inst.d), x)
  }

  /** Meeting every (12) is putting every task on exactly one facility. */
  lemma AssignPart(T: nat, F: nat, x: seq<int>)
    requires Binary01(x)
    ensures SatisfiesAll(AssignConss(T, F), x) <==> AllAssigned(T, F, x)
  {
    forall j | 0 <= j < T ensures Satisfies(AssignCons(T, F, j), x) <==> Picks(XRowHandles(T, F, j), x) == 1 {
      AssignMeaning(T, F, j, x);
    }
  }

  /** Meeting every (13) is starting each task on each facility as often as it is assigned there. */
  lemma StartPart(inst: Instance, ts: seq<int>, keys: seq<Key>, rule: StartRule, x: seq<int>)
    requires inst.Fits() && StartsPresent(inst, ts, keys, rule)
    requires Binary01(x) && Offset(inst.tasks, inst.facilities) <= |x|
    ensures SatisfiesAll(Flatten(StartBlocks(inst, ts, keys, rule)), x) <==> StartsMatch(inst, ts, keys, rule, x)
  {
    var bs := StartBlocks(inst, ts, keys, rule);
    SatisfiesFlatten(bs, x);
    forall j, k | 0 <= j < inst.tasks && 0 <= k < inst.facilities
      ensures Satisfies(bs[j][k], x) <==> Starts(inst, ts, keys, rule, j, k, x) == x[XH(inst.tasks, inst.facilities, j, k)]
    {
      StartMeaning(inst, ts, keys, rule, j, k, x);
    }
  }

  /** Meeting every (14) is keeping each facility within capacity at each time step. */
  lemma CapacityPart(inst: Instance, ts: seq<int>, keys: seq<Key>, x: seq<int>)
    requires inst.Fits() && Binary01(x)
    ensures SatisfiesAll(Flatten(CapacityBlocks(inst, ts, keys)), x) <==> WithinCapacity(inst, ts, keys, x)
  {
    var bs := CapacityBlocks(inst, ts, keys);
    SatisfiesFlatten(bs, x);
    forall k, q | 0 <= k < inst.facilities && 0 <= q < |ts|
      ensures Satisfies(bs[k][q], x) <==> Usage(inst, keys, k, ts[q], x, inst.tasks) <= inst.C[k] as real
    {
      CapacityMeaning(inst, keys, k, ts[q], x);
    }
  }

  /** Meeting every (15) is fitting the work of each window into each facility. */
  lemma EnergyPart(inst: Instance, eps: seq<(int, real)>, x: seq<int>)
    requires inst.Fits() && Binary01(x) && Offset(inst.tasks, inst.facilities) <= |x|
    ensures SatisfiesAll(Flatten(EnergyBlocks(inst, eps)), x) <==> WithinRoom(inst, eps, x)
  {
    var bs := EnergyBlocks(inst, eps);
    SatisfiesFlatten(bs, x);
    forall k, q | 0 <= k < inst.facilities && 0 <= q < |eps|
      ensures Satisfies(bs[k][q], x) <==> Energy(inst, k, eps[q].0, eps[q].1, x, inst.tasks) <= Room(inst.C[k], eps[q].0, eps[q].1)
    {
      EnergyMeaning(inst, k, eps[q], x);
    }
  }

  /** A binary variable admits exactly the values 0 and 1. */
  lemma HeinzBounds(inst: Instance, keys: seq<Key>, x: seq<int>)
    requires inst.Fits() && |x| == |HeinzVars(inst, keys)|
    ensures (forall h :: 0 <= h < |x| ==> InBounds(HeinzVars(inst, keys)[h], x[h])) <==> Binary01(x)
  {
    var vs := HeinzVars(inst, keys);
    HeinzVarsBinary(inst, keys);
    assert forall h :: 0 <= h < |x| ==> (InBounds(vs[h], x[h]) <==> x[h] == 0 || x[h] == 1);
  }

  /** Meeting every constraint is meeting (12), (13), (14) and (15) in words. */
  lemma ConssPart(inst: Instance, ts: seq<int>, keys: seq<Key>, rule: StartRule, x: seq<int>)
    requires inst.Fits() && StartsPresent(inst, ts, keys, rule)
    requires Binary01(x) && Offset(inst.tasks, inst.facilities) <= |x|
    ensures SatisfiesAll(HeinzConss(inst, ts, keys, rule), x) <==>
            AllAssigned(inst.tasks, inst.facilities, x) && StartsMatch(inst, ts, keys, rule, x) &&
            WithinCapacity(inst, ts, keys, x) && WithinRoom(inst, Epsilon(inst.R, inst.d), x)
  {
    var eps := Epsilon(inst.R, inst.d);
    var a, b := AssignConss(inst.tasks, inst.facilities), Flatten(StartBlocks(inst, ts, keys, rule));
    var c, e := Flatten(CapacityBlocks(inst, ts, keys)), Flatten(EnergyBlocks(inst, eps));
    SatisfiesAllAppend(a + b + c, e, x);
    SatisfiesAllAppend(a + b, c, x);
    SatisfiesAllAppend(a, b, x);
    AssignPart(inst.tasks, inst.facilities, x);
    StartPart(inst, ts, keys, rule, x);
    CapacityPart(inst, ts, keys, x);
    EnergyPart(inst, eps, x);
  }

  /** The model of heinz_formulation admits exactly the schedules. */
  lemma FeasibleIffSchedule(inst: Instance, rule: StartRule, x: seq<int>)
    requires inst.Fits() && inst.R != [] && inst.d != []
    requires StartsPresent(inst, TimeSteps(inst), YKeys(inst, TimeSteps(inst)), rule)
    ensures Feasible(HeinzModel(inst, rule), x) <==> Schedule(inst, rule, x)
  {
    var ts := TimeSteps(inst);
    var keys := YKeys(inst, ts);
    var eps := Epsilon(inst.R, inst.d);
    var m := HeinzModel(inst, rule);
    assert m.conss == HeinzConss(inst, ts, keys, rule) && m.removed == {};
    XVarsSize(inst);
    if |x| == |m.vars| {
      HeinzBounds(inst, keys, x);
      if Binary01(x) {
        ConssPart(inst, ts, keys, rule, x);
      }
    }
  }
}
