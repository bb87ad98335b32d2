/**
 * A small instance on which constraint (a) of the late tasks formulation, as
 * written, does not mark a late task as late: quicksum subtracts d[j] once per
 * facility, so with two facilities L_j is forced only once a task ends after
 * 2 d[j]. With d[j] subtracted once, the same assignment is excluded.
 */
module SchedulingHookerExample {
  import opened Common
  import opened Mip
  import opened SchedulingHooker


  /** Two facilities, one task, ten steps; task 0 takes 5 steps anywhere and is due at 3. */
  function LateExample(): Instance {
    Instance(2, 1, 10, [[5, 5]], [10, 10], [[1, 1]], [0], [3.0])
  }

  /** Every variable zero except x[0, 0, 0]: task 0 starts on facility 0 at step 0 and L_0 = 0. */
  function StartFirst(inst: Instance): (x: seq<int>)
    requires 0 < inst.tasks && 0 < inst.facilities && 0 < inst.steps
    ensures var T, F, N := inst.tasks, inst.facilities, inst.steps;
            |x| == T + Offset(T, Offset(F, N)) && Binary01(x) && x[XH(T, F, N, 0, 0, 0)] == 1 && x[0] == 0
  {
    var T, F, N := inst.tasks, inst.facilities, inst.steps;
    var h := XH(T, F, N, 0, 0, 0);
    seq(T + Offset(T, Offset(F, N)), k requires 0 <= k < T + Offset(T, Offset(F, N)) => if k == h then 1 else 0)
  }

  /** The example has the shape the lemmas below need, and its task is late: 5 > 3, yet 5 <= 2 * 3. */
  lemma LateExampleFits(inst: Instance)
    requires inst == LateExample()
    ensures inst.Fits() && 0 < inst.tasks && 0 < inst.steps && 0 < inst.facilities
    ensures forall i :: 0 <= i < inst.facilities ==> inst.p[0][i] >= 0
    ensures (inst.p[0][0] as real) > inst.d[0] && (inst.p[0][0] as real) <= Times(inst.d[0], inst.facilities)
  {
  }

  /** Of the terms of (a) for task 0 at step 0, StartFirst picks only the first: the first n add up to -p[0, 0]. */
  lemma {:induction false} FirstTermsValue(inst: Instance, n: nat)
    requires inst.Fits() && 0 < inst.tasks && 0 < inst.steps && 1 <= n <= inst.facilities
    ensures TermsValue(LateTerms(inst, 0, 0)[..n], StartFirst(inst)) == -(inst.p[0][0] as real)
  {
    var T, F, N := inst.tasks, inst.facilities, inst.steps;
    var ts: seq<Term> := LateTerms(inst, 0, 0);
    var x := StartFirst(inst);
    if n == 1 {
      assert ts[..1][..0] == [];
    } else {
      FirstTermsValue(inst, n - 1);
      assert ts[..n][..n - 1] == ts[..n - 1];
      XHDistinct(T, F, N, 0, n - 1, 0, 0, 0, 0);
      assert x[XH(T, F, N, 0, n - 1, 0)] == 0;
    }
  }

  /**
   * With d[0] subtracted once per facility, a start of task 0 at step 0 that ends by
   * F * d[0] meets (a) with L_0 = 0, however late it is.
   */
  lemma AsWrittenLateUnforced(inst: Instance)
    requires inst.Fits() && 0 < inst.tasks && 0 < inst.steps && 0 < inst.facilities
    requires (inst.p[0][0] as real) <= Times(inst.d[0], inst.facilities)
    ensures Satisfies(LateCons(inst, inst.facilities, 0, 0), StartFirst(inst))
    ensures StartFirst(inst)[XH(inst.tasks, inst.facilities, inst.steps, 0, 0, 0)] == 1 && StartFirst(inst)[0] == 0
  {
    var ts := LateTerms(inst, 0, 0);
    FirstTermsValue(inst, inst.facilities);
    assert ts[..inst.facilities] == ts;
    EvalSnoc(ts, 0, inst.steps as real, StartFirst(inst));
  }

  /** With d[0] subtracted once, a start at step 0 that ends after d[0] violates (a) unless L_0 = 1. */
  lemma CorrectedLateForced(inst: Instance)
    requires inst.Fits() && 0 < inst.tasks && 0 < inst.steps && 0 < inst.facilities
    requires forall i :: 0 <= i < inst.facilities ==> inst.p[0][i] >= 0
    requires (inst.p[0][0] as real) > Times(inst.d[0], 1)
    ensures !Satisfies(LateCons(inst, 1, 0, 0), StartFirst(inst))
  {
    if Satisfies(LateCons(inst, 1, 0, 0), StartFirst(inst)) {
      LateForced(inst, 1, 0, 0, 0, StartFirst(inst));
    }
  }
}
