/**
 * Constraint (13) of heinz_formulation, as written, sums y[j, k, t] over the t
 * of range(R[j], int(d[j]) - p[j, k]) with t < len(time_steps). It compares a
 * time step with the number of time steps: the steps start at min(R), so when
 * min(R) > 0 a task released at or after len(time_steps) gets no start at
 * all, (13) forces every x[j, k] of it to 0 and (12) can no longer put it
 * anywhere. Summing over the y variables that exist, as Model 4 states it,
 * keeps such a task schedulable. The one-facility, one-task instance below
 * (release 5, deadline 10, five time steps 5..9) has no solution as written
 * and one with the corrected (13).
 */
module SchedulingHeinzExample {
  import opened Common
  import opened Mip
  import opened SchedulingHeinz

  /** One facility of capacity 10, one task: p = 2, c = 1, R = 5, d = 10.0 and r = 1. */
  function CountBoundExample(): Instance {
    Instance(1, 1, [[2]], [10], [[1]], [5], [10.0], [[1]])
  }

  /** The 0/1 assignment with a one exactly at a and at b. */
  function OnesAt(n: nat, a: nat, b: nat): (x: seq<int>)
    requires a < n && b < n
    ensures |x| == n && Binary01(x)
    ensures forall h :: 0 <= h < n ==> (x[h] == 1 <==> h == a || h == b)
  {
    seq(n, h requires 0 <= h < n => if h == a || h == b then 1 else 0)
  }

  /** Task j runs on facility k and starts there at t; nothing else is chosen. */
  function StartOnly(inst: Instance, j: nat, k: nat, t: int): (x: seq<int>)
    requires inst.Fits() && inst.R != [] && inst.d != [] && j < inst.tasks && k < inst.facilities
    requires t in Admitted(inst, j, k, TimeSteps(inst))
  {
    var keys := YKeys(inst, TimeSteps(inst));
    AdmittedMember(inst, j, k, TimeSteps(inst), t);
    YKeysMember(inst, TimeSteps(inst), Key(j, k, t));
    OnesAt(Offset(inst.tasks, inst.facilities) + |keys|, XH(inst.tasks, inst.facilities, j, k),
           YH(inst.tasks, inst.facilities, keys, Key(j, k, t)))
  }

  // ---------------------------------------------------------------- as written

  /** Nothing of s is below n when every value of s is at least n. */
  lemma {:induction false} BelowNone(s: seq<int>, n: int)
    requires forall i :: 0 <= i < |s| ==> s[i] >= n
    ensures Below(s, n) == []
  {
    if s != [] {
      var m := |s| - 1;
      assert forall i :: 0 <= i < m ==> s[..m][i] == s[i];
      BelowNone(s[..m], n);
    }
  }

  /** A task released at or after len(time_steps) gets no start time in (13) as written. */
  lemma LateReleaseNoStarts(inst: Instance, j: nat, k: nat)
    requires inst.Fits() && inst.R != [] && inst.d != [] && j < inst.tasks && k < inst.facilities
    requires inst.R[j] >= |TimeSteps(inst)|
    ensures StartTimes(inst, TimeSteps(inst), CountBound, j, k) == []
  {
    BelowNone(Range(inst.R[j], Trunc(inst.d[j]) - inst.p[j][k]), |TimeSteps(inst)|);
  }

  /**
   * As written, an instance with a task released at or after len(time_steps)
   * has no solution: (13) forces every x[j, k] of that task to 0 and (12) asks
   * for one of them to be 1.
   */
  lemma AsWrittenLateReleaseInfeasible(inst: Instance, j: nat, x: seq<int>)
    requires inst.Fits() && inst.R != [] && inst.d != [] && j < inst.tasks && 0 < inst.facilities
    requires inst.R[j] >= |TimeSteps(inst)|
    requires StartsPresent(inst, TimeSteps(inst), YKeys(inst, TimeSteps(inst)), CountBound)
    ensures !Feasible(HeinzModel(inst, CountBound), x)
  {
    var T, F := inst.tasks, inst.facilities;
    var ts := TimeSteps(inst);
    var keys := YKeys(inst, ts);
    FeasibleIffSchedule(inst, CountBound, x);
    if |x| == Offset(T, F) + |keys| && Binary01(x) && StartsMatch(inst, ts, keys, CountBound, x) {
      forall k | 0 <= k < F ensures x[XH(T, F, j, k)] == 0 {
        LateReleaseNoStarts(inst, j, k);
        assert Starts(inst, ts, keys, CountBound, j, k, x) == 0;
      }
      PicksNone(XRowHandles(T, F, j), x);
      assert Picks(XRowHandles(T, F, j), x) != 1;
    }
  }

  // ---------------------------------------------------------------- corrected

  /** Two keys have two handles. */
  lemma YHDiffer(T: nat, F: nat, keys: seq<Key>, a: Key, b: Key)
    requires a in keys && b in keys && a != b
    ensures YH(T, F, keys, a) != YH(T, F, keys, b)
  {
  }

  /** Two cells of the x grid have two handles. */
  lemma XHDiffer(T: nat, F: nat, j1: nat, k1: nat, j2: nat, k2: nat)
    requires j1 < T && k1 < F && j2 < T && k2 < F && (j1 != j2 || k1 != k2)
    ensures XH(T, F, j1, k1) != XH(T, F, j2, k2)
  {
    if XH(T, F, j1, k1) == XH(T, F, j2, k2) {
      CellInjective(j1, k1, j2, k2, F);
    }
  }

  /** An assignment whose only ones are x[j, k] and y[j, k, t] sets none of the start variables of another (j', k'). */
  lemma OtherStarts(inst: Instance, ts: seq<int>, keys: seq<Key>, j: nat, k: nat, t: int, j': nat, k': nat, x: seq<int>)
    requires inst.Fits() && j < inst.tasks && k < inst.facilities && j' < inst.tasks && k' < inst.facilities
    requires j' != j || k' != k
    requires Key(j, k, t) in keys && StartKeysPresent(inst, ts, keys, ExistingKeys, j', k')
    requires forall h :: 0 <= h < |x| ==>
               (x[h] == 1 <==> h == XH(inst.tasks, inst.facilities, j, k) || h == YH(inst.tasks, inst.facilities, keys, Key(j, k, t)))
    ensures Starts(inst, ts, keys, ExistingKeys, j', k', x) == 0
  {
    var T, F := inst.tasks, inst.facilities;
    var times := Admitted(inst, j', k', ts);
    var hs := StartHandles(T, F, keys, j', k', times);
    forall q | 0 <= q < |hs| && hs[q] < |x| ensures x[hs[q]] != 1 {
      YHDiffer(T, F, keys, Key(j', k', times[q]), Key(j, k, t));
    }
    PicksNone(hs, x);
  }

  /** An assignment whose only ones are x[j, k] and y[j, k, t] sets one start variable of (j, k). */
  lemma OwnStarts(inst: Instance, ts: seq<int>, keys: seq<Key>, j: nat, k: nat, t: int, x: seq<int>)
    requires inst.Fits() && j < inst.tasks && k < inst.facilities && Distinct(ts)
    requires t in Admitted(inst, j, k, ts)
    requires Key(j, k, t) in keys && StartKeysPresent(inst, ts, keys, ExistingKeys, j, k)
    requires forall h :: 0 <= h < |x| ==>
               (x[h] == 1 <==> h == XH(inst.tasks, inst.facilities, j, k) || h == YH(inst.tasks, inst.facilities, keys, Key(j, k, t)))
    requires YH(inst.tasks, inst.facilities, keys, Key(j, k, t)) < |x|
    ensures Starts(inst, ts, keys, ExistingKeys, j, k, x) == 1
  {
    var T, F := inst.tasks, inst.facilities;
    var times := Admitted(inst, j, k, ts);
    var hs := StartHandles(T, F, keys, j, k, times);
    AdmittedDistinct(inst, j, k, ts);
    var q :| 0 <= q < |times| && times[q] == t;
    forall q' | 0 <= q' < |hs| && q' != q && hs[q'] < |x| ensures x[hs[q']] != 1 {
      YHDiffer(T, F, keys, Key(j, k, times[q']), Key(j, k, t));
    }
    PicksOne(hs, x, q);
  }

  /** Of the start variables of (j', k'), StartOnly(j, k, t) sets one when (j', k') is (j, k), and none otherwise. */
  lemma StartOnlyStarts(inst: Instance, j: nat, k: nat, t: int, j': nat, k': nat)
    requires inst.Fits() && inst.R != [] && inst.d != [] && j < inst.tasks && k < inst.facilities
    requires t in Admitted(inst, j, k, TimeSteps(inst))
    requires j' < inst.tasks && k' < inst.facilities
    ensures var ts := TimeSteps(inst);
            var keys := YKeys(inst, ts);
            StartKeysPresent(inst, ts, keys, ExistingKeys, j', k') &&
            Starts(inst, ts, keys, ExistingKeys, j', k', StartOnly(inst, j, k, t)) ==
            StartOnly(inst, j, k, t)[XH(inst.tasks, inst.facilities, j', k')]
  {
    var T, F := inst.tasks, inst.facilities;
    var ts := TimeSteps(inst);
    var keys := YKeys(inst, ts);
    var x := StartOnly(inst, j, k, t);
    ExistingKeysPresent(inst, ts);
    assert StartKeysPresent(inst, ts, keys, ExistingKeys, j', k');
    AdmittedMember(inst, j, k, ts, t);
    YKeysMember(inst, ts, Key(j, k, t));
    if j' == j && k' == k {
      RangeDistinct(MinOf(inst.R), Trunc(MaxOf(inst.d)));
      OwnStarts(inst, ts, keys, j, k, t, x);
    } else {
      OtherStarts(inst, ts, keys, j, k, t, j', k', x);
      XHDiffer(T, F, j', k', j, k);
    }
  }

  /** StartOnly(j, k, t) puts task j on facility k alone. */
  lemma StartOnlyAssigns(inst: Instance, j: nat, k: nat, t: int)
    requires inst.Fits() && inst.R != [] && inst.d != [] && j < inst.tasks && k < inst.facilities
    requires t in Admitted(inst, j, k, TimeSteps(inst))
    ensures Picks(XRowHandles(inst.tasks, inst.facilities, j), StartOnly(inst, j, k, t)) == 1
  {
    var T, F := inst.tasks, inst.facilities;
    var keys := YKeys(inst, TimeSteps(inst));
    var x := StartOnly(inst, j, k, t);
    var a, b := XH(T, F, j, k), YH(T, F, keys, Key(j, k, t));
    var hs := XRowHandles(T, F, j);
    assert forall h :: 0 <= h < |x| ==> (x[h] == 1 <==> h == a || h == b);
    assert forall q' :: 0 <= q' < |hs| && q' != k && hs[q'] < |x| ==> x[hs[q']] != 1;
    PicksOne(hs, x, k);
  }

  /**
   * With (13) summing the y variables that exist, every admitted start time t
   * of (j, k) gives an assignment that meets (12) for task j and (13) for
   * every task and facility.
   */
  lemma CorrectedStartsMet(inst: Instance, j: nat, k: nat, t: int)
    requires inst.Fits() && inst.R != [] && inst.d != [] && j < inst.tasks && k < inst.facilities
    requires t in Admitted(inst, j, k, TimeSteps(inst))
    ensures StartsPresent(inst, TimeSteps(inst), YKeys(inst, TimeSteps(inst)), ExistingKeys)
    ensures Picks(XRowHandles(inst.tasks, inst.facilities, j), StartOnly(inst, j, k, t)) == 1
    ensures StartsMatch(inst, TimeSteps(inst), YKeys(inst, TimeSteps(inst)), ExistingKeys, StartOnly(inst, j, k, t))
  {
    ExistingKeysPresent(inst, TimeSteps(inst));
    StartOnlyAssigns(inst, j, k, t);
    forall j', k' | 0 <= j' < inst.tasks && 0 <= k' < inst.facilities
      ensures Starts(inst, TimeSteps(inst), YKeys(inst, TimeSteps(inst)), ExistingKeys, j', k', StartOnly(inst, j, k, t)) ==
              StartOnly(inst, j, k, t)[XH(inst.tasks, inst.facilities, j', k')]
    {
      StartOnlyStarts(inst, j, k, t, j', k');
    }
  }

  // ---------------------------------------------------------------- the example

  /** The example's shape: five time steps 5..9, its task released at 5 and startable at 5. */
  lemma ExampleFacts(inst: Instance)
    requires inst == CountBoundExample()
    ensures inst.Fits() && inst.R != [] && inst.d != []
    ensures TimeSteps(inst) == Range(5, 10) && inst.R[0] >= |TimeSteps(inst)|
    ensures 5 in Admitted(inst, 0, 0, TimeSteps(inst))
    ensures Epsilon(inst.R, inst.d) == [(5, 10.0)]
  {
    assert MinOf(inst.R) == 5 && MaxOf(inst.d) == 10.0;
    assert Trunc(10.0) == 10;
    assert Range(5, 10)[0] == 5;
    AdmittedMember(inst, 0, 0, TimeSteps(inst), 5);
    assert EpsilonRow(5, [10.0]) == [(5, 10.0)];
    assert EpsilonRows([5], [10.0]) == [[(5, 10.0)]];
    assert Join([[(5, 10.0)]]) == Join([[(5, 10.0)]][..0]) + [(5, 10.0)];
  }

  /** On the example, heinz_formulation as written has no solution. */
  lemma AsWrittenExampleInfeasible(inst: Instance, x: seq<int>)
    requires inst == CountBoundExample()
    ensures inst.Fits() && inst.R != [] && inst.d != []
    ensures StartsPresent(inst, TimeSteps(inst), YKeys(inst, TimeSteps(inst)), CountBound)
    ensures !Feasible(HeinzModel(inst, CountBound), x)
  {
    ExampleFacts(inst);
    NoMissingKey(inst);
    AsWrittenLateReleaseInfeasible(inst, 0, x);
  }

  /** n picks among n handles at most. */
  lemma {:induction false} PicksAtMost(hs: seq<Handle>, x: seq<int>)
    ensures Picks(hs, x) <= |hs|
  {
    if hs != [] {
      PicksAtMost(hs[..|hs| - 1], x);
    }
  }

  lemma {:induction false} TimesOne(n: nat)
    ensures Times(1.0, n) == n as real
  {
    if n > 0 {
      TimesOne(n - 1);
    }
  }

  /** The one task of the example uses at most r (p + 1) = 3 of the capacity 10 at any step. */
  lemma ExampleWithinCapacity(inst: Instance, keys: seq<Key>, x: seq<int>)
    requires inst == CountBoundExample()
    ensures WithinCapacity(inst, TimeSteps(inst), keys, x)
  {
    ExampleFacts(inst);
    forall k, q | 0 <= k < inst.facilities && 0 <= q < |TimeSteps(inst)|
      ensures Usage(inst, keys, k, TimeSteps(inst)[q], x, inst.tasks) <= inst.C[k] as real
    {
      var t := TimeSteps(inst)[q];
      var hs := Present(inst.tasks, inst.facilities, keys, 0, 0, Range(t - 2, t + 1));
      PicksAtMost(hs, x);
      TimesOne(Picks(hs, x));
      assert Usage(inst, keys, k, t, x, 1) == Usage(inst, keys, k, t, x, 0) + Times(1.0, Picks(hs, x));
    }
  }

  /** The work of the example's task, p r = 2, fits the window (5, 10.0), where the facility can do 50. */
  lemma ExampleWithinRoom(inst: Instance, x: seq<int>)
    requires inst == CountBoundExample() && Offset(inst.tasks, inst.facilities) <= |x|
    ensures WithinRoom(inst, Epsilon(inst.R, inst.d), x)
  {
    ExampleFacts(inst);
    assert Room(10, 5, 10.0) == 50.0;
    assert Energy(inst, 0, 5, 10.0, x, 1) <= 2.0 by {
      assert Energy(inst, 0, 5, 10.0, x, 0) == 0.0;
    }
  }

  /** With one task, putting it on one facility is (12) in words. */
  lemma OneTaskAssigned(T: nat, F: nat, x: seq<int>)
    requires T == 1 && Picks(XRowHandles(T, F, 0), x) == 1
    ensures AllAssigned(T, F, x)
  {
  }

  /** On the example, heinz_formulation with the corrected (13) has a solution: task 0 on facility 0, started at 5. */
  lemma CorrectedExampleFeasible(inst: Instance)
    requires inst == CountBoundExample()
    ensures inst.Fits() && inst.R != [] && inst.d != [] && 5 in Admitted(inst, 0, 0, TimeSteps(inst))
    ensures StartsPresent(inst, TimeSteps(inst), YKeys(inst, TimeSteps(inst)), ExistingKeys)
    ensures Feasible(HeinzModel(inst, ExistingKeys), StartOnly(inst, 0, 0, 5))
  {
    ExampleFacts(inst);
    var ts := TimeSteps(inst);
    var keys := YKeys(inst, ts);
    var x := StartOnly(inst, 0, 0, 5);
    CorrectedStartsMet(inst, 0, 0, 5);
    OneTaskAssigned(inst.tasks, inst.facilities, x);
    ExampleWithinCapacity(inst, keys, x);
    ExampleWithinRoom(inst, x);
    FeasibleIffSchedule(inst, ExistingKeys, x);
  }
}
