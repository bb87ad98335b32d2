/**
 * geco/mips/set_cover/generic.py: the set cover formulation. One binary
 * variable per element, priced by its cost; one covering constraint per set;
 * minimise.
 */
module SetCover {
  import opened Common
  import opened Mip
  import Naming

  /** The model set_cover(costs, sets) builds. */
  ghost predicate IsSetCoverModel(m: Model, costs: seq<real>, sets: seq<set<nat>>) {
    m.name == "Set Cover" && m.removed == {} && m.sense == Minimize &&
    |m.vars| == |costs| &&
    (forall i :: 0 <= i < |costs| ==> m.vars[i] == BinaryVar("v_" + Naming.NatToString(i), costs[i])) &&
    |m.conss| == |sets| &&
    (forall k :: 0 <= k < |sets| ==> m.conss[k] == Cons(Indicator(sets[k]), Ge, 1.0))
  }

  /** Every set names only elements that have a variable. */
  predicate ElementsInRange(n: nat, sets: seq<set<nat>>) {
    forall k, i :: 0 <= k < |sets| && i in sets[k] ==> i < n
  }

  /** quicksum(variables[i] for i in s): the loop over s, in whatever order it yields. */
  method SumOver(s: set<nat>) returns (e: Expr)
    ensures e == Indicator(s)
  {
    e := map[];
    var rest := s;
    while rest != {}
      invariant rest <= s
      invariant e == Indicator(s - rest)
      decreases |rest|
    {
      var j :| j in rest;
      e := Plus(e, j, 1.0);
      rest := rest - {j};
    }
  }

  method SetCover(costs: seq<real>, sets: seq<set<nat>>) returns (m: Model)
    requires ElementsInRange(|costs|, sets)
    ensures IsSetCoverModel(m, costs, sets) && m.WellFormed()
  {
    m := NewModel("Set Cover");
    var i := 0;
    while i < |costs|
      invariant 0 <= i <= |costs|
      invariant m.name == "Set Cover" && m.removed == {} && m.sense == Minimize && m.conss == []
      invariant |m.vars| == i
      invariant forall j :: 0 <= j < i ==> m.vars[j] == BinaryVar("v_" + Naming.NatToString(j), costs[j])
    {
      m := m.AddVar(BinaryVar("v_" + Naming.NatToString(i), costs[i]));
      i := i + 1;
    }
    var k := 0;
    while k < |sets|
      invariant 0 <= k <= |sets|
      invariant m.name == "Set Cover" && m.removed == {} && m.sense == Minimize
      invariant |m.vars| == |costs|
      invariant forall j :: 0 <= j < |costs| ==> m.vars[j] == BinaryVar("v_" + Naming.NatToString(j), costs[j])
      invariant |m.conss| == k
      invariant forall j :: 0 <= j < k ==> m.conss[j] == Cons(Indicator(sets[j]), Ge, 1.0)
    {
      var e := SumOver(sets[k]);
      m := m.AddCons(Cons(e, Ge, 1.0));
      k := k + 1;
    }
    m := m.SetSense(Minimize);
  }

  lemma WellFormedCover(m: Model, costs: seq<real>, sets: seq<set<nat>>)
    requires IsSetCoverModel(m, costs, sets) && ElementsInRange(|costs|, sets)
    ensures m.WellFormed()
  {
  }

  /**
   * The meaning of the formulation: an assignment is feasible exactly when it
   * picks elements with 0/1 values and every set contains a picked element.
   */
  lemma FeasibleIffCover(m: Model, costs: seq<real>, sets: seq<set<nat>>, x: seq<int>)
    requires IsSetCoverModel(m, costs, sets)
    ensures Feasible(m, x)
            <==> (|x| == |costs| && Binary01(x) &&
                  forall k :: 0 <= k < |sets| ==> Chosen(sets[k], x) != {})
  {
    if |x| == |costs| && Binary01(x) {
      forall k | 0 <= k < |sets|
        ensures Satisfies(m.conss[k], x) <==> Chosen(sets[k], x) != {}
      {
        EvalIndicator(sets[k], x);
      }
    }
    if Feasible(m, x) {
      assert forall h :: 0 <= h < |x| ==> InBounds(m.vars[h], x[h]);
    }
  }

  /** set_cover([1], [{0}]) has optimum 1. */
  lemma SingleElementOptimum(m: Model)
    requires IsSetCoverModel(m, [1.0], [{0}])
    ensures IsOptimum(m, 1.0)
  {
    var one := [1];
    FeasibleIffCover(m, [1.0], [{0}], one);
    assert Chosen({0}, one) == {0};
    assert Objective(m, one) == 1.0;
    forall x | Feasible(m, x) ensures Better(m, 1.0, Objective(m, x)) {
      FeasibleIffCover(m, [1.0], [{0}], x);
      assert Chosen([{0}][0], x) != {};
      assert x == one;
    }
  }

  /** set_cover([1, 1, 1], [{0}, {1}, {2}]) has optimum 3: every element must be picked. */
  lemma ThreeSingletonsOptimum(m: Model)
    requires IsSetCoverModel(m, [1.0, 1.0, 1.0], [{0}, {1}, {2}])
    ensures IsOptimum(m, 3.0)
  {
    var costs, sets := [1.0, 1.0, 1.0], [{0}, {1}, {2}];
    var all := [1, 1, 1];
    FeasibleIffCover(m, costs, sets, all);
    assert Chosen({0}, all) == {0} && Chosen({1}, all) == {1} && Chosen({2}, all) == {2};
    assert Objective(m, all) == 3.0;
    forall x | Feasible(m, x) ensures Better(m, 3.0, Objective(m, x)) {
      FeasibleIffCover(m, costs, sets, x);
      assert 0 in Chosen(sets[0], x) && 1 in Chosen(sets[1], x) && 2 in Chosen(sets[2], x);
      assert x == all;
    }
  }
}

/**
 * geco/mips/set_cover/yang.py: parameters after Yang et al. — n = 10m
 * elements with costs in [1, 100], and m sets, each a uniform sample of
 * 2n//25+1 .. 3n//25-1 distinct elements.
 */
module SetCoverYang {
  import opened Common
  import opened Mip
  import opened Rand
  import SetCover

  function SizeLo(n: int): int { 2 * n / 25 + 1 }
  function SizeHi(n: int): int { 3 * n / 25 - 1 }

  lemma DivIs(x: int, y: int)
    requires 25 * y <= x < 25 * y + 25
    ensures x / 25 == y
  {
  }

  /**
   * The set-size range passed to randint is non-empty exactly when m >= 5:
   * for m = 1..4 yang_params raises instead of returning.
   */
  lemma SizeRangeNonEmpty(m: nat)
    ensures SizeLo(10 * m) <= SizeHi(10 * m) <==> m >= 5
  {
    var q, r := m / 5, m % 5;
    assert m == 5 * q + r;
    var lo := match r case 0 => 0 case 1 => 0 case 2 => 1 case 3 => 2 case _ => 3;
    var hi := match r case 0 => 0 case 1 => 1 case 2 => 2 case 3 => 3 case _ => 4;
    DivIs(2 * (10 * m), 4 * q + lo);
    DivIs(3 * (10 * m), 6 * q + hi);
  }

  /** A size draw, then a sample of that many elements of range(n), which make up t. */
  ghost predicate SetDrawn(n: nat, size: Draw, sample: Draw, t: set<nat>) {
    size.IntDraw? && size.lo == SizeLo(n) && size.hi == SizeHi(n) &&
    sample.SampleDraw? && sample.population == n && sample.k == size.value && ToSet(sample.picked) == t
  }

  ghost predicate SetDraws(n: nat, draws: seq<Draw>, sets: seq<set<nat>>) {
    |draws| == 2 * |sets| &&
    forall k :: 0 <= k < |sets| ==> SetDrawn(n, draws[2 * k], draws[2 * k + 1], sets[k])
  }

  /**
   * The draws yang_params makes, in order — n cost draws, then per set a size
   * draw followed by a sample of that size — and how its result is read off them.
   */
  ghost predicate YangDraws(m: nat, draws: seq<Draw>, costs: seq<int>, sets: seq<set<nat>>) {
    var n := 10 * m;
    |costs| == n && |sets| == m && |draws| == n + 2 * m &&
    IntsDrawn(draws[..n], 1, 100, costs) && SetDraws(n, draws[n..], sets)
  }

  /** What the tests and the paper promise of the parameters. */
  ghost predicate YangShape(m: nat, costs: seq<int>, sets: seq<set<nat>>) {
    var n := 10 * m;
    |costs| == n && |sets| == m &&
    (forall i :: 0 <= i < n ==> 1 <= costs[i] <= 100) &&
    (forall k :: 0 <= k < m ==> SizeLo(n) <= |sets[k]| <= SizeHi(n)) &&
    SetCover.ElementsInRange(n, sets)
  }

  method YangParams(m: nat, s: Sampler) returns (costs: seq<int>, sets: seq<set<nat>>, ghost draws: seq<Draw>)
    requires s.Valid() && (m == 0 || m >= 5)
    modifies s
    ensures s.Valid() && s.log == old(s.log) + draws
    ensures YangDraws(m, draws, costs, sets)
    ensures YangShape(m, costs, sets)
  {
    ghost var start := s.log;
    var n := 10 * m;
    costs := [];
    ghost var costDraws: seq<Draw> := [];
    var i := 0;
    while i < n
      invariant 0 <= i <= n && |costs| == i
      invariant s.Valid() && s.log == start + costDraws && IntsDrawn(costDraws, 1, 100, costs)
      invariant forall j :: 0 <= j < i ==> 1 <= costs[j] <= 100
    {
      var c := s.RandInt(1, 100);
      costs := costs + [c];
      costDraws := costDraws + [IntDraw(1, 100, c)];
      i := i + 1;
    }
    if m > 0 { SizeRangeNonEmpty(m); }
    sets := [];
    ghost var setDraws: seq<Draw> := [];
    var k := 0;
    while k < m
      invariant 0 <= k <= m && |sets| == k
      invariant s.Valid() && s.log == start + costDraws + setDraws && SetDraws(n, setDraws, sets)
      invariant forall j :: 0 <= j < k ==> SizeLo(n) <= |sets[j]| <= SizeHi(n)
      invariant SetCover.ElementsInRange(n, sets)
    {
      var size := s.RandInt(SizeLo(n), SizeHi(n));
      var picked := s.Sample(n, size);
      DistinctCard(picked);
      ghost var size1, sample1 := IntDraw(SizeLo(n), SizeHi(n), size), SampleDraw(n, size, picked);
      assert SetDrawn(n, size1, sample1, ToSet(picked));
      setDraws := setDraws + [size1, sample1];
      sets := sets + [ToSet(picked)];
      k := k + 1;
    }
    draws := costDraws + setDraws;
    assert draws[..n] == costDraws && draws[n..] == setDraws;
  }

  lemma SetsDeterministic(n: nat, stream: nat -> Raw, b: nat,
                          d1: seq<Draw>, t1: seq<set<nat>>, d2: seq<Draw>, t2: seq<set<nat>>)
    requires SetDraws(n, d1, t1) && SetDraws(n, d2, t2) && |t1| == |t2|
    requires ExplainedFrom(stream, b, d1) && ExplainedFrom(stream, b, d2)
    ensures t1 == t2
  {
    forall k | 0 <= k < |t1| ensures t1[k] == t2[k] {
      assert SetDrawn(n, d1[2 * k], d1[2 * k + 1], t1[k]);
      assert SetDrawn(n, d2[2 * k], d2[2 * k + 1], t2[k]);
      SameRawSameDraw(d1[2 * k], d2[2 * k], stream(b + 2 * k));
      SameRawSameDraw(d1[2 * k + 1], d2[2 * k + 1], stream(b + 2 * k + 1));
    }
  }

  /** Parameters read off draws answered from the same raw rows are the same. */
  lemma YangDeterministic(m: nat, stream: nat -> Raw, b: nat,
                          d1: seq<Draw>, c1: seq<int>, t1: seq<set<nat>>,
                          d2: seq<Draw>, c2: seq<int>, t2: seq<set<nat>>)
    requires YangDraws(m, d1, c1, t1) && YangDraws(m, d2, c2, t2)
    requires ExplainedFrom(stream, b, d1) && ExplainedFrom(stream, b, d2)
    ensures c1 == c2 && t1 == t2
  {
    var n := 10 * m;
    ExplainedSplit(stream, b, d1, n);
    ExplainedSplit(stream, b, d2, n);
    IntsDeterministic(stream, b, 1, 100, d1[..n], c1, d2[..n], c2);
    SetsDeterministic(n, stream, b + n, d1[n..], t1, d2[n..], t2);
  }

  /** Samplers in the same state (same seed, same number of draws so far) give the same parameters. */
  method SameSeedSameParams(m: nat, s1: Sampler, s2: Sampler)
    returns (p1: (seq<int>, seq<set<nat>>), p2: (seq<int>, seq<set<nat>>))
    requires s1 != s2 && s1.Valid() && s2.Valid() && s1.stream == s2.stream && s1.pos == s2.pos
    requires m == 0 || m >= 5
    modifies s1, s2
    ensures p1 == p2
  {
    ghost var start1, start2 := s1.log, s2.log;
    var c1, t1, d1 := YangParams(m, s1);
    var c2, t2, d2 := YangParams(m, s2);
    NewDrawsExplained(s1.stream, start1, d1);
    NewDrawsExplained(s2.stream, start2, d2);
    YangDeterministic(m, s1.stream, |start1|, d1, c1, t1, d2, c2, t2);
    p1, p2 := (c1, t1), (c2, t2);
  }

  /** yang_instance: the set cover model of freshly drawn parameters. */
  method YangInstance(m: nat, s: Sampler)
    returns (model: Model, ghost costs: seq<int>, ghost sets: seq<set<nat>>)
    requires s.Valid() && (m == 0 || m >= 5)
    modifies s
    ensures s.Valid()
    ensures model.NumVars() == 10 * m && model.NumConss() == m && model.sense == Minimize
    ensures forall i :: 0 <= i < 10 * m ==> 1.0 <= model.vars[i].obj <= 100.0
    ensures forall k :: 0 <= k < m ==>
      exists t :: model.conss[k] == Cons(Indicator(t), Ge, 1.0) && SizeLo(10 * m) <= |t| <= SizeHi(10 * m)
    ensures YangShape(m, costs, sets) && SetCover.IsSetCoverModel(model, ToReals(costs), sets)
  {
    var c, t, _ := YangParams(m, s);
    costs, sets := c, t;
    model := SetCover.SetCover(ToReals(c), t);
    assert forall k :: 0 <= k < m ==> model.conss[k] == Cons(Indicator(t[k]), Ge, 1.0);
  }
}
