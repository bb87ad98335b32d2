/**
 * geco/mips/set_packing/generic.py (and the identical builder of the legacy
 * geco/mips/set_packing.py): the set packing formulation. One binary
 * variable per element, valued by values[i]; one packing constraint per
 * listed subset, at most one of its elements; maximise.
 */
module SetPacking {
  import opened Common
  import opened Mip
  import Naming

  /** The model set_packing(m, n, values, lists, name) builds. */
  ghost predicate IsSetPackingModel(model: Model, m: nat, n: nat, values: seq<real>, lists: seq<seq<nat>>, name: string) {
    n <= |values| && m <= |lists| &&
    model.name == name && model.removed == {} && model.sense == Maximize &&
    |model.vars| == n &&
    (forall i :: 0 <= i < n ==> model.vars[i] == BinaryVar("v_" + Naming.NatToString(i), values[i])) &&
    |model.conss| == m &&
    (forall k :: 0 <= k < m ==> model.conss[k] == Cons(UnitSum(multiset(lists[k])), Le, 1.0))
  }

  /** The first m lists name only elements below n (vars[j] would fail otherwise). */
  predicate ListsInRange(m: nat, n: nat, lists: seq<seq<nat>>) {
    m <= |lists| && forall k, j :: 0 <= k < m && 0 <= j < |lists[k]| ==> lists[k][j] < n
  }

  /** quicksum(vars[j] for j in list), a term per entry. */
  method SumOf(list: seq<nat>) returns (e: Expr)
    ensures e == UnitSum(multiset(list))
  {
    e := map[];
    var j := 0;
    while j < |list|
      invariant 0 <= j <= |list|
      invariant e == Quicksum(UnitTerms(list[..j]))
    {
      assert UnitTerms(list[..j + 1])[..j] == UnitTerms(list[..j]);
      e := Plus(e, list[j], 1.0);
      j := j + 1;
    }
    assert list[..j] == list;
    QuicksumUnit(list);
  }

  method SetPacking(m: nat, n: nat, values: seq<real>, lists: seq<seq<nat>>, name: string) returns (model: Model)
    requires n <= |values| && ListsInRange(m, n, lists)
    ensures IsSetPackingModel(model, m, n, values, lists, name) && model.WellFormed()
  {
    model := NewModel(name);
    var i := 0;
    while i < n
      invariant 0 <= i <= n
      invariant model.name == name && model.removed == {} && model.sense == Minimize && model.conss == []
      invariant |model.vars| == i
      invariant forall j :: 0 <= j < i ==> model.vars[j] == BinaryVar("v_" + Naming.NatToString(j), values[j])
    {
      model := model.AddVar(BinaryVar("v_" + Naming.NatToString(i), values[i]));
      i := i + 1;
    }
    var k := 0;
    while k < m
      invariant 0 <= k <= m
      invariant model.name == name && model.removed == {} && model.sense == Minimize
      invariant |model.vars| == n
      invariant forall j :: 0 <= j < n ==> model.vars[j] == BinaryVar("v_" + Naming.NatToString(j), values[j])
      invariant |model.conss| == k
      invariant forall j :: 0 <= j < k ==> model.conss[j] == Cons(UnitSum(multiset(lists[j])), Le, 1.0)
    {
      var e := SumOf(lists[k]);
      model := model.AddCons(Cons(e, Le, 1.0));
      k := k + 1;
    }
    model := model.SetSense(Maximize);
  }

  /**
   * The meaning of the formulation: an assignment is feasible exactly when it
   * gives every element 0 or 1 and picks at most one entry of every list.
   */
  lemma FeasibleIffPacking(model: Model, m: nat, n: nat, values: seq<real>, lists: seq<seq<nat>>, name: string, x: seq<int>)
    requires IsSetPackingModel(model, m, n, values, lists, name)
    ensures Feasible(model, x)
            <==> (|x| == n && Binary01(x) && forall k :: 0 <= k < m ==> Picks(lists[k], x) <= 1)
  {
    if |x| == n && Binary01(x) {
      forall k | 0 <= k < m ensures Satisfies(model.conss[k], x) <==> Picks(lists[k], x) <= 1 {
        QuicksumUnit(lists[k]);
        EvalUnitTerms(lists[k], x);
      }
    }
    if Feasible(model, x) {
      assert forall h :: 0 <= h < |x| ==> InBounds(model.vars[h], x[h]);
    }
  }

  /** set_packing(1, 1, [5], [[0]]) has optimum 5. */
  lemma SingleElementOptimum(model: Model, name: string)
    requires IsSetPackingModel(model, 1, 1, [5.0], [[0]], name)
    ensures IsOptimum(model, 5.0)
  {
    var one := [1];
    FeasibleIffPacking(model, 1, 1, [5.0], [[0]], name, one);
    assert [0][..0] == [];
    assert Picks([0], one) == 1;
    assert Objective(model, one) == 5.0;
    forall x | Feasible(model, x) ensures Better(model, 5.0, Objective(model, x)) {
      FeasibleIffPacking(model, 1, 1, [5.0], [[0]], name, x);
      assert x[0] == 0 || x[0] == 1;
      assert Objective(model, x) == 5.0 * (x[0] as real) + ObjectiveFrom(model, x, 1);
    }
  }
}

/**
 * geco/mips/set_packing/yang.py (and the identical generator of the legacy
 * geco/mips/set_packing.py): parameters after Yang et al. — n = 5m elements
 * valued in [1, 100], and m lists, each a sample of 2n//25+1 .. 3n//25-1
 * distinct elements. All values are drawn first, then all list sizes, then
 * all samples.
 */
module SetPackingYang {
  import opened Common
  import opened Mip
  import opened Rand
  import SetCoverYang
  import SetPacking

  function SizeLo(n: int): int { SetCoverYang.SizeLo(n) }
  function SizeHi(n: int): int { SetCoverYang.SizeHi(n) }

  /**
   * With n = 5m the size range is non-empty exactly for m = 7, m = 9 and
   * m >= 10; for the other positive m the size draws raise. (m = 0 draws no size.)
   */
  lemma SizeRangeNonEmpty(m: nat)
    ensures SizeLo(5 * m) <= SizeHi(5 * m) <==> m == 7 || m == 9 || m >= 10
  {
    var q, r := m / 5, m % 5;
    assert m == 5 * q + r;
    var lo := match r case 0 => 0 case 1 => 0 case 2 => 0 case 3 => 1 case _ => 1;
    var hi := match r case 0 => 0 case 1 => 0 case 2 => 1 case 3 => 1 case _ => 2;
    SetCoverYang.DivIs(2 * (5 * m), 2 * q + lo);
    SetCoverYang.DivIs(3 * (5 * m), 3 * q + hi);
  }

  predicate SizesOk(m: nat) { m == 0 || m == 7 || m == 9 || m >= 10 }

  function Sizes(lists: seq<seq<nat>>): (r: seq<int>)
    ensures |r| == |lists| && forall k :: 0 <= k < |lists| ==> r[k] == |lists[k]|
  {
    seq(|lists|, k requires 0 <= k < |lists| => |lists[k]|)
  }

  /** draws are sample(range(n), k=|lists[k]|) calls, one per list, in order. */
  ghost predicate SamplesDrawn(n: nat, draws: seq<Draw>, lists: seq<seq<nat>>) {
    |draws| == |lists| && forall k :: 0 <= k < |lists| ==> draws[k] == SampleDraw(n, |lists[k]|, lists[k])
  }

  /** The draws yang_parameters makes, in order, and how its result is read off them. */
  ghost predicate YangDraws(m: nat, draws: seq<Draw>, values: seq<int>, lists: seq<seq<nat>>) {
    var n := 5 * m;
    |values| == n && |lists| == m && |draws| == n + 2 * m &&
    IntsDrawn(draws[..n], 1, 100, values) && ListDraws(n, draws[n..], lists)
  }

  /** The m size draws, then the m samples. */
  ghost predicate ListDraws(n: nat, draws: seq<Draw>, lists: seq<seq<nat>>) {
    var m := |lists|;
    |draws| == 2 * m &&
    IntsDrawn(draws[..m], SizeLo(n), SizeHi(n), Sizes(lists)) && SamplesDrawn(n, draws[m..], lists)
  }

  /** What the paper promises of the parameters. */
  ghost predicate YangShape(m: nat, n: nat, values: seq<int>, lists: seq<seq<nat>>) {
    n == 5 * m && |values| == n && |lists| == m &&
    (forall i :: 0 <= i < n ==> 1 <= values[i] <= 100) &&
    (forall k :: 0 <= k < m ==> SizeLo(n) <= |lists[k]| <= SizeHi(n) && Distinct(lists[k])) &&
    SetPacking.ListsInRange(m, n, lists)
  }

  /** [seed.sample(range(n), k=num) for num in sizes] */
  method DrawSamples(n: nat, sizes: seq<int>, s: Sampler) returns (lists: seq<seq<nat>>, ghost draws: seq<Draw>)
    requires s.Valid() && forall k :: 0 <= k < |sizes| ==> 0 <= sizes[k] <= n
    modifies s
    ensures s.Valid() && s.log == old(s.log) + draws
    ensures SamplesDrawn(n, draws, lists) && Sizes(lists) == sizes
    ensures forall k :: 0 <= k < |lists| ==> Distinct(lists[k]) && forall j :: 0 <= j < |lists[k]| ==> lists[k][j] < n
  {
    lists, draws := [], [];
    var k := 0;
    while k < |sizes|
      invariant 0 <= k <= |sizes| && |lists| == k
      invariant s.Valid() && s.log == old(s.log) + draws && SamplesDrawn(n, draws, lists)
      invariant Sizes(lists) == sizes[..k]
      invariant forall i :: 0 <= i < k ==> Distinct(lists[i]) && forall j :: 0 <= j < |lists[i]| ==> lists[i][j] < n
    {
      var picked := s.Sample(n, sizes[k]);
      lists, draws := lists + [picked], draws + [SampleDraw(n, sizes[k], picked)];
      k := k + 1;
    }
    assert sizes[..k] == sizes;
  }

  method YangParameters(m: nat, s: Sampler)
    returns (n: nat, values: seq<int>, lists: seq<seq<nat>>, ghost draws: seq<Draw>)
    requires s.Valid() && SizesOk(m)
    modifies s
    ensures s.Valid() && s.log == old(s.log) + draws
    ensures YangDraws(m, draws, values, lists)
    ensures YangShape(m, n, values, lists)
  {
    n := 5 * m;
    ghost var start := s.log;
    ghost var valueDraws, sizeDraws, sampleDraws;
    values, valueDraws := RandInts(s, 1, 100, n);
    ghost var afterValues := s.log;
    var sizes;
    sizes, sizeDraws := DrawSizes(m, s);
    ghost var afterSizes := s.log;
    lists, sampleDraws := DrawSamples(n, sizes, s);
    draws := valueDraws + sizeDraws + sampleDraws;
    LogThree(start, valueDraws, sizeDraws, sampleDraws, afterValues, afterSizes, s.log);
    YangAssembled(m, values, valueDraws, sizes, sizeDraws, lists, sampleDraws);
  }

  lemma LogThree<T>(start: seq<T>, a: seq<T>, b: seq<T>, c: seq<T>, mid1: seq<T>, mid2: seq<T>, now: seq<T>)
    requires mid1 == start + a && mid2 == mid1 + b && now == mid2 + c
    ensures now == start + (a + b + c)
  {
  }

  /** sizes = [seed.randint(2n/5, 3n/5) for _ in range(m)] with n = 5m, none for m = 0. */
  method DrawSizes(m: nat, s: Sampler) returns (sizes: seq<int>, ghost draws: seq<Draw>)
    requires s.Valid() && SizesOk(m)
    modifies s
    ensures s.Valid() && s.log == old(s.log) + draws
    ensures IntsDrawn(draws, SizeLo(5 * m), SizeHi(5 * m), sizes) && |sizes| == m
    ensures forall k :: 0 <= k < m ==> SizeLo(5 * m) <= sizes[k] <= SizeHi(5 * m)
    ensures forall k :: 0 <= k < m ==> 0 <= sizes[k] <= 5 * m
  {
    if m > 0 {
      SizeRangeNonEmpty(m);
      sizes, draws := RandInts(s, SizeLo(5 * m), SizeHi(5 * m), m);
      assert 0 <= SizeLo(5 * m) && SizeHi(5 * m) <= 5 * m;
    } else {
      sizes, draws := [], [];
    }
  }

  /** The three groups of draws, laid end to end, are the draws yang_parameters makes. */
  lemma YangAssembled(m: nat, values: seq<int>, valueDraws: seq<Draw>, sizes: seq<int>, sizeDraws: seq<Draw>,
                      lists: seq<seq<nat>>, sampleDraws: seq<Draw>)
    requires IntsDrawn(valueDraws, 1, 100, values) && |values| == 5 * m
    requires forall i :: 0 <= i < 5 * m ==> 1 <= values[i] <= 100
    requires IntsDrawn(sizeDraws, SizeLo(5 * m), SizeHi(5 * m), sizes) && |sizes| == m
    requires forall k :: 0 <= k < m ==> SizeLo(5 * m) <= sizes[k] <= SizeHi(5 * m)
    requires SamplesDrawn(5 * m, sampleDraws, lists) && Sizes(lists) == sizes
    requires forall k :: 0 <= k < |lists| ==> Distinct(lists[k]) && forall j :: 0 <= j < |lists[k]| ==> lists[k][j] < 5 * m
    ensures YangDraws(m, valueDraws + sizeDraws + sampleDraws, values, lists)
    ensures YangShape(m, 5 * m, values, lists)
  {
    var draws := valueDraws + sizeDraws + sampleDraws;
    var n := 5 * m;
    Parts(valueDraws, sizeDraws, sampleDraws);
    assert draws[n..] == sizeDraws + sampleDraws;
    assert (sizeDraws + sampleDraws)[..m] == sizeDraws;
    assert (sizeDraws + sampleDraws)[m..] == sampleDraws;
    forall k | 0 <= k < m ensures SizeLo(n) <= |lists[k]| <= SizeHi(n) {
      assert |lists[k]| == Sizes(lists)[k];
    }
  }

  lemma Parts<T>(a: seq<T>, b: seq<T>, c: seq<T>)
    ensures (a + b + c)[..|a|] == a && (a + b + c)[|a|..|a| + |b|] == b && (a + b + c)[|a| + |b|..] == c
  {
  }

  lemma SamplesDeterministic(n: nat, stream: nat -> Raw, b: nat,
                             d1: seq<Draw>, t1: seq<seq<nat>>, d2: seq<Draw>, t2: seq<seq<nat>>)
    requires SamplesDrawn(n, d1, t1) && SamplesDrawn(n, d2, t2) && Sizes(t1) == Sizes(t2)
    requires ExplainedFrom(stream, b, d1) && ExplainedFrom(stream, b, d2)
    ensures t1 == t2
  {
    forall k | 0 <= k < |t1| ensures t1[k] == t2[k] {
      assert |t1[k]| == Sizes(t1)[k] == Sizes(t2)[k] == |t2[k]|;
      SameRawSameDraw(d1[k], d2[k], stream(b + k));
    }
  }

  lemma ListsDeterministic(n: nat, stream: nat -> Raw, b: nat,
                           d1: seq<Draw>, t1: seq<seq<nat>>, d2: seq<Draw>, t2: seq<seq<nat>>)
    requires ListDraws(n, d1, t1) && ListDraws(n, d2, t2) && |t1| == |t2|
    requires ExplainedFrom(stream, b, d1) && ExplainedFrom(stream, b, d2)
    ensures t1 == t2
  {
    var m := |t1|;
    ExplainedSplit(stream, b, d1, m);
    ExplainedSplit(stream, b, d2, m);
    IntsDeterministic(stream, b, SizeLo(n), SizeHi(n), d1[..m], Sizes(t1), d2[..m], Sizes(t2));
    SamplesDeterministic(n, stream, b + m, d1[m..], t1, d2[m..], t2);
  }

  /** Parameters read off draws answered from the same raw rows are the same. */
  lemma YangDeterministic(m: nat, stream: nat -> Raw, b: nat,
                          d1: seq<Draw>, v1: seq<int>, t1: seq<seq<nat>>,
                          d2: seq<Draw>, v2: seq<int>, t2: seq<seq<nat>>)
    requires YangDraws(m, d1, v1, t1) && YangDraws(m, d2, v2, t2)
    requires ExplainedFrom(stream, b, d1) && ExplainedFrom(stream, b, d2)
    ensures v1 == v2 && t1 == t2
  {
    var n := 5 * m;
    ExplainedSplit(stream, b, d1, n);
    ExplainedSplit(stream, b, d2, n);
    IntsDeterministic(stream, b, 1, 100, d1[..n], v1, d2[..n], v2);
    ListsDeterministic(n, stream, b + n, d1[n..], t1, d2[n..], t2);
  }

  /** Samplers in the same state (same seed, same number of draws so far) give the same parameters. */
  method SameSeedSameParams(m: nat, s1: Sampler, s2: Sampler)
    returns (p1: (nat, seq<int>, seq<seq<nat>>), p2: (nat, seq<int>, seq<seq<nat>>))
    requires s1 != s2 && s1.Valid() && s2.Valid() && s1.stream == s2.stream && s1.pos == s2.pos
    requires SizesOk(m)
    modifies s1, s2
    ensures p1 == p2
  {
    ghost var start1, start2 := s1.log, s2.log;
    var n1, v1, t1, d1 := YangParameters(m, s1);
    var n2, v2, t2, d2 := YangParameters(m, s2);
    NewDrawsExplained(s1.stream, start1, d1);
    NewDrawsExplained(s2.stream, start2, d2);
    YangDeterministic(m, s1.stream, |start1|, d1, v1, t1, d2, v2, t2);
    p1, p2 := (n1, v1, t1), (n2, v2, t2);
  }

  /** yang_instance: the set packing model of freshly drawn parameters, named "Yang Set Packing". */
  method YangInstance(m: nat, s: Sampler)
    returns (model: Model, ghost values: seq<int>, ghost lists: seq<seq<nat>>)
    requires s.Valid() && SizesOk(m)
    modifies s
    ensures s.Valid()
    ensures model.name == "Yang Set Packing"
    ensures model.NumVars() == 5 * m && model.NumConss() == m && model.sense == Maximize
    ensures forall i :: 0 <= i < 5 * m ==> 1.0 <= model.vars[i].obj <= 100.0
    ensures YangShape(m, 5 * m, values, lists)
    ensures SetPacking.IsSetPackingModel(model, m, 5 * m, ToReals(values), lists, "Yang Set Packing")
  {
    var n, v, t, _ := YangParameters(m, s);
    values, lists := v, t;
    model := SetPacking.SetPacking(m, n, ToReals(v), t, "Yang Set Packing");
  }
}
