/**
 * geco/mips/knapsack/generic.py (and the identical builder of the legacy
 * geco/mips/knapsack.py): the 0/1 knapsack formulation. The four asserts on
 * the input become the error cases of a Result; otherwise one binary
 * variable per item priced by its profit, one capacity constraint, maximise.
 */
module Knapsack {
  import opened Common
  import opened Mip
  import Naming

  datatype KnapsackError =
    | LengthMismatch     // assert len(weights) == len(profits)
    | NegativeCapacity   // assert capacity >= 0
    | NegativeWeight     // assert all(w >= 0 for w in weights)
    | NegativeProfit     // assert all(p >= 0 for p in profits)

  /** The first of the four asserts that fails, if any. */
  function Check(weights: seq<real>, profits: seq<real>, capacity: real): (r: Option<KnapsackError>)
    ensures r == None <==>
      (|weights| == |profits| && capacity >= 0.0 &&
       (forall i :: 0 <= i < |weights| ==> weights[i] >= 0.0) &&
       (forall i :: 0 <= i < |profits| ==> profits[i] >= 0.0))
  {
    if |weights| != |profits| then Some(LengthMismatch)
    else if capacity < 0.0 then Some(NegativeCapacity)
    else if exists i :: 0 <= i < |weights| && weights[i] < 0.0 then Some(NegativeWeight)
    else if exists i :: 0 <= i < |profits| && profits[i] < 0.0 then Some(NegativeProfit)
    else None
  }

  /** The model knapsack(weights, profits, capacity, name) builds. */
  ghost predicate IsKnapsackModel(m: Model, weights: seq<real>, profits: seq<real>, capacity: real, name: string) {
    |weights| == |profits| &&
    m.name == name && m.removed == {} && m.sense == Maximize &&
    |m.vars| == |profits| &&
    (forall i :: 0 <= i < |profits| ==> m.vars[i] == BinaryVar("x" + Naming.IntToString(i + 1), profits[i])) &&
    m.conss == [Cons(Quicksum(LinearTerms(0, weights)), Le, capacity)]
  }

  method Knapsack(weights: seq<real>, profits: seq<real>, capacity: real, name: string)
    returns (res: Result<Model, KnapsackError>)
    ensures res.Failure? <==> Check(weights, profits, capacity).Some?
    ensures res.Failure? ==> res.error == Check(weights, profits, capacity).value
    ensures res.Success? ==> IsKnapsackModel(res.value, weights, profits, capacity, name) && res.value.WellFormed()
  {
    var failed := Check(weights, profits, capacity);
    if failed.Some? {
      return Failure(failed.value);
    }
    var m := NewModel(name);
    var i := 0;
    while i < |profits|
      invariant 0 <= i <= |profits|
      invariant m.name == name && m.removed == {} && m.sense == Minimize && m.conss == []
      invariant |m.vars| == i
      invariant forall j :: 0 <= j < i ==> m.vars[j] == BinaryVar("x" + Naming.IntToString(j + 1), profits[j])
    {
      m := m.AddVar(BinaryVar("", profits[i]));
      i := i + 1;
    }
    var e := LinearSum(0, weights);
    m := m.AddCons(Cons(e, Le, capacity));
    m := m.SetSense(Maximize);
    WellFormedKnapsack(m, weights, profits, capacity, name);
    res := Success(m);
  }

  lemma WellFormedKnapsack(m: Model, weights: seq<real>, profits: seq<real>, capacity: real, name: string)
    requires IsKnapsackModel(m, weights, profits, capacity, name)
    ensures m.WellFormed()
  {
    LinearKeys(0, weights);
  }

  /**
   * The meaning of the formulation: a 0/1 assignment is feasible exactly when
   * its weighted sum fits the capacity; nothing else constrains it.
   */
  lemma FeasibleIffFits(m: Model, weights: seq<real>, profits: seq<real>, capacity: real, name: string, x: seq<int>)
    requires IsKnapsackModel(m, weights, profits, capacity, name)
    ensures Feasible(m, x) <==> (|x| == |profits| && Binary01(x) && Dot(0, weights, x) <= capacity)
  {
    EvalLinear(0, weights, x);
    if Feasible(m, x) {
      assert forall h :: 0 <= h < |x| ==> InBounds(m.vars[h], x[h]);
      assert Satisfies(m.conss[0], x);
    }
  }
}

/**
 * geco/mips/knapsack/yang.py (and the legacy yang of geco/mips/knapsack.py):
 * parameters after Yang et al. — n profits, then n weights, all drawn in
 * [1, 10n], and a capacity of a fifth of the total weight, rounded down.
 */
module KnapsackYang {
  import opened Common
  import opened Mip
  import opened Rand
  import Knapsack

  method YangParams(n: nat, s: Sampler)
    returns (profits: seq<int>, weights: seq<int>, capacity: int, ghost draws: seq<Draw>)
    requires s.Valid()
    modifies s
    ensures s.Valid() && s.log == old(s.log) + draws
    ensures |draws| == 2 * n && IntsDrawn(draws[..n], 1, 10 * n, profits) && IntsDrawn(draws[n..], 1, 10 * n, weights)
    ensures |profits| == n && |weights| == n
    ensures forall i :: 0 <= i < n ==> 1 <= profits[i] <= 10 * n && 1 <= weights[i] <= 10 * n
    ensures capacity as real <= Sum(weights) as real / 5.0 < capacity as real + 1.0
    ensures capacity >= 0
  {
    ghost var start := s.log;
    ghost var profitDraws, weightDraws;
    profits, profitDraws := RandInts(s, 1, 10 * n, n);
    weights, weightDraws := RandInts(s, 1, 10 * n, n);
    draws := profitDraws + weightDraws;
    assert draws[..n] == profitDraws && draws[n..] == weightDraws;
    SumNonNegative(weights);
    capacity := Sum(weights) / 5;
  }

  lemma AllNonNegative(vs: seq<int>)
    requires forall i :: 0 <= i < |vs| ==> vs[i] >= 1
    ensures forall i :: 0 <= i < |vs| ==> ToReals(vs)[i] >= 0.0
  {
  }

  /**
   * yang_instance: knapsack(*yang_params(n)). The profits land in knapsack's
   * weights slot and the weights in its profits slot; the generated values
   * always pass knapsack's asserts.
   */
  method YangInstance(n: nat, s: Sampler)
    returns (model: Model, ghost profits: seq<int>, ghost weights: seq<int>, ghost capacity: int)
    requires s.Valid()
    modifies s
    ensures s.Valid()
    ensures capacity as real <= Sum(weights) as real / 5.0 < capacity as real + 1.0
    ensures Knapsack.IsKnapsackModel(model, ToReals(profits), ToReals(weights), capacity as real, "Knapsack")
  {
    var p, w, c, _ := YangParams(n, s);
    profits, weights, capacity := p, w, c;
    var res := Knapsack.Knapsack(ToReals(p), ToReals(w), c as real, "Knapsack");
    assert Knapsack.Check(ToReals(p), ToReals(w), c as real) == None;
    model := res.value;
  }
}

/**
 * geco/mips/knapsack/pisinger.py: Pisinger's knapsack families. Each
 * distribution record names a weight generator, a profit generator and
 * which of the two lists is generated first; the second list is generated
 * item by item from the first.
 */
module KnapsackPisinger {
  import opened Common
  import opened Mip
  import opened Rand
  import Knapsack

  /** The generator lambdas of the distribution records. */
  datatype Gen =
    | UniformGen(lo: real, hi: real)          // lambda _: seed.uniform(lo, hi)
    | AtLeastOneNear(spread: real)            // lambda w: max(1, seed.uniform(w - spread, w + spread))
    | Shift(delta: real)                      // lambda w: w + delta
    | UniformAt(delta: real)                  // lambda w: seed.uniform(w + delta, w + delta)
    | UniformAround(delta: real, spread: real) // lambda w: seed.uniform(w + delta - spread, w + delta + spread)
    | Same                                    // lambda w: w
    | CeilingTo(step: int)                     // lambda w: d * math.ceil(w / d)
    | TwoShifts(k1: real, k2: real, d: real)  // lambda w: w + k1 if w % d == 0 else w + k2

  datatype Distribution = Distribution(weightGen: Gen, profitGen: Gen, profitFirst: bool)

  function Uncorrelated(r: real): Distribution {
    Distribution(UniformGen(1.0, r), UniformGen(1.0, r), true)
  }
  function WeaklyCorrelated(r: real): Distribution {
    Distribution(UniformGen(1.0, r), AtLeastOneNear(r / 10.0), false)
  }
  function StronglyCorrelated(r: real): Distribution {
    Distribution(UniformGen(1.0, r), Shift(r / 10.0), false)
  }
  function InverseStronglyCorrelated(r: real): Distribution {
    Distribution(Shift(r / 10.0), UniformGen(1.0, r), true)
  }
  function AlmostStronglyCorrelated(r: real): Distribution {
    Distribution(UniformGen(1.0, r), UniformAt(r / 10.0 - r / 500.0), false)
  }
  /** The almost strongly correlated distribution with the band w + R/10 ± R/500 of Pisinger's definition. */
  function AlmostStronglyCorrelatedBand(r: real): Distribution {
    Distribution(UniformGen(1.0, r), UniformAround(r / 10.0, r / 500.0), false)
  }
  function SubsetSum(r: real): Distribution {
    Distribution(UniformGen(1.0, r), Same, false)
  }
  function SimilarWeights(): Distribution {
    Distribution(UniformGen(100000.0, 100100.0), UniformGen(1.0, 1000.0), false)
  }
  function ProfitCeiling(d: int, r: real): Distribution {
    Distribution(UniformGen(1.0, r), CeilingTo(d), false)
  }
  function MultipleStronglyCorrelated(k1: real, k2: real, d: real, r: real): Distribution {
    Distribution(UniformGen(1.0, r), TwoShifts(k1, k2, d), false)
  }

  /** A generator that calls seed.uniform once per item. */
  predicate Draws(g: Gen) { g.UniformGen? || g.AtLeastOneNear? || g.UniformAt? || g.UniformAround? }

  /** Python raises ZeroDivisionError for the generators that divide by d = 0. */
  predicate Defined(g: Gen) {
    (g.CeilingTo? ==> g.step != 0) && (g.TwoShifts? ==> g.d != 0.0)
  }

  /** The bounds of the uniform draw a drawing generator makes for argument w. */
  function Bounds(g: Gen, w: real): (real, real)
    requires Draws(g)
  {
    match g
    case UniformGen(lo, hi) => (lo, hi)
    case AtLeastOneNear(spread) => (w - spread, w + spread)
    case UniformAt(delta) => (w + delta, w + delta)
    case UniformAround(delta, spread) => (w + delta - spread, w + delta + spread)
  }

  /** w % d == 0 for Python floats: w is a whole multiple of d. */
  predicate IsMultiple(w: real, d: real)
    requires d != 0.0
  {
    (w / d).Floor as real == w / d
  }

  /** The generator's value for argument w, given the uniform draw u (unused when it draws nothing). */
  function Value(g: Gen, w: real, u: real): real
    requires Defined(g)
  {
    match g
    case UniformGen(_, _) => u
    case AtLeastOneNear(_) => MaxReal(1.0, u)
    case Shift(delta) => w + delta
    case UniformAt(_) => u
    case UniformAround(_, _) => u
    case Same => w
    case CeilingTo(d) => (d * Ceil(w / (d as real))) as real
    case TwoShifts(k1, k2, d) => if IsMultiple(w, d) then w + k1 else w + k2
  }

  /** One generator call on argument w: its draws and its value. */
  ghost predicate CallDrawn(g: Gen, w: real, draws: seq<Draw>, v: real)
    requires Defined(g)
  {
    if Draws(g) then
      |draws| == 1 && draws[0].UniformDraw? && (draws[0].a, draws[0].b) == Bounds(g, w) &&
      v == Value(g, w, draws[0].u)
    else draws == [] && v == Value(g, w, 0.0)
  }

  /** [gen(w) for w in args]: per item the draws of one call, in item order. */
  ghost predicate CallsDrawn(g: Gen, args: seq<real>, draws: seq<Draw>, vs: seq<real>)
    requires Defined(g)
  {
    var per := if Draws(g) then 1 else 0;
    |vs| == |args| && |draws| == per * |args| &&
    forall i :: 0 <= i < |args| ==> CallDrawn(g, args[i], draws[per * i..per * i + per], vs[i])
  }

  /** [gen(None) for _ in range(n)]: n calls of a generator that ignores its argument. */
  ghost predicate FreshDrawn(g: Gen, n: nat, draws: seq<Draw>, vs: seq<real>)
    requires g.UniformGen?
  {
    |vs| == n && |draws| == n &&
    forall i :: 0 <= i < n ==> draws[i] == UniformDraw(g.lo, g.hi, vs[i])
  }

  /** The first generator gets None, so only a generator that ignores its argument may come first. */
  predicate Generates(d: Distribution) {
    Defined(d.weightGen) && Defined(d.profitGen) &&
    (if d.profitFirst then d.profitGen.UniformGen? else d.weightGen.UniformGen?)
  }

  /** The draws generate_from_distribution makes: the whole first list, then the second item by item. */
  ghost predicate FromDistribution(d: Distribution, n: nat, draws: seq<Draw>, profits: seq<real>, weights: seq<real>)
    requires Generates(d)
  {
    |draws| >= n &&
    if d.profitFirst then
      FreshDrawn(d.profitGen, n, draws[..n], profits) && CallsDrawn(d.weightGen, profits, draws[n..], weights)
    else
      FreshDrawn(d.weightGen, n, draws[..n], weights) && CallsDrawn(d.profitGen, weights, draws[n..], profits)
  }

  method Call(g: Gen, w: real, s: Sampler) returns (v: real, ghost draws: seq<Draw>)
    requires s.Valid() && Defined(g)
    modifies s
    ensures s.Valid() && s.log == old(s.log) + draws
    ensures CallDrawn(g, w, draws, v)
  {
    if Draws(g) {
      var (a, b) := Bounds(g, w);
      var u := s.Uniform(a, b);
      draws := [UniformDraw(a, b, u)];
      v := Value(g, w, u);
    } else {
      draws := [];
      v := Value(g, w, 0.0);
    }
  }

  method Fresh(g: Gen, n: nat, s: Sampler) returns (vs: seq<real>, ghost draws: seq<Draw>)
    requires s.Valid() && g.UniformGen?
    modifies s
    ensures s.Valid() && s.log == old(s.log) + draws
    ensures FreshDrawn(g, n, draws, vs)
    ensures g.lo <= g.hi ==> forall i :: 0 <= i < n ==> g.lo <= vs[i] <= g.hi
  {
    vs, draws := [], [];
    var i := 0;
    while i < n
      invariant 0 <= i <= n && |vs| == i && |draws| == i
      invariant s.Valid() && s.log == old(s.log) + draws
      invariant forall j :: 0 <= j < i ==> draws[j] == UniformDraw(g.lo, g.hi, vs[j])
      invariant g.lo <= g.hi ==> forall j :: 0 <= j < i ==> g.lo <= vs[j] <= g.hi
    {
      var u := s.Uniform(g.lo, g.hi);
      vs, draws := vs + [u], draws + [UniformDraw(g.lo, g.hi, u)];
      i := i + 1;
    }
  }

  method Calls(g: Gen, args: seq<real>, s: Sampler) returns (vs: seq<real>, ghost draws: seq<Draw>)
    requires s.Valid() && Defined(g)
    modifies s
    ensures s.Valid() && s.log == old(s.log) + draws
    ensures CallsDrawn(g, args, draws, vs)
  {
    var per := if Draws(g) then 1 else 0;
    vs, draws := [], [];
    var i := 0;
    while i < |args|
      invariant 0 <= i <= |args| && |vs| == i && |draws| == per * i
      invariant s.Valid() && s.log == old(s.log) + draws
      invariant forall j :: 0 <= j < i ==> CallDrawn(g, args[j], draws[per * j..per * j + per], vs[j])
    {
      var v, d := Call(g, args[i], s);
      ghost var before := draws;
      vs, draws := vs + [v], draws + d;
      assert draws[per * i..per * i + per] == d;
      forall j | 0 <= j < i ensures draws[per * j..per * j + per] == before[per * j..per * j + per] {
        assert per * j + per <= per * i;
      }
      i := i + 1;
    }
  }

  /** generate_from_distribution(n, **d): two lists of n values each. */
  method GenerateFromDistribution(n: nat, d: Distribution, s: Sampler)
    returns (profits: seq<real>, weights: seq<real>, ghost draws: seq<Draw>)
    requires s.Valid() && Generates(d)
    modifies s
    ensures s.Valid() && s.log == old(s.log) + draws
    ensures |profits| == n && |weights| == n
    ensures FromDistribution(d, n, draws, profits, weights)
  {
    ghost var first, second;
    if d.profitFirst {
      profits, first := Fresh(d.profitGen, n, s);
      weights, second := Calls(d.weightGen, profits, s);
    } else {
      weights, first := Fresh(d.weightGen, n, s);
      profits, second := Calls(d.profitGen, weights, s);
    }
    draws := first + second;
    assert draws[..n] == first && draws[n..] == second;
  }

  /** A generator that draws nothing is a function of the first list. */
  lemma {:induction false} CallsValues(g: Gen, args: seq<real>, draws: seq<Draw>, vs: seq<real>, i: nat)
    requires Defined(g) && !Draws(g) && CallsDrawn(g, args, draws, vs) && i < |args|
    ensures vs[i] == Value(g, args[i], 0.0) && draws == []
  {
    assert CallDrawn(g, args[i], draws[0..0], vs[i]);
  }

  /** Strongly correlated: every profit is its weight plus R/10, and only the weights are drawn. */
  lemma StronglyCorrelatedRelation(r: real, n: nat, draws: seq<Draw>, profits: seq<real>, weights: seq<real>)
    requires FromDistribution(StronglyCorrelated(r), n, draws, profits, weights)
    ensures |draws| == n && forall i :: 0 <= i < n ==> profits[i] == weights[i] + r / 10.0
  {
    var g := StronglyCorrelated(r).profitGen;
    forall i | 0 <= i < n ensures profits[i] == weights[i] + r / 10.0 {
      CallsValues(g, weights, draws[n..], profits, i);
    }
    if n > 0 { CallsValues(g, weights, draws[n..], profits, 0); }
  }

  /** Subset sum: every profit equals its weight. */
  lemma SubsetSumRelation(r: real, n: nat, draws: seq<Draw>, profits: seq<real>, weights: seq<real>)
    requires FromDistribution(SubsetSum(r), n, draws, profits, weights)
    ensures profits == weights
  {
    var g := SubsetSum(r).profitGen;
    forall i | 0 <= i < n ensures profits[i] == weights[i] {
      CallsValues(g, weights, draws[n..], profits, i);
    }
  }

  /** Inverse strongly correlated: the profits come first and every weight is its profit plus R/10. */
  lemma InverseStronglyCorrelatedRelation(r: real, n: nat, draws: seq<Draw>, profits: seq<real>, weights: seq<real>)
    requires FromDistribution(InverseStronglyCorrelated(r), n, draws, profits, weights)
    ensures forall i :: 0 <= i < n ==> weights[i] == profits[i] + r / 10.0 && draws[i] == UniformDraw(1.0, r, profits[i])
  {
    var g := InverseStronglyCorrelated(r).weightGen;
    forall i | 0 <= i < n ensures weights[i] == profits[i] + r / 10.0 {
      CallsValues(g, profits, draws[n..], weights, i);
    }
  }

  /**
   * Almost strongly correlated: the profit's uniform draw has equal bounds,
   * so it still consumes a draw per item yet always yields w + R/10 - R/500.
   */
  lemma AlmostStronglyCorrelatedRelation(r: real, n: nat, draws: seq<Draw>, profits: seq<real>, weights: seq<real>,
                                         stream: nat -> Raw, b: nat)
    requires FromDistribution(AlmostStronglyCorrelated(r), n, draws, profits, weights)
    requires ExplainedFrom(stream, b, draws)
    ensures |draws| == 2 * n
    ensures forall i :: 0 <= i < n ==> profits[i] == weights[i] + r / 10.0 - r / 500.0
  {
    var g := AlmostStronglyCorrelated(r).profitGen;
    var rest := draws[n..];
    forall i | 0 <= i < n ensures profits[i] == weights[i] + r / 10.0 - r / 500.0 {
      assert CallDrawn(g, weights[i], rest[i..i + 1], profits[i]);
      assert rest[i..i + 1][0] == draws[n + i];
      assert Explains(draws[n + i], stream(b + n + i));
    }
  }

  /**
   * The band version: every profit lies within |R|/500 of its weight plus
   * R/10, as Pisinger's almost strongly correlated class describes.
   */
  lemma CorrectedAlmostStronglyCorrelatedBand(r: real, n: nat, draws: seq<Draw>, profits: seq<real>, weights: seq<real>,
                                              stream: nat -> Raw, b: nat)
    requires FromDistribution(AlmostStronglyCorrelatedBand(r), n, draws, profits, weights)
    requires ExplainedFrom(stream, b, draws)
    ensures |draws| == 2 * n
    ensures forall i :: 0 <= i < n ==>
      var spread := if r >= 0.0 then r / 500.0 else -r / 500.0;
      weights[i] + r / 10.0 - spread <= profits[i] <= weights[i] + r / 10.0 + spread
  {
    var g := AlmostStronglyCorrelatedBand(r).profitGen;
    var rest := draws[n..];
    forall i | 0 <= i < n
      ensures var spread := if r >= 0.0 then r / 500.0 else -r / 500.0;
        weights[i] + r / 10.0 - spread <= profits[i] <= weights[i] + r / 10.0 + spread
    {
      assert CallDrawn(g, weights[i], rest[i..i + 1], profits[i]);
      assert rest[i..i + 1][0] == draws[n + i];
      assert Explains(draws[n + i], stream(b + n + i));
    }
  }

  /** Weakly correlated: every profit is at least 1. */
  lemma WeaklyCorrelatedRelation(r: real, n: nat, draws: seq<Draw>, profits: seq<real>, weights: seq<real>)
    requires FromDistribution(WeaklyCorrelated(r), n, draws, profits, weights)
    ensures forall i :: 0 <= i < n ==> profits[i] >= 1.0
  {
    var g := WeaklyCorrelated(r).profitGen;
    forall i | 0 <= i < n ensures profits[i] >= 1.0 {
      assert CallDrawn(g, weights[i], draws[n..][i..i + 1], profits[i]);
    }
  }

  /**
   * _correlated_knapsack_template: the generated profits go into knapsack's
   * weights slot and the weights into its profits slot; the capacity is
   * passed through.
   */
  method CorrelatedTemplate(n: nat, capacity: real, d: Distribution, s: Sampler)
    returns (res: Result<Model, Knapsack.KnapsackError>, profits: seq<real>, weights: seq<real>)
    requires s.Valid() && Generates(d)
    modifies s
    ensures s.Valid()
    ensures exists draws :: FromDistribution(d, n, draws, profits, weights)
    ensures res.Failure? <==> Knapsack.Check(profits, weights, capacity).Some?
    ensures res.Success? ==> Knapsack.IsKnapsackModel(res.value, profits, weights, capacity, "Knapsack")
  {
    ghost var draws;
    profits, weights, draws := GenerateFromDistribution(n, d, s);
    res := Knapsack.Knapsack(profits, weights, capacity, "Knapsack");
  }

  /** One spanner item: a spanner index chosen from range(v), a multiplier in [1, m], both values scaled by it. */
  ghost predicate ItemDrawn(v: nat, m: real, pick: Draw, mult: Draw, spProfits: seq<real>, spWeights: seq<real>,
                            profit: real, weight: real)
    requires |spProfits| == v && |spWeights| == v
  {
    pick.ChoiceDraw? && pick.options == Range(0, v) && 0 <= pick.chosen < v &&
    mult.UniformDraw? && mult.a == 1.0 && mult.b == m &&
    profit == mult.u * spProfits[pick.chosen] && weight == mult.u * spWeights[pick.chosen]
  }

  /** The spanner items, two draws each. */
  ghost predicate SpannerDrawn(v: nat, m: real, draws: seq<Draw>, spProfits: seq<real>, spWeights: seq<real>,
                               profits: seq<real>, weights: seq<real>)
  {
    |draws| == 2 * |profits| && |weights| == |profits| && |spProfits| == v && |spWeights| == v &&
    forall i :: 0 <= i < |profits| ==>
      ItemDrawn(v, m, draws[2 * i], draws[2 * i + 1], spProfits, spWeights, profits[i], weights[i])
  }

  /** The loop of spanner: per item, choice of a spanner index, then uniform(1, m). */
  method SpannerItems(v: nat, m: real, n: nat, spProfits: seq<real>, spWeights: seq<real>, s: Sampler)
    returns (profits: seq<real>, weights: seq<real>, ghost draws: seq<Draw>)
    requires s.Valid() && |spProfits| == v && |spWeights| == v && (n == 0 || v > 0)
    modifies s
    ensures s.Valid() && s.log == old(s.log) + draws
    ensures |profits| == n && SpannerDrawn(v, m, draws, spProfits, spWeights, profits, weights)
  {
    profits, weights, draws := [], [], [];
    var indices := Range(0, v);
    var i := 0;
    while i < n
      invariant 0 <= i <= n && |profits| == i
      invariant s.Valid() && s.log == old(s.log) + draws
      invariant SpannerDrawn(v, m, draws, spProfits, spWeights, profits, weights)
    {
      var idx := s.Choice(indices);
      var multiplier := s.Uniform(1.0, m);
      ghost var pick, mult := ChoiceDraw(indices, idx), UniformDraw(1.0, m, multiplier);
      var p, w := multiplier * spProfits[idx], multiplier * spWeights[idx];
      assert ItemDrawn(v, m, pick, mult, spProfits, spWeights, p, w);
      ghost var before, beforeP, beforeW := draws, profits, weights;
      profits, weights, draws := profits + [p], weights + [w], draws + [pick, mult];
      forall j | 0 <= j <= i
        ensures ItemDrawn(v, m, draws[2 * j], draws[2 * j + 1], spProfits, spWeights, profits[j], weights[j])
      {
        if j < i {
          assert draws[2 * j] == before[2 * j] && draws[2 * j + 1] == before[2 * j + 1];
          assert profits[j] == beforeP[j] && weights[j] == beforeW[j];
        }
      }
      i := i + 1;
    }
  }

  /** [x / m + 1 for x in xs] */
  function Normalized(xs: seq<real>, m: real): (r: seq<real>)
    requires m != 0.0
    ensures |r| == |xs| && forall i :: 0 <= i < |xs| ==> r[i] == xs[i] / m + 1.0
  {
    seq(|xs|, i requires 0 <= i < |xs| => xs[i] / m + 1.0)
  }

  /**
   * spanner: a spanner set of v items from the distribution, normalised by
   * m, then n items each a multiple of one spanner item; again the profits
   * go into knapsack's weights slot.
   */
  method Spanner(v: nat, m: real, n: nat, d: Distribution, capacity: real, s: Sampler)
    returns (res: Result<Model, Knapsack.KnapsackError>, profits: seq<real>, weights: seq<real>,
             ghost spProfits: seq<real>, ghost spWeights: seq<real>)
    requires s.Valid() && Generates(d) && m != 0.0 && (n == 0 || v > 0)
    modifies s
    ensures s.Valid()
    ensures |profits| == n
    ensures exists baseDraws, baseProfits, baseWeights ::
              FromDistribution(d, v, baseDraws, baseProfits, baseWeights) &&
              spProfits == Normalized(baseProfits, m) && spWeights == Normalized(baseWeights, m)
    ensures exists draws :: SpannerDrawn(v, m, draws, spProfits, spWeights, profits, weights)
    ensures res.Failure? <==> Knapsack.Check(profits, weights, capacity).Some?
    ensures res.Success? ==> Knapsack.IsKnapsackModel(res.value, profits, weights, capacity, "Knapsack")
  {
    var baseProfits, baseWeights, baseDraws := GenerateFromDistribution(v, d, s);
    var sp, sw := Normalized(baseProfits, m), Normalized(baseWeights, m);
    spProfits, spWeights := sp, sw;
    ghost var draws;
    profits, weights, draws := SpannerItems(v, m, n, sp, sw, s);
    res := Knapsack.Knapsack(profits, weights, capacity, "Knapsack");
  }
}
