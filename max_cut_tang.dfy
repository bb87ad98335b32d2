/**
 * geco/mips/max_cut/tang.py (and its earlier copy in geco/mips/max_cut.py):
 * the maximum-cut instances of Tang, Agrawal and Faenza. The graph is a
 * G(n, m) random graph drawn with the instance's seed; the edge weights are
 * one randint(0, 10) per edge drawn from a generator seeded with 0, whatever
 * the instance seed, and the model is naive's.
 *
 * The G(n, m) generator is not modelled: the graph arrives as a parameter with
 * the shape it promises (nodes 0..n-1, min(m, C(n, 2)) distinct edges).
 */
module MaxCutTang {
  import opened Common
  import opened Rand
  import opened Mip
  import opened Graphs
  import MaxCut

  /** tang_params(graph, seed): [seed.randint(0, 10) for _ in graph.edges]. */
  method TangParams(lg: Labelled<int>, s: Sampler) returns (weights: seq<int>, ghost draws: seq<Draw>)
    requires s.Valid()
    modifies s
    ensures s.Valid() && s.log == old(s.log) + draws
    ensures IntsDrawn(draws, 0, 10, weights) && |weights| == |lg.edges|
    ensures forall k :: 0 <= k < |weights| ==> 0 <= weights[k] <= 10
  {
    weights, draws := RandInts(s, 0, 10, |lg.edges|);
  }

  /** The weights random.Random(0) hands out for count edges. */
  function SeedZeroWeights(count: nat): (ws: seq<int>)
    ensures |ws| == count && forall k :: 0 <= k < count ==> 0 <= ws[k] <= 10
  {
    if count == 0 then [] else SeedZeroWeights(count - 1) + [RandIntOf(0, 10, SeedStream(0)(count - 1))]
  }

  lemma {:induction false} SeedZeroWeightAt(count: nat, k: nat)
    requires k < count
    ensures SeedZeroWeights(count)[k] == RandIntOf(0, 10, SeedStream(0)(k))
  {
    if k < count - 1 {
      SeedZeroWeightAt(count - 1, k);
    }
  }

  /** Draws answered from the first rows of seed 0 are the seed-zero weights. */
  lemma FirstDrawsOfSeedZero(draws: seq<Draw>, weights: seq<int>)
    requires IntsDrawn(draws, 0, 10, weights) && ExplainedFrom(SeedStream(0), 0, draws)
    ensures weights == SeedZeroWeights(|weights|)
  {
    forall k | 0 <= k < |weights| ensures weights[k] == SeedZeroWeights(|weights|)[k] {
      assert Explains(draws[k], SeedStream(0)(k));
      SeedZeroWeightAt(|weights|, k);
    }
  }

  /** What nx.generators.gnm_random_graph(n, m) promises of the graph. */
  ghost predicate IsGnm(lg: Labelled<int>, n: nat, m: nat) {
    IsLabelled(lg) && lg.nodes == Naturals(n) &&
    |lg.edges| == (if 2 * m >= n * (n - 1) then n * (n - 1) / 2 else m)
  }

  /**
   * tang_instance(n, m, seed): naive over the G(n, m) graph with the seed-zero
   * weights; the instance seed reaches only the graph.
   */
  method TangInstance(n: nat, m: nat, lg: Labelled<int>) returns (model: Model)
    requires IsGnm(lg, n, m)
    ensures MaxCut.IsNaiveModel(model, lg, ToReals(SeedZeroWeights(|lg.edges|))) && model.WellFormed()
    ensures model.NumVars() == n + |lg.edges| && model.NumConss() == 2 * |lg.edges|
    ensures model.sense == Maximize
  {
    var s := new Sampler.FromSeed(0);
    var weights, draws := TangParams(lg, s);
    NewDrawsExplained(s.stream, [], draws);
    FirstDrawsOfSeedZero(draws, weights);
    var w := ToReals(weights);
    model := MaxCut.Naive(lg, w);
    assert MaxCut.NonNegative(w);
    MaxCut.NaiveCounts(model, lg, w);
  }

  /** tang_instance(100, 50): 150 variables, 100 constraints, maximising. */
  lemma TangHundredFifty(model: Model, lg: Labelled<int>)
    requires IsGnm(lg, 100, 50)
    requires MaxCut.IsNaiveModel(model, lg, ToReals(SeedZeroWeights(|lg.edges|)))
    ensures model.NumVars() == 150 && model.NumConss() == 100 && model.sense == Maximize
  {
    var w := ToReals(SeedZeroWeights(|lg.edges|));
    assert MaxCut.NonNegative(w);
    MaxCut.NaiveCounts(model, lg, w);
  }
}
