/**
 * The helpers of geco/graphs/utilities.py: edgeweight_properties (the largest and
 * smallest edge weight and the number of zero weights), find_parallel_edges (for
 * every node and neighbour with more than one edge between them, the pair and the
 * number of extra edges) and __remove_duplicate_parallel_edges (keep the first entry
 * of every unordered pair).
 */
module GraphUtilities {
  import opened Common
  import opened NxGraph

  // ---------------------------------------------------------------- edgeweight_properties

  /** A float that may be -inf or +inf, the two sentinels the loop starts from. */
  datatype ExtReal = NegInf | Fin(r: real) | PosInf

  /** x > m, with -inf below every weight. */
  predicate Above(x: real, m: ExtReal) {
    m.NegInf? || (m.Fin? && x > m.r)
  }

  /** x < m, with +inf above every weight. */
  predicate Below(x: real, m: ExtReal) {
    m.PosInf? || (m.Fin? && x < m.r)
  }

  /** Every edge carries a weight attribute, so d[weight_label] never raises. */
  predicate Weighed<N>(es: seq<WEdge<N>>) {
    forall i :: 0 <= i < |es| ==> es[i].w.Some?
  }

  /** The max_weight the loop ends with. */
  function MaxWeight<N>(es: seq<WEdge<N>>): ExtReal
    requires Weighed(es)
  {
    if es == [] then NegInf
    else
      var m, x := MaxWeight(es[..|es| - 1]), es[|es| - 1].w.value;
      if Above(x, m) then Fin(x) else m
  }

  /** The min_weight the loop ends with. */
  function MinWeight<N>(es: seq<WEdge<N>>): ExtReal
    requires Weighed(es)
  {
    if es == [] then PosInf
    else
      var m, x := MinWeight(es[..|es| - 1]), es[|es| - 1].w.value;
      if Below(x, m) then Fin(x) else m
  }

  /** The num_of_zero_weights the loop ends with. */
  function ZeroWeights<N>(es: seq<WEdge<N>>): nat
    requires Weighed(es)
  {
    if es == [] then 0
    else ZeroWeights(es[..|es| - 1]) + (if es[|es| - 1].w.value == 0.0 then 1 else 0)
  }

  datatype WeightProperties = WeightProperties(maxWeight: ExtReal, minWeight: ExtReal, zeros: nat)

  /**
   * edgeweight_properties(graph) with the default label "weight": one pass over the edges.
   * An edge without a weight raises KeyError, modelled as a Failure.
   */
  method EdgeweightProperties<N>(g: Graph<N>) returns (r: Result<WeightProperties, string>)
    ensures r.Failure? <==> !Weighed(g.edges)
    ensures r.Success? ==> r.value == WeightProperties(MaxWeight(g.edges), MinWeight(g.edges), ZeroWeights(g.edges))
  {
    var es := g.edges;
    var maxWeight, minWeight, zeros := NegInf, PosInf, 0;
    for i := 0 to |es|
      invariant Weighed(es[..i])
      invariant maxWeight == MaxWeight(es[..i]) && minWeight == MinWeight(es[..i]) && zeros == ZeroWeights(es[..i])
    {
      if es[i].w.None? {
        return Failure("KeyError: 'weight'");
      }
      var weight := es[i].w.value;
      assert es[..i + 1][..i] == es[..i];
      if Above(weight, maxWeight) {
        maxWeight := Fin(weight);
      }
      if Below(weight, minWeight) {
        minWeight := Fin(weight);
      }
      if weight == 0.0 {
        zeros := zeros + 1;
      }
    }
    assert es[..|es|] == es;
    r := Success(WeightProperties(maxWeight, minWeight, zeros));
  }

  /**
   * max_weight is the largest weight: no weight lies above it, and it is the weight
   * of some edge; it stays -inf exactly when there is no edge.
   */
  lemma {:induction false} MaxWeightIsMax<N>(es: seq<WEdge<N>>)
    requires Weighed(es)
    ensures forall i :: 0 <= i < |es| ==> !Above(es[i].w.value, MaxWeight(es))
    ensures MaxWeight(es) == NegInf <==> es == []
    ensures es != [] ==> exists i :: 0 <= i < |es| && MaxWeight(es) == Fin(es[i].w.value)
  {
    if es != [] {
      var init := es[..|es| - 1];
      MaxWeightIsMax(init);
      if init != [] {
        var j :| 0 <= j < |init| && MaxWeight(init) == Fin(init[j].w.value);
        assert es[j] == init[j];
      }
      forall i | 0 <= i < |es| ensures !Above(es[i].w.value, MaxWeight(es)) {
        if i < |init| {
          assert es[i] == init[i];
        }
      }
    }
  }

  /**
   * min_weight is the smallest weight: no weight lies below it, and it is the weight
   * of some edge; it stays +inf exactly when there is no edge.
   */
  lemma {:induction false} MinWeightIsMin<N>(es: seq<WEdge<N>>)
    requires Weighed(es)
    ensures forall i :: 0 <= i < |es| ==> !Below(es[i].w.value, MinWeight(es))
    ensures MinWeight(es) == PosInf <==> es == []
    ensures es != [] ==> exists i :: 0 <= i < |es| && MinWeight(es) == Fin(es[i].w.value)
  {
    if es != [] {
      var init := es[..|es| - 1];
      MinWeightIsMin(init);
      if init != [] {
        var j :| 0 <= j < |init| && MinWeight(init) == Fin(init[j].w.value);
        assert es[j] == init[j];
      }
      forall i | 0 <= i < |es| ensures !Below(es[i].w.value, MinWeight(es)) {
        if i < |init| {
          assert es[i] == init[i];
        }
      }
    }
  }

  /**
   * num_of_zero_weights counts the zero weights: at most one per edge, none exactly
   * when no weight is zero, and one per edge exactly when every weight is zero.
   */
  lemma {:induction false} ZeroWeightsCount<N>(es: seq<WEdge<N>>)
    requires Weighed(es)
    ensures ZeroWeights(es) <= |es|
    ensures ZeroWeights(es) == 0 <==> forall i :: 0 <= i < |es| ==> es[i].w.value != 0.0
    ensures ZeroWeights(es) == |es| <==> forall i :: 0 <= i < |es| ==> es[i].w.value == 0.0
  {
    if es != [] {
      var init := es[..|es| - 1];
      ZeroWeightsCount(init);
      forall i | 0 <= i < |init| ensures es[i] == init[i] {
      }
    }
  }

  // ---------------------------------------------------------------- find_parallel_edges

  /**
   * A (multi)graph as find_parallel_edges walks it: the nodes in iteration order and,
   * for node i, adj[i] lists its neighbours in iteration order, each with
   * number_of_edges(node, neighbour).
   */
  datatype MultiGraph<N> = MultiGraph(nodes: seq<N>, adj: seq<seq<(N, nat)>>, directed: bool)
  {
    predicate Valid() {
      |adj| == |nodes|
    }
  }

  /** An entry of the result: the pair (node, neighbour) and the number of edges beyond the first. */
  type Parallel<N> = ((N, N), nat)

  /** The entries the inner loop appends for node u with neighbour list row. */
  function RowParallel<N>(u: N, row: seq<(N, nat)>): seq<Parallel<N>> {
    if row == [] then []
    else
      var init, last := RowParallel(u, row[..|row| - 1]), row[|row| - 1];
      if last.1 > 1 then init + [((u, last.0), last.1 - 1)] else init
  }

  /** The entries of all_parallel_edges after the outer loop has visited nodes 0 .. i-1. */
  function ParallelUpTo<N>(g: MultiGraph<N>, i: nat): seq<Parallel<N>>
    requires g.Valid() && i <= |g.nodes|
  {
    if i == 0 then [] else ParallelUpTo(g, i - 1) + RowParallel(g.nodes[i - 1], g.adj[i - 1])
  }

  /** all_parallel_edges. */
  function AllParallel<N>(g: MultiGraph<N>): seq<Parallel<N>>
    requires g.Valid()
  {
    ParallelUpTo(g, |g.nodes|)
  }

  /**
   * find_parallel_edges(graph): the entries of all nodes and neighbours, filtered
   * by __remove_duplicate_parallel_edges when the graph is undirected.
   */
  method FindParallelEdges<N(==)>(g: MultiGraph<N>) returns (r: seq<Parallel<N>>)
    requires g.Valid()
    ensures r == if g.directed then AllParallel(g) else Dedup(AllParallel(g))
  {
    var all := [];
    for i := 0 to |g.nodes|
      invariant all == ParallelUpTo(g, i)
    {
      all := ScanNeighbours(g.nodes[i], g.adj[i], all);
    }
    if !g.directed {
      r := RemoveDuplicateParallelEdges(all);
      return;
    }
    r := all;
  }

  /** The inner loop over the neighbours of u: appends the entries of every neighbour with more than one edge. */
  method ScanNeighbours<N>(u: N, row: seq<(N, nat)>, done: seq<Parallel<N>>) returns (all: seq<Parallel<N>>)
    ensures all == done + RowParallel(u, row)
  {
    all := done;
    for k := 0 to |row|
      invariant all == done + RowParallel(u, row[..k])
    {
      var (neighbour, numOfEdges) := row[k];
      assert row[..k + 1][..k] == row[..k];
      if numOfEdges > 1 {
        all := all + [((u, neighbour), numOfEdges - 1)];
      }
    }
    assert row[..|row|] == row;
  }

  /** The entries of one neighbour list are exactly its neighbours with more than one edge. */
  lemma {:induction false} RowParallelMember<N>(u: N, row: seq<(N, nat)>, x: Parallel<N>)
    ensures x in RowParallel(u, row) <==> exists k :: 0 <= k < |row| && row[k].1 > 1 && x == ((u, row[k].0), row[k].1 - 1)
  {
    if row != [] {
      var init := row[..|row| - 1];
      RowParallelMember(u, init, x);
      if exists k :: 0 <= k < |init| && init[k].1 > 1 && x == ((u, init[k].0), init[k].1 - 1) {
        var k :| 0 <= k < |init| && init[k].1 > 1 && x == ((u, init[k].0), init[k].1 - 1);
        assert row[k] == init[k];
      }
      if exists k :: 0 <= k < |row| && row[k].1 > 1 && x == ((u, row[k].0), row[k].1 - 1) {
        var k :| 0 <= k < |row| && row[k].1 > 1 && x == ((u, row[k].0), row[k].1 - 1);
        if k < |init| {
          assert init[k] == row[k];
        }
      }
    }
  }

  /** Some node i has neighbour number k with more than one edge, and x is its entry. */
  ghost predicate ParallelAt<N>(g: MultiGraph<N>, i: nat, k: nat, x: Parallel<N>)
    requires g.Valid()
  {
    i < |g.nodes| && k < |g.adj[i]| && g.adj[i][k].1 > 1 && x == ((g.nodes[i], g.adj[i][k].0), g.adj[i][k].1 - 1)
  }

  /**
   * all_parallel_edges holds exactly one kind of entry: ((node, neighbour), m - 1) for
   * every node and neighbour joined by m > 1 edges.
   */
  lemma {:induction false} ParallelMember<N>(g: MultiGraph<N>, i: nat, x: Parallel<N>)
    requires g.Valid() && i <= |g.nodes|
    ensures x in ParallelUpTo(g, i) <==> exists a: nat, k: nat :: a < i && ParallelAt(g, a, k, x)
  {
    if i > 0 {
      ParallelMember(g, i - 1, x);
      RowParallelMember(g.nodes[i - 1], g.adj[i - 1], x);
      if x in RowParallel(g.nodes[i - 1], g.adj[i - 1]) {
        var k :| 0 <= k < |g.adj[i - 1]| && g.adj[i - 1][k].1 > 1 &&
          x == ((g.nodes[i - 1], g.adj[i - 1][k].0), g.adj[i - 1][k].1 - 1);
        assert ParallelAt(g, i - 1, k, x);
      }
      if exists a: nat, k: nat :: a < i && ParallelAt(g, a, k, x) {
        var a: nat, k: nat :| a < i && ParallelAt(g, a, k, x);
        if a == i - 1 {
          assert x in RowParallel(g.nodes[i - 1], g.adj[i - 1]);
        }
      }
    }
  }

  /** A graph with a single edge between any two nodes has no parallel edges. */
  lemma SimpleHasNone<N>(g: MultiGraph<N>)
    requires g.Valid()
    requires forall i, k :: 0 <= i < |g.adj| && 0 <= k < |g.adj[i]| ==> g.adj[i][k].1 <= 1
    ensures AllParallel(g) == []
  {
    if AllParallel(g) != [] {
      var x := AllParallel(g)[0];
      ParallelMember(g, |g.nodes|, x);
    }
  }

  // ---------------------------------------------------------------- __remove_duplicate_parallel_edges

  /** The two pairs name the same unordered pair of nodes. */
  predicate Match<N(==)>(a: (N, N), b: (N, N)) {
    a == b || a == (b.1, b.0)
  }

  /** The set seen: the pairs of the entries kept so far. */
  function Seen<N(==)>(fs: seq<Parallel<N>>): set<(N, N)> {
    if fs == [] then {} else Seen(fs[..|fs| - 1]) + {fs[|fs| - 1].0}
  }

  /** The entries kept from xs: an entry goes in unless its pair, or the reversed pair, was seen. */
  function Dedup<N(==)>(xs: seq<Parallel<N>>): seq<Parallel<N>> {
    if xs == [] then []
    else
      var d, x := Dedup(xs[..|xs| - 1]), xs[|xs| - 1];
      if x.0 !in Seen(d) && (x.0.1, x.0.0) !in Seen(d) then d + [x] else d
  }

  /** __remove_duplicate_parallel_edges(all_parallel_edges). */
  method RemoveDuplicateParallelEdges<N(==)>(all: seq<Parallel<N>>) returns (filtered: seq<Parallel<N>>)
    ensures filtered == Dedup(all)
  {
    filtered := [];
    var seen: set<(N, N)> := {};
    for i := 0 to |all|
      invariant filtered == Dedup(all[..i]) && seen == Seen(filtered)
    {
      var edge := all[i].0;
      assert all[..i + 1][..i] == all[..i];
      if edge !in seen && (edge.1, edge.0) !in seen {
        seen := seen + {edge};
        assert (filtered + [all[i]])[..|filtered|] == filtered;
        filtered := filtered + [all[i]];
      }
    }
    assert all[..|all|] == all;
  }

  /** A pair is seen exactly when some kept entry has it. */
  lemma {:induction false} SeenMember<N>(fs: seq<Parallel<N>>, p: (N, N))
    ensures p in Seen(fs) <==> exists t :: 0 <= t < |fs| && fs[t].0 == p
  {
    if fs != [] {
      var init := fs[..|fs| - 1];
      SeenMember(init, p);
      if exists t :: 0 <= t < |init| && init[t].0 == p {
        var t :| 0 <= t < |init| && init[t].0 == p;
        assert fs[t] == init[t];
      }
      if exists t :: 0 <= t < |fs| && fs[t].0 == p {
        var t :| 0 <= t < |fs| && fs[t].0 == p;
        if t < |init| {
          assert init[t] == fs[t];
        }
      }
    }
  }

  /** The first position at or before j whose pair matches pair p. */
  lemma {:induction false} EarliestMatch<N>(xs: seq<Parallel<N>>, p: (N, N), j: nat) returns (j0: nat)
    requires j < |xs| && Match(xs[j].0, p)
    ensures j0 <= j && Match(xs[j0].0, p)
    ensures forall j' :: 0 <= j' < j0 ==> !Match(xs[j'].0, p)
  {
    if exists j' :: 0 <= j' < j && Match(xs[j'].0, p) {
      var j' :| 0 <= j' < j && Match(xs[j'].0, p);
      j0 := EarliestMatch(xs, p, j');
    } else {
      j0 := j;
    }
  }

  /** No entry is seen before it comes: the kept entries are those at positions idx. */
  ghost predicate KeptAt<N>(xs: seq<Parallel<N>>, d: seq<Parallel<N>>, idx: seq<nat>) {
    |idx| == |d| &&
    (forall t :: 0 <= t < |idx| ==> idx[t] < |xs| && d[t] == xs[idx[t]]) &&
    (forall s, t :: 0 <= s < t < |idx| ==> idx[s] < idx[t])
  }

  /** Entry i of xs is the first of its unordered pair. */
  ghost predicate FirstOfPair<N>(xs: seq<Parallel<N>>, i: nat)
    requires i < |xs|
  {
    forall j :: 0 <= j < i ==> !Match(xs[j].0, xs[i].0)
  }

  /**
   * The result is a subsequence of the input (the entries at the increasing positions
   * idx), and position i is kept exactly when entry i is the first entry of its
   * unordered pair.
   */
  lemma {:induction false} DedupKeepsFirsts<N>(xs: seq<Parallel<N>>) returns (idx: seq<nat>)
    ensures KeptAt(xs, Dedup(xs), idx)
    ensures forall i :: 0 <= i < |xs| ==> (i in idx <==> FirstOfPair(xs, i))
  {
    if xs == [] {
      idx := [];
    } else {
      var n := |xs| - 1;
      var init, x := xs[..n], xs[n];
      var d := Dedup(init);
      var idx0 := DedupKeepsFirsts(init);
      forall i | 0 <= i < n ensures FirstOfPair(init, i) == FirstOfPair(xs, i) {
        assert forall j :: 0 <= j <= i ==> init[j] == xs[j];
      }
      var isNew := x.0 !in Seen(d) && (x.0.1, x.0.0) !in Seen(d);
      LastKeptIffFirst(xs, d, idx0);
      if isNew {
        idx := idx0 + [n];
        assert Dedup(xs) == d + [x];
      } else {
        idx := idx0;
        assert Dedup(xs) == d;
      }
      assert KeptAt(xs, Dedup(xs), idx);
      forall i | 0 <= i < |xs| ensures i in idx <==> FirstOfPair(xs, i) {
        if i < n {
          assert i in idx <==> i in idx0;
        }
      }
    }
  }

  /** The last entry of xs is kept exactly when it is the first of its pair. */
  lemma LastKeptIffFirst<N>(xs: seq<Parallel<N>>, d: seq<Parallel<N>>, idx0: seq<nat>)
    requires xs != []
    requires KeptAt(xs[..|xs| - 1], d, idx0)
    requires forall i :: 0 <= i < |xs| - 1 ==> (i in idx0 <==> FirstOfPair(xs[..|xs| - 1], i))
    ensures (xs[|xs| - 1].0 !in Seen(d) && (xs[|xs| - 1].0.1, xs[|xs| - 1].0.0) !in Seen(d)) <==> FirstOfPair(xs, |xs| - 1)
  {
    var n := |xs| - 1;
    var init, p := xs[..n], xs[n].0;
    SeenMember(d, p);
    SeenMember(d, (p.1, p.0));
    if !FirstOfPair(xs, n) {
      var j :| 0 <= j < n && Match(xs[j].0, p);
      var j0 := EarliestMatch(init, p, j);
      assert FirstOfPair(init, j0) by {
        forall j' | 0 <= j' < j0 ensures !Match(init[j'].0, init[j0].0) {
          assert !Match(init[j'].0, p);
        }
      }
      assert j0 in idx0;
      var t :| 0 <= t < |idx0| && idx0[t] == j0;
      assert d[t].0 == init[j0].0;
    }
    if exists t :: 0 <= t < |d| && (d[t].0 == p || d[t].0 == (p.1, p.0)) {
      var t :| 0 <= t < |d| && (d[t].0 == p || d[t].0 == (p.1, p.0));
      assert Match(xs[idx0[t]].0, p);
    }
  }

  /** No two kept entries name the same unordered pair. */
  lemma DedupApart<N>(xs: seq<Parallel<N>>)
    ensures forall s, t :: 0 <= s < t < |Dedup(xs)| ==> !Match(Dedup(xs)[s].0, Dedup(xs)[t].0)
  {
    var d := Dedup(xs);
    var idx := DedupKeepsFirsts(xs);
    forall s, t | 0 <= s < t < |d| ensures !Match(d[s].0, d[t].0) {
      assert idx[t] in idx;
      assert FirstOfPair(xs, idx[t]);
    }
  }

  /** Every pair of the input is kept, as it is or reversed. */
  lemma DedupCovers<N>(xs: seq<Parallel<N>>, i: nat)
    requires i < |xs|
    ensures exists t :: 0 <= t < |Dedup(xs)| && Match(Dedup(xs)[t].0, xs[i].0)
  {
    var d := Dedup(xs);
    var idx := DedupKeepsFirsts(xs);
    var j0 := EarliestMatch(xs, xs[i].0, i);
    assert FirstOfPair(xs, j0) by {
      forall j' | 0 <= j' < j0 ensures !Match(xs[j'].0, xs[j0].0) {
        assert !Match(xs[j'].0, xs[i].0);
      }
    }
    var t :| 0 <= t < |idx| && idx[t] == j0;
    assert d[t] == xs[j0];
  }
}
