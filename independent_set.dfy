/**
 * geco/mips/independent_set/generic.py: the edge formulation of maximum
 * independent set, the greedy clique partition, and the clique formulation
 * built on it.
 *
 * Both formulations first relabel the graph so that its nodes are 0..n-1;
 * node v then has the binary variable named str(v) at handle v, valued 1,
 * and the model maximises. The edge formulation adds x_u + x_v <= 1 per
 * edge; the clique formulation adds Σ_{v in C} x_v <= 1 per clique C of the
 * greedy partition, and nothing else.
 */
module IndependentSet {
  import opened Common
  import opened Mip
  import opened Graphs
  import Naming
  import Combinations

  /** One binary variable str(v), with objective 1, per node v < n. */
  ghost predicate NodeVars(model: Model, n: nat) {
    |model.vars| == n && forall v :: 0 <= v < n ==> model.vars[v] == BinaryVar(Naming.NatToString(v), 1.0)
  }

  /** n binary variables with objective 1, whatever their names. */
  ghost predicate UnitVars(model: Model, n: nat) {
    |model.vars| == n && forall v :: 0 <= v < n ==> model.vars[v] == BinaryVar(model.vars[v].name, 1.0)
  }

  lemma NodeVarsAreUnit(model: Model, n: nat)
    requires NodeVars(model, n)
    ensures UnitVars(model, n)
  {
  }

  /** vars[str(u)] + vars[str(v)] <= 1 */
  function EdgeCons(e: Edge): Cons {
    Cons(Quicksum([(e.0, 1.0), (e.1, 1.0)]), Le, 1.0)
  }

  function EdgeConss(es: seq<Edge>): (cs: seq<Cons>)
    ensures |cs| == |es| && forall k :: 0 <= k < |es| ==> cs[k] == EdgeCons(es[k])
  {
    seq(|es|, k requires 0 <= k < |es| => EdgeCons(es[k]))
  }

  /** The model independent_set(graph, name) builds over the relabelled graph g. */
  ghost predicate IsIndependentSetModel(model: Model, g: Graph, name: string) {
    model.name == name && model.removed == {} && model.sense == Maximize &&
    NodeVars(model, g.n) && model.conss == EdgeConss(g.edges)
  }

  /** The node variables, created in node order. */
  method AddNodeVars(m0: Model, n: nat) returns (model: Model)
    requires m0.vars == [] && m0.removed == {}
    ensures model == m0.(vars := model.vars) && NodeVars(model, n)
  {
    model := m0;
    for v := 0 to n
      invariant model == m0.(vars := model.vars) && NodeVars(model, v)
    {
      model := model.AddVar(BinaryVar(Naming.NatToString(v), 1.0));
    }
  }

  /** One x_u + x_v <= 1 per edge, in edge order. */
  method AddEdgeConss(m0: Model, es: seq<Edge>) returns (model: Model)
    ensures model == m0.(conss := m0.conss + EdgeConss(es))
  {
    model := m0;
    for k := 0 to |es|
      invariant model == m0.(conss := m0.conss + EdgeConss(es[..k]))
    {
      assert EdgeConss(es[..k + 1]) == EdgeConss(es[..k]) + [EdgeCons(es[k])];
      model := model.AddCons(EdgeCons(es[k]));
    }
    assert es[..|es|] == es;
  }

  /** Edge constraints over node variables mention only live variables. */
  lemma EdgeConssLive(model: Model, es: seq<Edge>, head: nat)
    requires forall k :: 0 <= k < |es| ==> es[k].0 < |model.vars| && es[k].1 < |model.vars|
    requires model.removed == {} && head <= |model.conss| && model.conss[head..] == EdgeConss(es)
    ensures forall k, h :: head <= k < |model.conss| && h in model.conss[k].expr ==> model.IsLive(h)
  {
    forall k, h | head <= k < |model.conss| && h in model.conss[k].expr ensures model.IsLive(h) {
      assert model.conss[k] == model.conss[head..][k - head];
      KeysOfPair(es[k - head].0, es[k - head].1, 1.0, 1.0);
    }
  }

  method IndependentSet<L(==)>(lg: Labelled<L>, name: string) returns (model: Model)
    requires IsLabelled(lg)
    ensures IsIndependentSetModel(model, Relabel(lg), name) && model.WellFormed()
  {
    var g := Relabel(lg);
    RelabelIsGraph(lg);
    model := AddNodeVars(NewModel(name), g.n);
    model := AddEdgeConss(model, g.edges);
    model := model.SetSense(Maximize);
    assert model.conss[0..] == model.conss;
    EdgeConssLive(model, g.edges, 0);
  }

  // ---------------------------------------------------------------- meaning

  /** The nodes an assignment sets to one. */
  function Selected(x: seq<int>): set<nat> {
    set v: nat | v < |x| && x[v] == 1
  }

  function SelectedFrom(x: seq<int>, i: nat): set<nat> {
    set v: nat | i <= v < |x| && x[v] == 1
  }

  /** No edge has both ends in s (so no node with a self-loop is in s). */
  predicate Independent(g: Graph, s: set<nat>) {
    forall k :: 0 <= k < |g.edges| ==> !(g.edges[k].0 in s && g.edges[k].1 in s)
  }

  lemma {:induction false} ObjectiveFromNodes(model: Model, n: nat, x: seq<int>, i: nat)
    requires UnitVars(model, n) && model.removed == {} && |x| == n && Binary01(x)
    ensures ObjectiveFrom(model, x, i) == |SelectedFrom(x, i)| as real
    decreases n - i
  {
    if i >= n {
      assert SelectedFrom(x, i) == {};
    } else {
      ObjectiveFromNodes(model, n, x, i + 1);
      var here: set<nat> := if x[i] == 1 then {i} else {};
      assert SelectedFrom(x, i) == here + SelectedFrom(x, i + 1);
      assert here !! SelectedFrom(x, i + 1);
    }
  }

  /** With a binary assignment the objective counts the selected nodes. */
  lemma ObjectiveIsSize(model: Model, n: nat, x: seq<int>)
    requires UnitVars(model, n) && model.removed == {} && |x| == n && Binary01(x)
    ensures Objective(model, x) == |Selected(x)| as real
  {
    ObjectiveFromNodes(model, n, x, 0);
    assert SelectedFrom(x, 0) == Selected(x);
  }

  /** The bounds of the node variables admit exactly the 0/1 assignments. */
  lemma NodeBounds(model: Model, n: nat, x: seq<int>)
    requires UnitVars(model, n) && model.removed == {} && |x| == n
    ensures (forall h :: 0 <= h < |x| && h !in model.removed ==> InBounds(model.vars[h], x[h])) <==> Binary01(x)
  {
    forall h | 0 <= h < n ensures InBounds(model.vars[h], x[h]) <==> (x[h] == 0 || x[h] == 1) {
      BinaryBounds(model.vars[h].name, 1.0, x[h]);
    }
  }

  lemma EdgeConsMeaning(e: Edge, x: seq<int>)
    requires e.0 < |x| && e.1 < |x| && Binary01(x)
    ensures Satisfies(EdgeCons(e), x) <==> !(x[e.0] == 1 && x[e.1] == 1)
  {
    EvalPair(e.0, e.1, 1.0, 1.0, x);
  }

  /** x meets every edge constraint exactly when the nodes it selects are independent. */
  lemma EdgeConssMeaning(g: Graph, x: seq<int>)
    requires IsGraph(g) && |x| == g.n && Binary01(x)
    ensures (forall k :: 0 <= k < |EdgeConss(g.edges)| ==> Satisfies(EdgeConss(g.edges)[k], x))
            <==> Independent(g, Selected(x))
  {
    var cs := EdgeConss(g.edges);
    forall k | 0 <= k < |g.edges|
      ensures Satisfies(cs[k], x) <==> !(g.edges[k].0 in Selected(x) && g.edges[k].1 in Selected(x))
    {
      EdgeConsMeaning(g.edges[k], x);
    }
  }

  /** The edge formulation's solutions are exactly the independent sets. */
  lemma FeasibleIffIndependent(model: Model, g: Graph, name: string, x: seq<int>)
    requires IsIndependentSetModel(model, g, name) && IsGraph(g)
    ensures Feasible(model, x) <==> |x| == g.n && Binary01(x) && Independent(g, Selected(x))
  {
    if |x| == g.n {
      NodeBounds(model, g.n, x);
      if Binary01(x) {
        EdgeConssMeaning(g, x);
      }
    }
  }

  /** On nx.complete_graph(n) there are n variables and C(n, 2) constraints. */
  lemma CompleteCounts(model: Model, n: nat, name: string)
    requires IsIndependentSetModel(model, Graph(n, Combinations.Pairs(n)), name)
    ensures IsLabelled(Complete(n)) && Relabel(Complete(n)) == Graph(n, Combinations.Pairs(n))
    ensures model.NumVars() == n && 2 * model.NumConss() == n * (n - 1)
  {
    CompleteIsLabelled(n);
    Combinations.PairsCount(n);
  }

  /** In the complete graph on n nodes, an independent set has at most one node. */
  lemma CompleteIndependentIffSmall(n: nat, x: seq<int>)
    requires |x| == n
    ensures Independent(Graph(n, Combinations.Pairs(n)), Selected(x)) <==> |Selected(x)| <= 1
  {
    var g := Graph(n, Combinations.Pairs(n));
    var s := Selected(x);
    if Independent(g, s) {
      forall a, b | a in s && b in s && a != b ensures HasEdge(g, a, b) {
        CompleteAdjacent(n, a, b);
      }
      IndependentMeetsCliqueOnce(g, s, x);
      assert Chosen(s, x) == s;
    }
    if |s| <= 1 {
      forall k | 0 <= k < |g.edges| ensures !(g.edges[k].0 in s && g.edges[k].1 in s) {
        Combinations.PairIndexOf(n, k);
        OneMemberOnly(s, g.edges[k].0, g.edges[k].1);
      }
    }
  }

  /** independent_set(nx.complete_graph(n)) has optimum 1 when n >= 1 (the test uses n = 3). */
  lemma CompleteOptimum(model: Model, n: nat, name: string)
    requires IsIndependentSetModel(model, Graph(n, Combinations.Pairs(n)), name) && n >= 1
    ensures IsOptimum(model, 1.0)
  {
    var g := Graph(n, Combinations.Pairs(n));
    NodeVarsAreUnit(model, n);
    CompleteIsLabelled(n);
    RelabelIsGraph(Complete(n));
    var one := seq(n, i => if i == 0 then 1 else 0);
    assert Selected(one) == {0};
    FeasibleIffIndependent(model, g, name, one);
    CompleteIndependentIffSmall(n, one);
    ObjectiveIsSize(model, n, one);
    assert Feasible(model, one) && Objective(model, one) == 1.0;
    forall x | Feasible(model, x) ensures Better(model, 1.0, Objective(model, x)) {
      FeasibleIffIndependent(model, g, name, x);
      CompleteIndependentIffSmall(n, x);
      ObjectiveIsSize(model, n, x);
    }
  }

  // ------------------------------------------------ the greedy clique partition

  /** Every two distinct members are adjacent. */
  predicate IsClique(g: Graph, c: set<nat>) {
    forall a, b :: a in c && b in c && a != b ==> HasEdge(g, a, b)
  }

  /** all(neighbor in graph.neighbors(c) for c in clique) */
  predicate JoinedToAll(g: Graph, v: nat, clique: set<nat>) {
    forall c :: c in clique ==> HasEdge(g, c, v)
  }

  function GrowStep(g: Graph, clique: set<nat>, v: nat): set<nat> {
    if JoinedToAll(g, v, clique) then clique + {v} else clique
  }

  /** The clique after the for loop has looked at the candidates in order. */
  function Grow(g: Graph, start: set<nat>, cands: seq<nat>): set<nat> {
    if cands == [] then start
    else GrowStep(g, Grow(g, start, cands[..|cands| - 1]), cands[|cands| - 1])
  }

  /**
   * densest_neighbors: the leftover nodes adjacent to the centre, in leftover
   * order, which is non-increasing degree order (LeftoverSorted).
   */
  function Candidates(g: Graph, center: nat, rest: seq<nat>): seq<nat> {
    if rest == [] then []
    else
      Candidates(g, center, rest[..|rest| - 1])
      + (if HasEdge(g, center, rest[|rest| - 1]) then [rest[|rest| - 1]] else [])
  }

  lemma {:induction false} CandidatesMembers(g: Graph, center: nat, rest: seq<nat>, v: nat)
    ensures v in Candidates(g, center, rest) <==> v in rest && HasEdge(g, center, v)
  {
    if rest != [] {
      assert rest == rest[..|rest| - 1] + [rest[|rest| - 1]];
      CandidatesMembers(g, center, rest[..|rest| - 1], v);
    }
  }

  lemma {:induction false} CandidatesCons(g: Graph, center: nat, v: nat, rest: seq<nat>)
    ensures Candidates(g, center, [v] + rest)
            == (if HasEdge(g, center, v) then [v] else []) + Candidates(g, center, rest)
    decreases |rest|
  {
    if rest != [] {
      var init := rest[..|rest| - 1];
      assert ([v] + rest)[..|rest|] == [v] + init;
      CandidatesCons(g, center, v, init);
    }
  }

  /** [node for node in leftover_nodes if node not in clique] */
  function Without(s: seq<nat>, c: set<nat>): (r: seq<nat>)
    ensures |r| <= |s|
  {
    if s == [] then []
    else Without(s[..|s| - 1], c) + (if s[|s| - 1] in c then [] else [s[|s| - 1]])
  }

  lemma {:induction false} WithoutMembers(s: seq<nat>, c: set<nat>, v: nat)
    ensures v in Without(s, c) <==> v in s && v !in c
  {
    if s != [] {
      assert s == s[..|s| - 1] + [s[|s| - 1]];
      WithoutMembers(s[..|s| - 1], c, v);
    }
  }

  lemma {:induction false} WithoutCons(v: nat, s: seq<nat>, c: set<nat>)
    ensures Without([v] + s, c) == (if v in c then [] else [v]) + Without(s, c)
    decreases |s|
  {
    if s != [] {
      var init := s[..|s| - 1];
      assert ([v] + s)[..|s|] == [v] + init;
      WithoutCons(v, init, c);
    }
  }

  /** The cliques the while loop appends, starting from the leftover list given. */
  function GreedyCliques(g: Graph, leftover: seq<nat>): seq<set<nat>>
    decreases |leftover|
  {
    if leftover == [] then []
    else
      var center, rest := leftover[0], leftover[1..];
      var clique := Grow(g, {center}, Candidates(g, center, rest));
      [clique] + GreedyCliques(g, Without(rest, clique))
  }

  /** _get_cliques(graph) */
  function Cliques(g: Graph): seq<set<nat>> {
    GreedyCliques(g, SortByDegree(g, Naturals(g.n)))
  }

  /** The for loop over densest_neighbors. */
  method GrowClique(g: Graph, center: nat, densest: seq<nat>) returns (clique: set<nat>)
    ensures clique == Grow(g, {center}, densest)
  {
    clique := {center};
    for j := 0 to |densest|
      invariant clique == Grow(g, {center}, densest[..j])
    {
      assert densest[..j + 1][..j] == densest[..j];
      if JoinedToAll(g, densest[j], clique) {
        clique := clique + {densest[j]};
      }
    }
    assert densest[..|densest|] == densest;
  }

  lemma GreedyCliquesStep(g: Graph, leftover: seq<nat>)
    requires leftover != []
    ensures GreedyCliques(g, leftover)
            == [Grow(g, {leftover[0]}, Candidates(g, leftover[0], leftover[1..]))]
               + GreedyCliques(g, Without(leftover[1..], Grow(g, {leftover[0]}, Candidates(g, leftover[0], leftover[1..]))))
  {
  }

  /** One round of the while loop, with its clique and leftover list named. */
  lemma RoundSplits(g: Graph, leftover: seq<nat>, clique: set<nat>, next: seq<nat>)
    requires leftover != []
    requires clique == Grow(g, {leftover[0]}, Candidates(g, leftover[0], leftover[1..]))
    requires next == Without(leftover[1..], clique)
    ensures GreedyCliques(g, leftover) == [clique] + GreedyCliques(g, next) && |next| < |leftover|
  {
    GreedyCliquesStep(g, leftover);
  }

  method GetCliques(g: Graph) returns (cliques: seq<set<nat>>)
    ensures cliques == Cliques(g)
  {
    cliques := [];
    var leftover := SortByDegree(g, Naturals(g.n));
    while leftover != []
      invariant cliques + GreedyCliques(g, leftover) == Cliques(g)
      decreases |leftover|
    {
      var center, rest := leftover[0], leftover[1..];
      var clique := GrowClique(g, center, Candidates(g, center, rest));
      var next := Without(rest, clique);
      RoundSplits(g, leftover, clique, next);
      assert (cliques + [clique]) + GreedyCliques(g, next) == cliques + ([clique] + GreedyCliques(g, next));
      cliques, leftover := cliques + [clique], next;
    }
  }

  lemma {:induction false} GrowBounds(g: Graph, start: set<nat>, cands: seq<nat>)
    ensures start <= Grow(g, start, cands)
    ensures forall v :: v in Grow(g, start, cands) ==> v in start || v in cands
    ensures IsClique(g, start) ==> IsClique(g, Grow(g, start, cands))
  {
    if cands != [] {
      var init := cands[..|cands| - 1];
      GrowBounds(g, start, init);
      forall v | v in init ensures v in cands {
        var j :| 0 <= j < |init| && init[j] == v;
        assert cands[j] == v;
      }
    }
  }

  /** The nodes the sets cover together. */
  function Union(cs: seq<set<nat>>): set<nat> {
    if cs == [] then {} else cs[0] + Union(cs[1..])
  }

  /** The sets split `nodes` into non-empty, pairwise disjoint parts. */
  ghost predicate Partition(cs: seq<set<nat>>, nodes: set<nat>) {
    (forall k :: 0 <= k < |cs| ==> cs[k] != {} && cs[k] <= nodes) &&
    (forall k, l :: 0 <= k < l < |cs| ==> cs[k] !! cs[l]) &&
    Union(cs) == nodes
  }

  /** Adding a set in front of a partition of the remaining nodes. */
  lemma PartitionCons(c: set<nat>, tail: seq<set<nat>>, nodes: set<nat>)
    requires c != {} && c <= nodes && Partition(tail, nodes - c)
    ensures Partition([c] + tail, nodes)
  {
    var cs := [c] + tail;
    forall k, l | 0 <= k < l < |cs| ensures cs[k] !! cs[l] {
      assert cs[l] == tail[l - 1];
      if k > 0 { assert cs[k] == tail[k - 1]; }
    }
    forall k | 0 <= k < |cs| ensures cs[k] != {} && cs[k] <= nodes {
      if k > 0 { assert cs[k] == tail[k - 1]; }
    }
    assert cs[1..] == tail;
  }

  lemma AllCliquesCons(g: Graph, c: set<nat>, tail: seq<set<nat>>)
    requires IsClique(g, c) && forall k :: 0 <= k < |tail| ==> IsClique(g, tail[k])
    ensures forall k :: 0 <= k < |[c] + tail| ==> IsClique(g, ([c] + tail)[k])
  {
    forall k | 0 <= k < |[c] + tail| ensures IsClique(g, ([c] + tail)[k]) {
      if k > 0 { assert ([c] + tail)[k] == tail[k - 1]; }
    }
  }

  /** One round of the loop: the clique is taken from the leftover nodes, which lose exactly it. */
  lemma RoundTakes(g: Graph, leftover: seq<nat>)
    requires leftover != []
    ensures var clique := Grow(g, {leftover[0]}, Candidates(g, leftover[0], leftover[1..]));
            leftover[0] in clique && clique <= ToSet(leftover) && IsClique(g, clique) &&
            ToSet(Without(leftover[1..], clique)) == ToSet(leftover) - clique
  {
    var center, rest := leftover[0], leftover[1..];
    var cands := Candidates(g, center, rest);
    var clique := Grow(g, {center}, cands);
    GrowBounds(g, {center}, cands);
    assert leftover == [center] + rest;
    forall v | v in clique ensures v in leftover {
      if v != center { CandidatesMembers(g, center, rest, v); }
    }
    forall v | v in ToSet(Without(rest, clique)) ensures v in ToSet(leftover) - clique {
      WithoutMembers(rest, clique, v);
    }
    forall v | v in ToSet(leftover) - clique ensures v in ToSet(Without(rest, clique)) {
      WithoutMembers(rest, clique, v);
    }
  }

  /** From any leftover list, the loop appends sets that partition the leftover nodes. */
  lemma {:induction false} GreedyCliquesPartition(g: Graph, leftover: seq<nat>)
    ensures Partition(GreedyCliques(g, leftover), ToSet(leftover))
    decreases |leftover|
  {
    if leftover != [] {
      var clique := Grow(g, {leftover[0]}, Candidates(g, leftover[0], leftover[1..]));
      var next := Without(leftover[1..], clique);
      RoundTakes(g, leftover);
      GreedyCliquesPartition(g, next);
      GreedyCliquesStep(g, leftover);
      PartitionCons(clique, GreedyCliques(g, next), ToSet(leftover));
    } else {
      assert ToSet(leftover) == {};
    }
  }

  /** Every set the loop appends is a clique of g. */
  lemma {:induction false} GreedyCliquesAreCliques(g: Graph, leftover: seq<nat>)
    ensures forall k :: 0 <= k < |GreedyCliques(g, leftover)| ==> IsClique(g, GreedyCliques(g, leftover)[k])
    decreases |leftover|
  {
    if leftover != [] {
      var clique := Grow(g, {leftover[0]}, Candidates(g, leftover[0], leftover[1..]));
      var next := Without(leftover[1..], clique);
      RoundTakes(g, leftover);
      GreedyCliquesAreCliques(g, next);
      GreedyCliquesStep(g, leftover);
      AllCliquesCons(g, clique, GreedyCliques(g, next));
    }
  }

  /** The loop appends at most one clique per leftover node, the first holding the first node. */
  lemma {:induction false} GreedyCliquesCount(g: Graph, leftover: seq<nat>)
    ensures |GreedyCliques(g, leftover)| <= |leftover|
    ensures leftover != [] ==> leftover[0] in GreedyCliques(g, leftover)[0]
    decreases |leftover|
  {
    if leftover != [] {
      var clique := Grow(g, {leftover[0]}, Candidates(g, leftover[0], leftover[1..]));
      RoundTakes(g, leftover);
      GreedyCliquesCount(g, Without(leftover[1..], clique));
      GreedyCliquesStep(g, leftover);
    }
  }

  /** The sorted node list holds every node exactly once and starts with a node of greatest degree. */
  lemma LeftoverSorted(g: Graph)
    ensures ToSet(SortByDegree(g, Naturals(g.n))) == ToSet(Naturals(g.n))
    ensures ByDegree(g, SortByDegree(g, Naturals(g.n)))
    ensures g.n > 0 ==> forall v :: 0 <= v < g.n ==> Degree(g, v) <= Degree(g, SortByDegree(g, Naturals(g.n))[0])
  {
    var s := SortByDegree(g, Naturals(g.n));
    SortByDegreeSorted(g, Naturals(g.n));
    forall v | v in ToSet(s) ensures v in ToSet(Naturals(g.n)) {
      assert v in multiset(s);
    }
    forall v | v in ToSet(Naturals(g.n)) ensures v in ToSet(s) {
      assert v in multiset(Naturals(g.n));
    }
    if g.n > 0 {
      forall v | 0 <= v < g.n ensures Degree(g, v) <= Degree(g, s[0]) {
        InNaturals(g.n, v);
        assert v in multiset(Naturals(g.n));
        var j :| 0 <= j < |s| && s[j] == v;
        if j > 0 { assert Degree(g, s[0]) >= Degree(g, s[j]); }
      }
    }
  }

  /** _get_cliques partitions the nodes into at most n non-empty sets. */
  lemma CliquesPartition(g: Graph)
    ensures Partition(Cliques(g), ToSet(Naturals(g.n)))
    ensures |Cliques(g)| <= g.n
  {
    var s := SortByDegree(g, Naturals(g.n));
    LeftoverSorted(g);
    GreedyCliquesPartition(g, s);
    GreedyCliquesCount(g, s);
    SortedLength(g);
  }

  lemma SortedLength(g: Graph)
    ensures |SortByDegree(g, Naturals(g.n))| == g.n
  {
    SortByDegreeSorted(g, Naturals(g.n));
    assert |multiset(SortByDegree(g, Naturals(g.n)))| == |multiset(Naturals(g.n))|;
  }

  /** Each set _get_cliques returns is a clique. */
  lemma CliquesAreCliques(g: Graph)
    ensures forall k :: 0 <= k < |Cliques(g)| ==> IsClique(g, Cliques(g)[k])
  {
    GreedyCliquesAreCliques(g, SortByDegree(g, Naturals(g.n)));
  }

  /** The first clique is centred on a node of greatest degree. */
  lemma FirstCliqueDensest(g: Graph)
    requires g.n > 0
    ensures exists c :: c in Cliques(g)[0] && forall v :: 0 <= v < g.n ==> Degree(g, v) <= Degree(g, c)
  {
    var s := SortByDegree(g, Naturals(g.n));
    LeftoverSorted(g);
    SortedLength(g);
    GreedyCliquesCount(g, s);
    assert s[0] in Cliques(g)[0];
  }

  // ------------------------------------------------ the clique formulation

  /** quicksum(vars[str(node)] for node in clique) <= 1 */
  function CliqueConss(cs: seq<set<nat>>): (r: seq<Cons>)
    ensures |r| == |cs| && forall k :: 0 <= k < |cs| ==> r[k] == Cons(Indicator(cs[k]), Le, 1.0)
  {
    seq(|cs|, k requires 0 <= k < |cs| => Cons(Indicator(cs[k]), Le, 1.0))
  }

  ghost predicate IsCliqueModel(model: Model, g: Graph, name: string) {
    model.name == name && model.removed == {} && model.sense == Maximize &&
    NodeVars(model, g.n) && model.conss == CliqueConss(Cliques(g))
  }

  /** One clique constraint per clique, in order. */
  method AddCliqueConss(m0: Model, cs: seq<set<nat>>) returns (model: Model)
    ensures model == m0.(conss := m0.conss + CliqueConss(cs))
  {
    model := m0;
    for k := 0 to |cs|
      invariant model == m0.(conss := m0.conss + CliqueConss(cs[..k]))
    {
      assert CliqueConss(cs[..k + 1]) == CliqueConss(cs[..k]) + [Cons(Indicator(cs[k]), Le, 1.0)];
      model := model.AddCons(Cons(Indicator(cs[k]), Le, 1.0));
    }
    assert cs[..|cs|] == cs;
  }

  /** Clique constraints over node variables mention only live variables. */
  lemma CliqueConssLive(model: Model, g: Graph)
    requires |model.vars| == g.n && model.removed == {} && |Cliques(g)| <= |model.conss|
    requires model.conss[..|Cliques(g)|] == CliqueConss(Cliques(g))
    ensures forall k, h :: 0 <= k < |Cliques(g)| && h in model.conss[k].expr ==> model.IsLive(h)
  {
    var cs := Cliques(g);
    CliquesPartition(g);
    forall k, h | 0 <= k < |cs| && h in model.conss[k].expr ensures model.IsLive(h) {
      assert model.conss[k] == CliqueConss(cs)[k];
      assert h in cs[k];
      InNaturals(g.n, h);
    }
  }

  method CliqueIndependentSet<L(==)>(lg: Labelled<L>, name: string) returns (model: Model)
    requires IsLabelled(lg)
    ensures IsCliqueModel(model, Relabel(lg), name) && model.WellFormed()
  {
    var g := Relabel(lg);
    var cliques := GetCliques(g);
    model := AddNodeVars(NewModel(name), g.n);
    model := AddCliqueConss(model, cliques);
    model := model.SetSense(Maximize);
    assert model.conss[..|Cliques(g)|] == model.conss;
    CliqueConssLive(model, g);
  }

  /** For a 0/1 assignment, a clique's constraint holds when it selects at most one member. */
  lemma CliqueConsMeaning(c: set<nat>, x: seq<int>)
    requires Binary01(x)
    ensures Satisfies(Cons(Indicator(c), Le, 1.0), x) <==> |Chosen(c, x)| <= 1
  {
    EvalIndicator(c, x);
  }

  /** An edge of g never has both ends in an independent set. */
  lemma AdjacentNotBoth(g: Graph, s: set<nat>, a: nat, b: nat)
    requires Independent(g, s) && HasEdge(g, a, b)
    ensures !(a in s && b in s)
  {
    if (a, b) in g.edges {
      var k :| 0 <= k < |g.edges| && g.edges[k] == (a, b);
    } else {
      var k :| 0 <= k < |g.edges| && g.edges[k] == (b, a);
    }
  }

  /** A set whose members are all equal has at most one member. */
  lemma AtMostOne(s: set<nat>)
    requires forall a, b :: a in s && b in s ==> a == b
    ensures |s| <= 1
  {
    if s != {} {
      var a :| a in s;
      assert s == {a};
    }
  }

  /** An independent set meets every clique in at most one node. */
  lemma IndependentMeetsCliqueOnce(g: Graph, c: set<nat>, x: seq<int>)
    requires IsClique(g, c) && Independent(g, Selected(x))
    ensures |Chosen(c, x)| <= 1
  {
    forall a, b | a in c && b in c && a != b ensures !(a in Selected(x) && b in Selected(x)) {
      AdjacentNotBoth(g, Selected(x), a, b);
    }
    AtMostOne(Chosen(c, x));
  }

  /** Every independent set satisfies the clique formulation. */
  lemma IndependentIsFeasible(model: Model, g: Graph, name: string, x: seq<int>)
    requires IsCliqueModel(model, g, name)
    requires |x| == g.n && Binary01(x) && Independent(g, Selected(x))
    ensures Feasible(model, x)
  {
    NodeBounds(model, g.n, x);
    CliquesAreCliques(g);
    forall k | 0 <= k < |model.conss| ensures Satisfies(model.conss[k], x) {
      IndependentMeetsCliqueOnce(g, Cliques(g)[k], x);
      CliqueConsMeaning(Cliques(g)[k], x);
    }
  }

  // ------------------------------------------------ the 5-cycle

  lemma Cycle5Degrees()
    ensures forall v :: 0 <= v < 5 ==> Degree(Cycle5(), v) == 2
  {
    var e1: seq<Edge> := [(0, 1)];
    var e2 := e1 + [(0, 4)];
    var e3 := e2 + [(1, 2)];
    var e4 := e3 + [(2, 3)];
    var e5 := e4 + [(3, 4)];
    assert e5 == Cycle5().edges;
    forall v | 0 <= v < 5 ensures Degree(Cycle5(), v) == 2 {
      assert e1[..0] == [] && e2[..1] == e1 && e3[..2] == e2 && e4[..3] == e3 && e5[..4] == e4;
      assert Ends(e1, v) == (if v == 0 || v == 1 then 1 else 0);
      assert Ends(e2, v) == Ends(e1, v) + (if v == 0 || v == 4 then 1 else 0);
      assert Ends(e3, v) == Ends(e2, v) + (if v == 1 || v == 2 then 1 else 0);
      assert Ends(e4, v) == Ends(e3, v) + (if v == 2 || v == 3 then 1 else 0);
      assert Ends(e5, v) == Ends(e4, v) + (if v == 3 || v == 4 then 1 else 0);
    }
  }

  /** With all degrees equal the stable sort changes nothing. */
  lemma {:induction false} SortEqualDegrees(g: Graph, s: seq<nat>, d: nat)
    requires forall k :: 0 <= k < |s| ==> Degree(g, s[k]) == d
    ensures SortByDegree(g, s) == s
  {
    if s != [] {
      SortEqualDegrees(g, s[1..], d);
      assert s == [s[0]] + s[1..];
    }
  }

  lemma Cycle5Sorted()
    ensures SortByDegree(Cycle5(), Naturals(5)) == [0, 1, 2, 3, 4]
  {
    Cycle5Degrees();
    assert Naturals(5) == [0, 1, 2, 3, 4];
    SortEqualDegrees(Cycle5(), Naturals(5), 2);
  }

  lemma Cycle5Adjacency()
    ensures HasEdge(Cycle5(), 0, 1) && !HasEdge(Cycle5(), 0, 2) && !HasEdge(Cycle5(), 0, 3) && HasEdge(Cycle5(), 0, 4)
    ensures !HasEdge(Cycle5(), 1, 4) && HasEdge(Cycle5(), 2, 3) && !HasEdge(Cycle5(), 2, 4)
  {
    var es := Cycle5().edges;
    assert es[0] == (0, 1) && es[1] == (0, 4) && es[2] == (2 - 1, 2) && es[3] == (2, 3) && es[4] == (3, 4);
  }

  lemma Cycle5Candidates(g: Graph)
    requires HasEdge(g, 0, 1) && !HasEdge(g, 0, 2) && !HasEdge(g, 0, 3) && HasEdge(g, 0, 4)
    requires HasEdge(g, 2, 3) && !HasEdge(g, 2, 4)
    ensures Candidates(g, 0, [1, 2, 3, 4]) == [1, 4] && Candidates(g, 2, [3, 4]) == [3]
  {
    var e: seq<nat> := [];
    assert [4] == [4] + e && [3, 4] == [3] + [4];
    assert [2, 3, 4] == [2] + [3, 4] && [1, 2, 3, 4] == [1] + [2, 3, 4];
    CandidatesCons(g, 0, 4, e);
    CandidatesCons(g, 0, 3, [4]);
    CandidatesCons(g, 0, 2, [3, 4]);
    CandidatesCons(g, 0, 1, [2, 3, 4]);
    CandidatesCons(g, 2, 4, e);
    CandidatesCons(g, 2, 3, [4]);
  }

  lemma Cycle5Without()
    ensures Without([1, 2, 3, 4], {0, 1}) == [2, 3, 4] && Without([3, 4], {2, 3}) == [4]
  {
    Cycle5WithoutFirst();
    var e: seq<nat> := [];
    assert [4] == [4] + e && [3, 4] == [3] + [4];
    WithoutCons(4, e, {2, 3});
    WithoutCons(3, [4], {2, 3});
  }

  lemma Cycle5WithoutFirst()
    ensures Without([1, 2, 3, 4], {0, 1}) == [2, 3, 4]
  {
    var e: seq<nat> := [];
    assert [4] == [4] + e && [3, 4] == [3] + [4];
    assert [2, 3, 4] == [2] + [3, 4] && [1, 2, 3, 4] == [1] + [2, 3, 4];
    WithoutCons(4, e, {0, 1});
    WithoutCons(3, [4], {0, 1});
    WithoutCons(2, [3, 4], {0, 1});
    WithoutCons(1, [2, 3, 4], {0, 1});
  }

  lemma Cycle5Grow(g: Graph)
    requires HasEdge(g, 0, 1) && !HasEdge(g, 1, 4) && HasEdge(g, 2, 3)
    ensures Grow(g, {0}, [1, 4]) == {0, 1} && Grow(g, {2}, [3]) == {2, 3} && Grow(g, {4}, []) == {4}
  {
    var c: seq<nat> := [1, 4];
    var d: seq<nat> := [3];
    assert c[..1] == [1] && [1][..0] == [] && d[..0] == [];
    assert JoinedToAll(g, 1, {0}) && !JoinedToAll(g, 4, {0, 1}) && JoinedToAll(g, 3, {2});
    assert Grow(g, {2}, d) == GrowStep(g, {2}, 3);
    assert Grow(g, {0}, [1]) == {0, 1};
    assert Grow(g, {0}, c) == GrowStep(g, {0, 1}, 4);
  }

  /** The first round: centre 0 takes 1 (joined) and rejects 4 (not joined to 1). */
  lemma Cycle5Round1(g: Graph)
    requires HasEdge(g, 0, 1) && !HasEdge(g, 0, 2) && !HasEdge(g, 0, 3) && HasEdge(g, 0, 4)
    requires !HasEdge(g, 1, 4) && HasEdge(g, 2, 3) && !HasEdge(g, 2, 4)
    ensures GreedyCliques(g, [0, 1, 2, 3, 4]) == [{0, 1}] + GreedyCliques(g, [2, 3, 4])
  {
    var l: seq<nat> := [0, 1, 2, 3, 4];
    assert l[1..] == [1, 2, 3, 4];
    Cycle5Candidates(g);
    Cycle5Grow(g);
    Cycle5Without();
    GreedyCliquesStep(g, l);
  }

  /** The second round: centre 2 takes 3 and leaves 4. */
  lemma Cycle5Round2(g: Graph)
    requires HasEdge(g, 0, 1) && !HasEdge(g, 0, 2) && !HasEdge(g, 0, 3) && HasEdge(g, 0, 4)
    requires !HasEdge(g, 1, 4) && HasEdge(g, 2, 3) && !HasEdge(g, 2, 4)
    ensures GreedyCliques(g, [2, 3, 4]) == [{2, 3}] + GreedyCliques(g, [4])
  {
    var l: seq<nat> := [2, 3, 4];
    assert l[1..] == [3, 4];
    Cycle5Candidates(g);
    Cycle5Grow(g);
    Cycle5Without();
    GreedyCliquesStep(g, l);
  }

  lemma Cycle5Round3(g: Graph)
    requires HasEdge(g, 0, 1) && !HasEdge(g, 1, 4) && HasEdge(g, 2, 3)
    ensures GreedyCliques(g, [4]) == [{4}]
  {
    var l: seq<nat> := [4];
    assert l[1..] == [];
    Cycle5Grow(g);
    GreedyCliquesStep(g, l);
  }

  /** _get_cliques(nx.cycle_graph(5)) == [{0, 1}, {2, 3}, {4}] */
  lemma Cycle5Cliques()
    ensures Cliques(Cycle5()) == [{0, 1}, {2, 3}, {4}]
  {
    Cycle5Sorted();
    Cycle5Adjacency();
    Cycle5Rounds(Cycle5());
  }

  lemma Cycle5Rounds(g: Graph)
    requires HasEdge(g, 0, 1) && !HasEdge(g, 0, 2) && !HasEdge(g, 0, 3) && HasEdge(g, 0, 4)
    requires !HasEdge(g, 1, 4) && HasEdge(g, 2, 3) && !HasEdge(g, 2, 4)
    ensures GreedyCliques(g, [0, 1, 2, 3, 4]) == [{0, 1}, {2, 3}, {4}]
  {
    Cycle5Round1(g);
    Cycle5Round2(g);
    Cycle5Round3(g);
  }

  /**
   * clique_independent_set(nx.cycle_graph(5)) accepts nodes 0, 2 and 4 with
   * objective 3, yet nodes 0 and 4 are adjacent: the edges (0, 4), (1, 2) and
   * (3, 4) run between different cliques and no constraint covers them.
   */
  lemma CliqueModelAdmitsAdjacentNodes(model: Model, name: string)
    requires IsCliqueModel(model, Cycle5(), name)
    ensures Feasible(model, [1, 0, 1, 0, 1]) && Objective(model, [1, 0, 1, 0, 1]) == 3.0
    ensures !Independent(Cycle5(), Selected([1, 0, 1, 0, 1]))
  {
    Cycle5Cliques();
    Cycle5NotIndependent();
    AcceptsOneFromEachClique(model, Cycle5(), name);
  }

  lemma AcceptsOneFromEachClique(model: Model, g: Graph, name: string)
    requires IsCliqueModel(model, g, name) && g.n == 5 && Cliques(g) == [{0, 1}, {2, 3}, {4}]
    ensures Feasible(model, [1, 0, 1, 0, 1]) && Objective(model, [1, 0, 1, 0, 1]) == 3.0
  {
    var x := [1, 0, 1, 0, 1];
    NodeBounds(model, 5, x);
    Cycle5CliquesHold();
    Cycle5Selected();
    ObjectiveIsSize(model, 5, x);
  }

  lemma Cycle5Selected()
    ensures Selected([1, 0, 1, 0, 1]) == {0, 2, 4}
  {
  }

  /** Nodes 0, 2 and 4 meet each clique of the 5-cycle once. */
  lemma Cycle5CliquesHold()
    ensures forall k :: 0 <= k < 3 ==> Satisfies(CliqueConss([{0, 1}, {2, 3}, {4}])[k], [1, 0, 1, 0, 1])
  {
    var x := [1, 0, 1, 0, 1];
    var cs: seq<set<nat>> := [{0, 1}, {2, 3}, {4}];
    assert Chosen(cs[0], x) == {0};
    assert Chosen(cs[1], x) == {2};
    assert Chosen(cs[2], x) == {4};
    forall k | 0 <= k < 3 ensures Satisfies(CliqueConss(cs)[k], x) {
      CliqueConsMeaning(cs[k], x);
    }
  }

  // ------------------------------------------------ the clique formulation with every edge covered

  /** Edge e lies inside one of the cliques (a self-loop never does). */
  predicate InsideClique(cs: seq<set<nat>>, e: Edge) {
    e.0 != e.1 && exists k :: 0 <= k < |cs| && e.0 in cs[k] && e.1 in cs[k]
  }

  /** The edges no clique constraint covers, in edge order. */
  function Uncovered(cs: seq<set<nat>>, es: seq<Edge>): seq<Edge> {
    if es == [] then []
    else Uncovered(cs, es[..|es| - 1]) + (if InsideClique(cs, es[|es| - 1]) then [] else [es[|es| - 1]])
  }

  lemma {:induction false} UncoveredMembers(cs: seq<set<nat>>, es: seq<Edge>, e: Edge)
    ensures e in Uncovered(cs, es) <==> e in es && !InsideClique(cs, e)
  {
    if es != [] {
      assert es == es[..|es| - 1] + [es[|es| - 1]];
      UncoveredMembers(cs, es[..|es| - 1], e);
    }
  }

  ghost predicate IsCoveredCliqueModel(model: Model, g: Graph, name: string) {
    model.name == name && model.removed == {} && model.sense == Maximize &&
    NodeVars(model, g.n) &&
    model.conss == CliqueConss(Cliques(g)) + EdgeConss(Uncovered(Cliques(g), g.edges))
  }

  /**
   * The clique formulation of the cited decision-diagram reference: the clique
   * constraints, then x_u + x_v <= 1 for every edge no clique covers.
   */
  method CoveredCliqueIndependentSet<L(==)>(lg: Labelled<L>, name: string) returns (model: Model)
    requires IsLabelled(lg)
    ensures IsCoveredCliqueModel(model, Relabel(lg), name) && model.WellFormed()
  {
    var g := Relabel(lg);
    var cliques := GetCliques(g);
    model := AddNodeVars(NewModel(name), g.n);
    model := AddCliqueConss(model, cliques);
    model := AddEdgeConss(model, Uncovered(cliques, g.edges));
    model := model.SetSense(Maximize);
    RelabelIsGraph(lg);
    UncoveredBounded(g, cliques);
    assert model.conss[..|Cliques(g)|] == CliqueConss(cliques);
    CliqueConssLive(model, g);
    assert model.conss[|cliques|..] == EdgeConss(Uncovered(cliques, g.edges));
    EdgeConssLive(model, Uncovered(cliques, g.edges), |cliques|);
  }

  /** The uncovered edges are edges of g. */
  lemma UncoveredBounded(g: Graph, cs: seq<set<nat>>)
    requires IsGraph(g)
    ensures forall k :: 0 <= k < |Uncovered(cs, g.edges)| ==>
              Uncovered(cs, g.edges)[k].0 < g.n && Uncovered(cs, g.edges)[k].1 < g.n
  {
    var es := Uncovered(cs, g.edges);
    forall k | 0 <= k < |es| ensures es[k].0 < g.n && es[k].1 < g.n {
      UncoveredMembers(cs, g.edges, es[k]);
    }
  }

  /** An edge inside a clique cannot have both ends selected when the clique constraint holds. */
  lemma InsideCliqueExcludes(cs: seq<set<nat>>, e: Edge, x: seq<int>)
    requires InsideClique(cs, e) && Binary01(x)
    requires forall k :: 0 <= k < |cs| ==> |Chosen(cs[k], x)| <= 1
    ensures !(e.0 in Selected(x) && e.1 in Selected(x))
  {
    var k :| 0 <= k < |cs| && e.0 in cs[k] && e.1 in cs[k];
    OneMemberOnly(Chosen(cs[k], x), e.0, e.1);
  }

  /** A set of at most one member cannot hold two different values. */
  lemma OneMemberOnly(s: set<nat>, a: nat, b: nat)
    requires |s| <= 1 && a != b
    ensures !(a in s && b in s)
  {
    if a in s {
      assert |s - {a}| == |s| - 1;
      assert s - {a} == {};
      assert b !in s - {a};
    }
  }

  /** No edge of es has both ends selected by x. */
  predicate NoneBoth(es: seq<Edge>, x: seq<int>) {
    forall k :: 0 <= k < |es| ==> !(es[k].0 in Selected(x) && es[k].1 in Selected(x))
  }

  /** Each set of cs has at most one node selected by x. */
  predicate OnceEach(cs: seq<set<nat>>, x: seq<int>) {
    forall k :: 0 <= k < |cs| ==> |Chosen(cs[k], x)| <= 1
  }

  /** For a 0/1 assignment the clique constraints hold when each clique has at most one selected node. */
  lemma CliqueConssMeaning(cs: seq<set<nat>>, x: seq<int>)
    requires Binary01(x)
    ensures SatisfiesAll(CliqueConss(cs), x) <==> OnceEach(cs, x)
  {
    forall k | 0 <= k < |cs| ensures Satisfies(CliqueConss(cs)[k], x) <==> |Chosen(cs[k], x)| <= 1 {
      CliqueConsMeaning(cs[k], x);
    }
  }

  /** For a 0/1 assignment the edge constraints hold when no listed edge has both ends selected. */
  lemma EdgeListMeaning(es: seq<Edge>, n: nat, x: seq<int>)
    requires |x| == n && Binary01(x)
    requires forall k :: 0 <= k < |es| ==> es[k].0 < n && es[k].1 < n
    ensures SatisfiesAll(EdgeConss(es), x) <==> NoneBoth(es, x)
  {
    forall k | 0 <= k < |es|
      ensures Satisfies(EdgeConss(es)[k], x) <==> !(es[k].0 in Selected(x) && es[k].1 in Selected(x))
    {
      EdgeConsMeaning(es[k], x);
    }
  }

  /** An independent set meets every clique once and no uncovered edge twice. */
  lemma IndependentMeetsCovered(g: Graph, x: seq<int>)
    requires Independent(g, Selected(x))
    ensures OnceEach(Cliques(g), x) && NoneBoth(Uncovered(Cliques(g), g.edges), x)
  {
    var cs := Cliques(g);
    CliquesAreCliques(g);
    forall k | 0 <= k < |cs| ensures |Chosen(cs[k], x)| <= 1 {
      IndependentMeetsCliqueOnce(g, cs[k], x);
    }
    var rest := Uncovered(cs, g.edges);
    forall k | 0 <= k < |rest| ensures !(rest[k].0 in Selected(x) && rest[k].1 in Selected(x)) {
      UncoveredMembers(cs, g.edges, rest[k]);
      var j :| 0 <= j < |g.edges| && g.edges[j] == rest[k];
    }
  }

  /** Each edge lies in a clique or among the uncovered edges, so the two kinds of constraint exclude it. */
  lemma CoveredMeansIndependent(g: Graph, x: seq<int>)
    requires Binary01(x)
    requires OnceEach(Cliques(g), x) && NoneBoth(Uncovered(Cliques(g), g.edges), x)
    ensures Independent(g, Selected(x))
  {
    var cs := Cliques(g);
    var rest := Uncovered(cs, g.edges);
    forall k | 0 <= k < |g.edges| ensures !(g.edges[k].0 in Selected(x) && g.edges[k].1 in Selected(x)) {
      var e := g.edges[k];
      if InsideClique(cs, e) {
        InsideCliqueExcludes(cs, e, x);
      } else {
        UncoveredMembers(cs, g.edges, e);
        var j :| 0 <= j < |rest| && rest[j] == e;
      }
    }
  }

  /** With every edge covered, the clique formulation's solutions are exactly the independent sets. */
  lemma CoveredFeasibleIffIndependent(model: Model, g: Graph, name: string, x: seq<int>)
    requires IsCoveredCliqueModel(model, g, name) && IsGraph(g)
    ensures Feasible(model, x) <==> |x| == g.n && Binary01(x) && Independent(g, Selected(x))
  {
    if |x| == g.n {
      NodeBounds(model, g.n, x);
      if Binary01(x) {
        var cs := Cliques(g);
        var rest := Uncovered(cs, g.edges);
        SatisfiesAllAppend(CliqueConss(cs), EdgeConss(rest), x);
        CliqueConssMeaning(cs, x);
        UncoveredBounded(g, cs);
        EdgeListMeaning(rest, g.n, x);
        if Independent(g, Selected(x)) {
          IndependentMeetsCovered(g, x);
        }
        if SatisfiesAll(model.conss, x) {
          CoveredMeansIndependent(g, x);
        }
      }
    }
  }

  /** The covered formulation on the 5-cycle rejects the assignment the plain one accepts. */
  lemma CoveredCycle5(model: Model, name: string)
    requires IsCoveredCliqueModel(model, Cycle5(), name)
    ensures !Feasible(model, [1, 0, 1, 0, 1])
  {
    Cycle5IsGraph();
    Cycle5NotIndependent();
    CoveredFeasibleIffIndependent(model, Cycle5(), name, [1, 0, 1, 0, 1]);
  }

  /** Nodes 0 and 4 of the 5-cycle are adjacent. */
  lemma Cycle5NotIndependent()
    ensures !Independent(Cycle5(), Selected([1, 0, 1, 0, 1]))
  {
    assert Cycle5().edges[1] == (0, 4);
    assert 0 in Selected([1, 0, 1, 0, 1]) && 4 in Selected([1, 0, 1, 0, 1]);
  }

  // ------------------------------------------------ complete graphs

  /** When every leftover node is joined to the centre, all of them are candidates. */
  lemma {:induction false} CandidatesAll(g: Graph, center: nat, rest: seq<nat>)
    requires forall v :: v in rest ==> HasEdge(g, center, v)
    ensures Candidates(g, center, rest) == rest
  {
    if rest != [] {
      var init := rest[..|rest| - 1];
      assert rest == init + [rest[|rest| - 1]];
      CandidatesAll(g, center, init);
    }
  }

  /** Removing a set that holds every element leaves nothing. */
  lemma {:induction false} WithoutAll(s: seq<nat>, c: set<nat>)
    requires forall v :: v in s ==> v in c
    ensures Without(s, c) == []
  {
    if s != [] {
      var init := s[..|s| - 1];
      assert s == init + [s[|s| - 1]];
      WithoutAll(init, c);
    }
  }

  /** If the leftover nodes are pairwise joined, the loop makes one clique of them all. */
  lemma OneClique(g: Graph, s: seq<nat>)
    requires s != [] && Distinct(s)
    requires forall a, b :: a in s && b in s && a != b ==> HasEdge(g, a, b)
    ensures GreedyCliques(g, s) == [ToSet(s)]
  {
    var center, rest := s[0], s[1..];
    assert s == [center] + rest;
    forall v | v in rest ensures v != center && HasEdge(g, center, v) {
      var j :| 0 <= j < |rest| && rest[j] == v;
      assert s[j + 1] == v;
    }
    CandidatesAll(g, center, rest);
    GrowAllJoined(g, center, rest);
    var clique := Grow(g, {center}, rest);
    assert clique == ToSet(s);
    WithoutAll(rest, clique);
    GreedyCliquesStep(g, s);
  }

  /** On a complete graph the greedy partition is the single clique of all nodes. */
  lemma CompleteCliques(n: nat)
    requires n > 0
    ensures Cliques(Graph(n, Combinations.Pairs(n))) == [ToSet(Naturals(n))]
  {
    var g := Graph(n, Combinations.Pairs(n));
    var s := SortByDegree(g, Naturals(n));
    LeftoverSorted(g);
    SortedLength(g);
    SortedNodesDistinct(g, n);
    forall a, b | a in s && b in s && a != b ensures HasEdge(g, a, b) {
      assert a in ToSet(s) && b in ToSet(s);
      InNaturals(n, a);
      InNaturals(n, b);
      CompleteAdjacent(n, a, b);
    }
    OneClique(g, s);
  }

  /** On a complete graph the clique model has the node variables and one constraint over all nodes. */
  lemma CompleteCliqueModel(model: Model, n: nat, name: string)
    requires IsCliqueModel(model, Graph(n, Combinations.Pairs(n)), name) && n >= 1
    ensures UnitVars(model, n) && model.removed == {} && model.sense == Maximize
    ensures model.conss == [Cons(Indicator(ToSet(Naturals(n))), Le, 1.0)]
  {
    NodeVarsAreUnit(model, n);
    CompleteCliques(n);
  }

  /** With one constraint allowing at most one of all n nodes, no feasible point scores above 1. */
  lemma SingleCliqueBound(model: Model, n: nat, x: seq<int>)
    requires UnitVars(model, n) && model.removed == {}
    requires model.conss == [Cons(Indicator(ToSet(Naturals(n))), Le, 1.0)]
    requires Feasible(model, x)
    ensures Objective(model, x) <= 1.0
  {
    var all := ToSet(Naturals(n));
    assert |x| == n;
    NodeBounds(model, n, x);
    assert Binary01(x);
    assert Satisfies(model.conss[0], x);
    CliqueConsMeaning(all, x);
    assert |Chosen(all, x)| <= 1;
    forall v | v in Selected(x) ensures v in Chosen(all, x) {
      InNaturals(n, v);
    }
    assert Selected(x) <= Chosen(all, x);
    SubsetCard(Selected(x), Chosen(all, x));
    ObjectiveIsSize(model, n, x);
  }

  /**
   * clique_independent_set(nx.complete_graph(n)) has optimum 1 when n >= 1
   * (the test uses n = 3): the single clique constraint allows one node.
   */
  lemma CliqueCompleteOptimum(model: Model, n: nat, name: string)
    requires IsCliqueModel(model, Graph(n, Combinations.Pairs(n)), name) && n >= 1
    ensures IsOptimum(model, 1.0)
  {
    var one := CliqueCompleteAttains(model, n, name);
    CompleteCliqueModel(model, n, name);
    forall x | Feasible(model, x) ensures Better(model, 1.0, Objective(model, x)) {
      SingleCliqueBound(model, n, x);
    }
  }

  /** Selecting node 0 alone is feasible for the clique model of K_n, with objective 1. */
  lemma CliqueCompleteAttains(model: Model, n: nat, name: string) returns (one: seq<int>)
    requires IsCliqueModel(model, Graph(n, Combinations.Pairs(n)), name) && n >= 1
    ensures Feasible(model, one) && Objective(model, one) == 1.0
  {
    var g := Graph(n, Combinations.Pairs(n));
    NodeVarsAreUnit(model, n);
    one := seq(n, i => if i == 0 then 1 else 0);
    assert Selected(one) == {0};
    CompleteIndependentIffSmall(n, one);
    IndependentIsFeasible(model, g, name, one);
    ObjectiveIsSize(model, n, one);
  }

  lemma SortedNodesDistinct(g: Graph, n: nat)
    requires g.n == n
    ensures Distinct(SortByDegree(g, Naturals(n)))
  {
    SortByDegreeSorted(g, Naturals(n));
    NaturalsDistinct(n);
    PermutationDistinct(Naturals(n), SortByDegree(g, Naturals(n)));
  }

  /** Candidates all joined to the centre and to each other are all taken. */
  lemma {:induction false} GrowAllJoined(g: Graph, center: nat, cands: seq<nat>)
    requires forall v :: v in cands ==> v != center && HasEdge(g, center, v)
    requires forall a, b :: a in cands && b in cands && a != b ==> HasEdge(g, a, b)
    ensures Grow(g, {center}, cands) == {center} + ToSet(cands)
  {
    if cands != [] {
      var init := cands[..|cands| - 1];
      var last := cands[|cands| - 1];
      forall v | v in init ensures v in cands {
        var j :| 0 <= j < |init| && init[j] == v;
        assert cands[j] == v;
      }
      GrowAllJoined(g, center, init);
      assert cands == init + [last];
      var prev := Grow(g, {center}, init);
      if last !in prev {
        forall c | c in prev ensures HasEdge(g, c, last) {
          if c != center { assert c in cands; }
        }
      }
    }
  }
}
