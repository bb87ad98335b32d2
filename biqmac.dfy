/**
 * The graph builders of biqmac.py: node names "(i, j)", the balanced +1/-1
 * weight stream equal_many_ones, the two-dimensional torus t2g_base, and the
 * loop of generate_weighted_random_graph that weighs the edges of a random
 * graph and drops the zero-weight ones. A weight callback is modelled as the
 * sequence of values its calls return: the k-th call returns f(k).
 */
module Biqmac {
  import opened Common
  import opened NxGraph
  import Naming
  import Rand

  // ---------------------------------------------------------------- node_name

  /** node_name(i, j): f"({i}, {j})". */
  function NodeName(i: nat, j: nat): string {
    Naming.PairName(Naming.IntToString(i), ", ", Naming.IntToString(j))
  }

  /** The name reads back as the pair it was made from. */
  lemma NodeNameRoundTrip(i: nat, j: nat)
    ensures Naming.ParsePair(NodeName(i, j), ", ") == Some((i, j))
  {
    Naming.PairRoundTrip(i, ", ", j);
  }

  /** Two cells get the same name exactly when they are the same cell. */
  lemma NodeNameInjective(i: nat, j: nat, k: nat, l: nat)
    ensures NodeName(i, j) == NodeName(k, l) <==> i == k && j == l
  {
    NodeNameRoundTrip(i, j);
    NodeNameRoundTrip(k, l);
  }

  /** No two cells of the grid share a name. */
  ghost predicate Injective<N>(name: (nat, nat) -> N) {
    forall a, b, c, d :: name(a, b) == name(c, d) ==> a == c && b == d
  }

  lemma NodeNamesInjective()
    ensures Injective(NodeName)
  {
    forall a, b, c, d | NodeName(a, b) == NodeName(c, d) ensures a == c && b == d {
      NodeNameInjective(a, b, c, d);
    }
  }

  // ---------------------------------------------------------------- equal_many_ones

  /**
   * The values equal_many_ones yields with plus ones and minus minus-ones still to
   * come, when its next choice is answered from row b of stream: each choice is
   * weighted by the remaining counts, and the drawn sign's counter goes down.
   */
  function Balanced(plus: nat, minus: nat, stream: nat -> Rand.Raw, b: nat): seq<int>
    decreases plus + minus
  {
    if plus + minus == 0 then []
    else
      var v := Rand.SignOf(plus, minus, stream(b));
      [v] + (if v == 1 then Balanced(plus - 1, minus, stream, b + 1) else Balanced(plus, minus - 1, stream, b + 1))
  }

  /** plus values +1, minus values -1, and nothing else. */
  predicate SignCounts(vs: seq<int>, plus: nat, minus: nat) {
    |vs| == plus + minus && multiset(vs)[1] == plus && multiset(vs)[-1] == minus &&
    forall k :: 0 <= k < |vs| ==> vs[k] == 1 || vs[k] == -1
  }

  /** Putting a sign in front of a balanced run adds one to that sign's count. */
  lemma ConsCounts(v: int, rest: seq<int>, plus: nat, minus: nat)
    requires v == 1 || v == -1
    requires SignCounts(rest, plus, minus)
    ensures SignCounts([v] + rest, if v == 1 then plus + 1 else plus, if v == 1 then minus else minus + 1)
  {
    var vs := [v] + rest;
    assert multiset(vs) == multiset([v]) + multiset(rest);
    forall k | 0 <= k < |vs| ensures vs[k] == 1 || vs[k] == -1 {
      if k > 0 {
        assert vs[k] == rest[k - 1];
      }
    }
  }

  /** The values when the next draw gave v. */
  lemma BalancedCons(plus: nat, minus: nat, stream: nat -> Rand.Raw, b: nat, v: int)
    requires plus + minus > 0 && v == Rand.SignOf(plus, minus, stream(b))
    ensures v == 1 ==> plus > 0 && Balanced(plus, minus, stream, b) == [v] + Balanced(plus - 1, minus, stream, b + 1)
    ensures v != 1 ==> v == -1 && minus > 0 && Balanced(plus, minus, stream, b) == [v] + Balanced(plus, minus - 1, stream, b + 1)
  {
  }

  /** Whatever the draws, exactly plus values are +1, minus values are -1, and there is nothing else. */
  lemma {:induction false} BalancedCounts(plus: nat, minus: nat, stream: nat -> Rand.Raw, b: nat)
    ensures SignCounts(Balanced(plus, minus, stream, b), plus, minus)
    decreases plus + minus
  {
    if plus + minus > 0 {
      var v := Rand.SignOf(plus, minus, stream(b));
      BalancedCons(plus, minus, stream, b, v);
      var plus', minus' := if v == 1 then plus - 1 else plus, if v == 1 then minus else minus - 1;
      BalancedCounts(plus', minus', stream, b + 1);
      ConsCounts(v, Balanced(plus', minus', stream, b + 1), plus', minus');
    }
  }

  /**
   * equal_many_ones(n, seed), run to the end: the 2n values the generator yields,
   * one weighted choice of the sampler s per value.
   */
  method EqualManyOnes(n: nat, s: Rand.Sampler) returns (vs: seq<int>)
    requires s.Valid()
    modifies s
    ensures s.Valid() && old(s.log) <= s.log && s.pos == old(s.pos) + 2 * n
    ensures vs == Balanced(n, n, s.stream, old(s.pos))
    ensures |vs| == 2 * n && multiset(vs)[1] == n && multiset(vs)[-1] == n
    ensures forall k :: 0 <= k < |vs| ==> vs[k] == 1 || vs[k] == -1
  {
    var plus, minus := n, n;
    vs := [];
    while plus + minus > 0
      invariant s.Valid() && old(s.log) <= s.log && s.pos == old(s.pos) + |vs|
      invariant |vs| + plus + minus == 2 * n
      invariant vs + Balanced(plus, minus, s.stream, s.pos) == Balanced(n, n, s.stream, old(s.pos))
      decreases plus + minus
    {
      ghost var b := s.pos;
      var v := s.WeightedSign(plus, minus);
      assert s.log[b] == Rand.SignDraw(plus, minus, v);
      assert Rand.Explains(s.log[b], s.stream(b));
      BalancedCons(plus, minus, s.stream, b, v);
      var plus', minus' := if v == 1 then plus - 1 else plus, if v == 1 then minus else minus - 1;
      assert Balanced(plus, minus, s.stream, b) == [v] + Balanced(plus', minus', s.stream, s.pos);
      ShiftOne(vs, v, Balanced(plus', minus', s.stream, s.pos));
      vs, plus, minus := vs + [v], plus', minus';
    }
    assert vs + [] == vs;
    BalancedCounts(n, n, s.stream, old(s.pos));
  }

  // ---------------------------------------------------------------- t2g_base

  /** next_index: the next position on a cycle of length n. */
  function Next(j: nat, n: nat): nat {
    if j + 1 < n then j + 1 else 0
  }

  lemma NextFacts(j: nat, n: nat)
    requires j < n
    ensures Next(j, n) < n
    ensures 2 <= n ==> Next(j, n) != j
    ensures 3 <= n ==> Next(Next(j, n), n) != j
  {
  }

  function NodeRow<N>(n: nat, name: (nat, nat) -> N, i: nat): seq<N> {
    seq(n, j requires 0 <= j => name(i, j))
  }

  function NodeRows<N>(n: nat, name: (nat, nat) -> N): seq<seq<N>> {
    seq(n, i requires 0 <= i => NodeRow(n, name, i))
  }

  /** The nodes in the order of the two node loops: name(i, j) for i, then j, below n. */
  function TorusNodes<N>(n: nat, name: (nat, nat) -> N): seq<N> {
    Join(NodeRows(n, name))
  }

  /** The pairs of the two add_edge calls of step (i, j): (i, j) - (i, next) and (j, i) - (next, i). */
  function TorusCell<N>(n: nat, name: (nat, nat) -> N, i: nat, j: nat): seq<(N, N)> {
    [(name(i, j), name(i, Next(j, n))), (name(j, i), name(Next(j, n), i))]
  }

  function TorusCells<N>(n: nat, name: (nat, nat) -> N, i: nat): seq<seq<(N, N)>> {
    seq(n, j requires 0 <= j => TorusCell(n, name, i, j))
  }

  function TorusRow<N>(n: nat, name: (nat, nat) -> N, i: nat): seq<(N, N)> {
    Join(TorusCells(n, name, i))
  }

  function TorusRows<N>(n: nat, name: (nat, nat) -> N): seq<seq<(N, N)>> {
    seq(n, i requires 0 <= i => TorusRow(n, name, i))
  }

  /** The pairs of all the add_edge calls, in call order: call k draws weight f(k). */
  function TorusPairs<N>(n: nat, name: (nat, nat) -> N): seq<(N, N)> {
    Join(TorusRows(n, name))
  }

  /** Every node of the n x n torus is in ns. */
  ghost predicate Named<N>(n: nat, name: (nat, nat) -> N, ns: seq<N>) {
    forall i: nat, j: nat :: i < n && j < n ==> name(i, j) in ns
  }

  /**
   * t2g_base(n, weight_func, seed, keep_zero_edges): the n^2 nodes "(i, j)", then for
   * every (i, j) two draws of the weight, each followed by its add_edge unless the
   * weight is zero and zero edges are not kept. Returns the number of draws.
   */
  method T2gBase(n: nat, f: nat -> real, keep: bool) returns (g: Graph<string>, calls: nat)
    ensures fresh(g) && g.Valid()
    ensures g.nodes == TorusNodes(n, NodeName)
    ensures g.edges == AddAll([], Kept(TorusPairs(n, NodeName), f, keep))
    ensures calls == 2 * n * n && g.NumberOfNodes() == n * n
  {
    g := new Graph();
    NodeNamesInjective();
    AddTorusNodes(g, n, NodeName);
    TorusNodesFacts(n, NodeName);
    AddNodesFresh(TorusNodes(n, NodeName));
    calls := AddTorusEdges(g, n, NodeName, f, keep);
    TorusPairsLength(n, NodeName);
  }

  /** The node loops. */
  method AddTorusNodes<N(==)>(g: Graph<N>, n: nat, name: (nat, nat) -> N)
    requires g.Valid() && g.nodes == []
    modifies g
    ensures g.Valid() && g.nodes == AddNodes([], TorusNodes(n, name)) && g.edges == old(g.edges)
  {
    ghost var rows := NodeRows(n, name);
    assert Join(rows[..0]) == [];
    for i := 0 to n
      invariant g.Valid() && g.nodes == AddNodes([], Join(rows[..i])) && g.edges == old(g.edges)
    {
      AddTorusNodeRow(g, n, name, i, Join(rows[..i]));
      JoinSnoc(rows, i);
      assert rows[i] == NodeRow(n, name, i);
    }
    assert rows[..n] == rows;
  }

  method AddTorusNodeRow<N(==)>(g: Graph<N>, n: nat, name: (nat, nat) -> N, i: nat, ghost done: seq<N>)
    requires g.Valid() && g.nodes == AddNodes([], done)
    modifies g
    ensures g.Valid() && g.nodes == AddNodes([], done + NodeRow(n, name, i)) && g.edges == old(g.edges)
  {
    ghost var row := NodeRow(n, name, i);
    assert done + row[..0] == done;
    for j := 0 to n
      invariant g.Valid() && g.nodes == AddNodes([], done + row[..j]) && g.edges == old(g.edges)
    {
      var x := name(i, j);
      g.AddNode(x);
      AddNodesSnoc([], done + row[..j], x);
      assert row[j] == x;
      PrefixSnoc(done, row, j);
    }
    assert row[..n] == row;
  }

  /** The edge loops; returns the number of draws. */
  method AddTorusEdges<N(==)>(g: Graph<N>, n: nat, name: (nat, nat) -> N, f: nat -> real, keep: bool) returns (calls: nat)
    requires g.Valid() && Named(n, name, g.nodes) && g.edges == []
    modifies g
    ensures g.Valid() && g.nodes == old(g.nodes)
    ensures g.edges == AddAll([], Kept(TorusPairs(n, name), f, keep)) && calls == |TorusPairs(n, name)|
  {
    ghost var rows := TorusRows(n, name);
    calls := 0;
    assert Join(rows[..0]) == [];
    for i := 0 to n
      invariant g.Valid() && g.nodes == old(g.nodes)
      invariant g.edges == AddAll([], Kept(Join(rows[..i]), f, keep)) && calls == |Join(rows[..i])|
    {
      calls := AddTorusRow(g, n, name, i, f, keep, calls, Join(rows[..i]));
      JoinSnoc(rows, i);
      assert rows[i] == TorusRow(n, name, i);
    }
    assert rows[..n] == rows;
  }

  method AddTorusRow<N(==)>(g: Graph<N>, n: nat, name: (nat, nat) -> N, i: nat, f: nat -> real, keep: bool,
                            calls0: nat, ghost done: seq<(N, N)>)
    returns (calls: nat)
    requires i < n && g.Valid() && Named(n, name, g.nodes)
    requires g.edges == AddAll([], Kept(done, f, keep)) && calls0 == |done|
    modifies g
    ensures g.Valid() && g.nodes == old(g.nodes)
    ensures g.edges == AddAll([], Kept(done + TorusRow(n, name, i), f, keep)) && calls == |done + TorusRow(n, name, i)|
  {
    ghost var cells := TorusCells(n, name, i);
    calls := calls0;
    assert done + Join(cells[..0]) == done;
    for j := 0 to n
      invariant g.Valid() && g.nodes == old(g.nodes)
      invariant g.edges == AddAll([], Kept(done + Join(cells[..j]), f, keep)) && calls == |done + Join(cells[..j])|
    {
      calls := AddTorusStep(g, n, name, i, j, f, keep, calls, done + Join(cells[..j]));
      JoinSnocAfter(done, cells, j);
      assert cells[j] == TorusCell(n, name, i, j);
    }
    assert cells[..n] == cells;
  }

  /** One pass of the inner edge loop: two draws, each with its add_edge when the weight passes. */
  method AddTorusStep<N(==)>(g: Graph<N>, n: nat, name: (nat, nat) -> N, i: nat, j: nat, f: nat -> real, keep: bool,
                             calls0: nat, ghost done: seq<(N, N)>)
    returns (calls: nat)
    requires i < n && j < n && g.Valid() && Named(n, name, g.nodes)
    requires g.edges == AddAll([], Kept(done, f, keep)) && calls0 == |done|
    modifies g
    ensures g.Valid() && g.nodes == old(g.nodes)
    ensures g.edges == AddAll([], Kept(done + TorusCell(n, name, i, j), f, keep)) && calls == |done + TorusCell(n, name, i, j)|
  {
    var next := if j + 1 < n then j + 1 else 0;
    assert next == Next(j, n);
    var p := (name(i, j), name(i, next));
    var q := (name(j, i), name(next, i));
    AddKeptEdge(g, p, f, calls0, keep, [], done);
    AddKeptEdge(g, q, f, calls0 + 1, keep, [], done + [p]);
    calls := calls0 + 2;
    assert done + [p] + [q] == done + TorusCell(n, name, i, j);
  }

  // ---------------------------------------------------------------- the torus

  /** The nodes are the n^2 names name(i, j), each once. */
  lemma TorusNodesFacts<N>(n: nat, name: (nat, nat) -> N)
    requires Injective(name)
    ensures |TorusNodes(n, name)| == n * n && Distinct(TorusNodes(n, name)) && Named(n, name, TorusNodes(n, name))
    ensures forall x :: x in TorusNodes(n, name) ==> exists i: nat, j: nat :: i < n && j < n && x == name(i, j)
  {
    TorusNodesAt(n, name);
    TorusNodesDistinct(n, name);
    TorusNodesNamed(n, name);
    TorusNodesOnly(n, name);
  }

  /** There are n^2 nodes, name(i, j) at position Entry(i, j, n, n). */
  lemma TorusNodesAt<N>(n: nat, name: (nat, nat) -> N)
    ensures |TorusNodes(n, name)| == n * n
    ensures forall a :: 0 <= a < |NodeRows(n, name)| ==> |NodeRows(n, name)[a]| == n
  {
    JoinAt(NodeRows(n, name), n);
    OffsetIsProduct(n, n);
  }

  lemma TorusNodesDistinct<N>(n: nat, name: (nat, nat) -> N)
    requires Injective(name)
    ensures Distinct(TorusNodes(n, name))
  {
    var rows := NodeRows(n, name);
    var ns := TorusNodes(n, name);
    TorusNodesAt(n, name);
    forall p, q | 0 <= p < q < |ns| ensures ns[p] != ns[q] {
      var a1, r1 := JoinEntry(rows, n, p);
      var a2, r2 := JoinEntry(rows, n, q);
      assert ns[p] == name(a1, r1) && ns[q] == name(a2, r2);
    }
  }

  lemma TorusNodesNamed<N>(n: nat, name: (nat, nat) -> N)
    ensures Named(n, name, TorusNodes(n, name))
  {
    var rows := NodeRows(n, name);
    TorusNodesAt(n, name);
    forall i: nat, j: nat | i < n && j < n ensures name(i, j) in TorusNodes(n, name) {
      JoinCell(rows, n, i, j);
    }
  }

  lemma TorusNodesOnly<N>(n: nat, name: (nat, nat) -> N)
    ensures forall x :: x in TorusNodes(n, name) ==> exists i: nat, j: nat :: i < n && j < n && x == name(i, j)
  {
    var rows := NodeRows(n, name);
    var ns := TorusNodes(n, name);
    TorusNodesAt(n, name);
    forall x | x in ns ensures exists i: nat, j: nat :: i < n && j < n && x == name(i, j) {
      var k :| 0 <= k < |ns| && ns[k] == x;
      var a, r := JoinEntry(rows, n, k);
      assert x == name(a, r);
    }
  }

  /** Every pair of the torus is pair r of step (i, j), at position Entry(i, Entry(j, r, 2, n), 2n, n). */
  lemma TorusPairAt<N>(n: nat, name: (nat, nat) -> N, k: nat) returns (i: nat, j: nat, r: nat)
    requires k < |TorusPairs(n, name)|
    ensures i < n && j < n && r < 2
    ensures k == Entry(i, Entry(j, r, 2, n), Offset(n, 2), n)
    ensures TorusPairs(n, name)[k] == TorusCell(n, name, i, j)[r]
  {
    var rows := TorusRows(n, name);
    forall a | 0 <= a < n ensures |rows[a]| == Offset(n, 2) {
      JoinAt(TorusCells(n, name, a), 2);
    }
    var q;
    i, q := JoinEntry(rows, Offset(n, 2), k);
    j, r := JoinEntry(TorusCells(n, name, i), 2, q);
  }

  /** t2g_base draws 2 n^2 weights. */
  lemma TorusPairsLength<N>(n: nat, name: (nat, nat) -> N)
    ensures |TorusPairs(n, name)| == 2 * n * n
  {
    var rows := TorusRows(n, name);
    forall a | 0 <= a < n ensures |rows[a]| == Offset(n, 2) {
      JoinAt(TorusCells(n, name, a), 2);
    }
    JoinAt(rows, Offset(n, 2));
    GridOfGrids(n, n, 2);
  }

  /**
   * Once the cycles have three nodes, two different steps never add the same
   * pair, in either orientation, and no step adds a self-loop.
   */
  lemma CellsApart<N>(n: nat, name: (nat, nat) -> N, i1: nat, j1: nat, r1: nat, i2: nat, j2: nat, r2: nat)
    requires Injective(name) && 3 <= n && i1 < n && j1 < n && r1 < 2 && i2 < n && j2 < n && r2 < 2
    ensures var p, q := TorusCell(n, name, i1, j1)[r1], TorusCell(n, name, i2, j2)[r2];
      (p == q ==> i1 == i2 && j1 == j2 && r1 == r2) && q != (p.1, p.0)
  {
    NextFacts(j1, n);
    NextFacts(j2, n);
  }

  /** For n >= 3 the 2 n^2 pairs are listed once each as unordered pairs. */
  lemma TorusSimple<N>(n: nat, name: (nat, nat) -> N, f: nat -> real)
    requires Injective(name) && 3 <= n
    ensures Simple(Weighted(TorusPairs(n, name), f))
  {
    var ps := TorusPairs(n, name);
    forall a, b | 0 <= a < b < |ps| ensures ps[a] != ps[b] {
      var i1, j1, r1 := TorusPairAt(n, name, a);
      var i2, j2, r2 := TorusPairAt(n, name, b);
      CellsApart(n, name, i1, j1, r1, i2, j2, r2);
    }
    forall p, q | p in ps && q in ps ensures q != (p.1, p.0) {
      var a :| 0 <= a < |ps| && ps[a] == p;
      var b :| 0 <= b < |ps| && ps[b] == q;
      var i1, j1, r1 := TorusPairAt(n, name, a);
      var i2, j2, r2 := TorusPairAt(n, name, b);
      CellsApart(n, name, i1, j1, r1, i2, j2, r2);
    }
    WeightedSimple(ps, f);
  }

  /**
   * With keep_zero_edges and n >= 3 the torus has 2 n^2 edges, so its n^2 nodes have
   * average degree 4, and the i-th edge carries the i-th weight.
   */
  lemma TorusEdgeCount(n: nat, f: nat -> real)
    requires 3 <= n
    ensures AddAll([], Kept(TorusPairs(n, NodeName), f, true)) == Weighted(TorusPairs(n, NodeName), f)
    ensures |AddAll([], Kept(TorusPairs(n, NodeName), f, true))| == 2 * n * n
  {
    NodeNamesInjective();
    TorusSimple(n, NodeName, f);
    KeptAll(TorusPairs(n, NodeName), f);
    AddAllFreshAfter([], Weighted(TorusPairs(n, NodeName), f));
    assert [] + Weighted(TorusPairs(n, NodeName), f) == Weighted(TorusPairs(n, NodeName), f);
    TorusPairsLength(n, NodeName);
  }

  /**
   * Without keep_zero_edges every edge of the torus has a non-zero weight, and joins
   * (i, j) to (i, next) or (j, i) to (next, i) for some step (i, j).
   */
  lemma TorusNonzero(n: nat, f: nat -> real, e: WEdge<string>)
    requires e in AddAll([], Kept(TorusPairs(n, NodeName), f, false))
    ensures e.w.Some? && e.w.value != 0.0
    ensures exists i: nat, j: nat :: (i < n && j < n &&
      (Joins(e, NodeName(i, j), NodeName(i, Next(j, n))) || Joins(e, NodeName(j, i), NodeName(Next(j, n), i))))
  {
    var k := NonzeroKept(TorusPairs(n, NodeName), f, e);
    var i, j, r := TorusPairAt(n, NodeName, k);
    assert r == 0 || r == 1;
  }

  /** With keep_zero_edges every step (i, j) leaves both of its edges, for every n. */
  lemma TorusHasSteps(n: nat, f: nat -> real, i: nat, j: nat)
    requires i < n && j < n
    ensures var es := AddAll([], Kept(TorusPairs(n, NodeName), f, true));
      Find(es, NodeName(i, j), NodeName(i, Next(j, n))) < |es| && Find(es, NodeName(j, i), NodeName(Next(j, n), i)) < |es|
  {
    var ps := TorusPairs(n, NodeName);
    var k0 := TorusPairOf(n, NodeName, i, j, 0);
    var k1 := TorusPairOf(n, NodeName, i, j, 1);
    KeptComplete(ps, f, true, k0);
    KeptComplete(ps, f, true, k1);
    AddAllHasMember([], Kept(ps, f, true), WEdge(ps[k0].0, ps[k0].1, Some(f(k0))));
    AddAllHasMember([], Kept(ps, f, true), WEdge(ps[k1].0, ps[k1].1, Some(f(k1))));
  }

  /** Pair r of step (i, j) is one of the pairs of the torus. */
  lemma TorusPairOf<N>(n: nat, name: (nat, nat) -> N, i: nat, j: nat, r: nat) returns (k: nat)
    requires i < n && j < n && r < 2
    ensures k < |TorusPairs(n, name)| && TorusPairs(n, name)[k] == TorusCell(n, name, i, j)[r]
  {
    var rows := TorusRows(n, name);
    forall a | 0 <= a < n ensures |rows[a]| == Offset(n, 2) {
      JoinAt(TorusCells(n, name, a), 2);
    }
    var cells := TorusCells(n, name, i);
    JoinCell(cells, 2, j, r);
    var q := Entry(j, r, 2, n);
    JoinCell(rows, Offset(n, 2), i, q);
    k := Entry(i, q, Offset(n, 2), n);
  }

  // ---------------------------------------------------------------- generate_weighted_random_graph

  /** The position of the first edge joining a and b. */
  lemma FindAt<N>(es: seq<WEdge<N>>, a: N, b: N, k: nat)
    requires k < |es| && Joins(es[k], a, b)
    requires forall j :: 0 <= j < k ==> !Joins(es[j], a, b)
    ensures Find(es, a, b) == k
  {
  }

  /**
   * The loop of generate_weighted_random_graph over the edges of the random graph g
   * (a snapshot of them): edge i draws weight f(i); when it is non-zero, or zero edges
   * are kept, the edge gets that weight, otherwise it is removed. Returns the number of draws.
   */
  method WeighEdges<N(==)>(g: Graph<N>, f: nat -> real, keep: bool) returns (calls: nat)
    requires g.Valid()
    modifies g
    ensures g.Valid() && g.nodes == old(g.nodes)
    ensures g.edges == Kept(Pairs(old(g.edges)), f, keep) && calls == |old(g.edges)|
  {
    var snapshot := g.edges;
    ghost var ps := Pairs(snapshot);
    assert ps[..0] == [];
    for i := 0 to |snapshot|
      invariant g.Valid() && g.nodes == old(g.nodes)
      invariant Simple(snapshot) && g.edges == Kept(ps[..i], f, keep) + snapshot[i..]
    {
      WeighEdge(g, f, keep, snapshot, i);
    }
    assert ps[..|snapshot|] == ps;
    assert snapshot[|snapshot|..] == [];
    assert g.edges == Kept(ps, f, keep) + [];
    calls := |snapshot|;
  }

  /** One pass of that loop, on edge i of the snapshot es. */
  method WeighEdge<N(==)>(g: Graph<N>, f: nat -> real, keep: bool, es: seq<WEdge<N>>, i: nat)
    requires g.Valid() && Simple(es) && i < |es|
    requires g.edges == Kept(Pairs(es)[..i], f, keep) + es[i..]
    modifies g
    ensures g.Valid() && g.nodes == old(g.nodes)
    ensures g.edges == Kept(Pairs(es)[..i + 1], f, keep) + es[i + 1..]
  {
    var e := es[i];
    ghost var ps := Pairs(es);
    ghost var K := Kept(ps[..i], f, keep);
    ghost var rest := es[i + 1..];
    assert es[i..] == [e] + rest;
    assert g.edges == K + [e] + rest;
    KeptApart(es, f, keep, i);
    assert (K + [e] + rest)[|K|] == e;
    assert e in g.edges;
    var w := f(i);
    assert ps[..i + 1] == ps[..i] + [(e.u, e.v)];
    KeptSnoc(ps[..i], f, keep, (e.u, e.v));
    if w != 0.0 || keep {
      ReweighAt(K, e, rest, w);
      g.AddEdge(e.u, e.v, Some(w));
    } else {
      RemoveAt(K, e, rest);
      FindAt(K + [e] + rest, e.u, e.v, |K|);
      g.RemoveEdge(e.u, e.v);
      assert K + [] == K;
    }
  }

  /** The edges kept from the first i of a simple list do not join the ends of edge i. */
  lemma KeptApart<N>(es: seq<WEdge<N>>, f: nat -> real, keep: bool, i: nat)
    requires Simple(es) && i < |es|
    ensures var K := Kept(Pairs(es)[..i], f, keep); forall j :: 0 <= j < |K| ==> !Joins(K[j], es[i].u, es[i].v)
  {
    var ps := Pairs(es);
    var K := Kept(ps[..i], f, keep);
    forall j | 0 <= j < |K| ensures !Joins(K[j], es[i].u, es[i].v) {
      assert K[j] in K;
      var t := KeptMember(ps[..i], f, keep, K[j]);
      assert ps[..i][t] == (es[t].u, es[t].v);
    }
  }

  /** Giving weight w to an edge that no earlier edge joins sets its weight in place. */
  lemma ReweighAt<N>(K: seq<WEdge<N>>, e: WEdge<N>, rest: seq<WEdge<N>>, w: real)
    requires forall j :: 0 <= j < |K| ==> !Joins(K[j], e.u, e.v)
    ensures Added(K + [e] + rest, e.u, e.v, Some(w)) == K + [WEdge(e.u, e.v, Some(w))] + rest
  {
    var es := K + [e] + rest;
    FindAt(es, e.u, e.v, |K|);
    assert es[|K| := es[|K|].(w := Some(w))] == K + [WEdge(e.u, e.v, Some(w))] + rest;
  }

  /** Removing an edge that no earlier edge joins takes out exactly that edge. */
  lemma RemoveAt<N>(K: seq<WEdge<N>>, e: WEdge<N>, rest: seq<WEdge<N>>)
    requires forall j :: 0 <= j < |K| ==> !Joins(K[j], e.u, e.v)
    ensures Removed(K + [e] + rest, e.u, e.v) == K + rest
  {
    var es := K + [e] + rest;
    FindAt(es, e.u, e.v, |K|);
    assert es[..|K|] == K;
    assert es[|K| + 1..] == rest;
  }

  /**
   * After the loop the edges are the edges of the random graph in their order, each with its
   * drawn weight; without keep_zero_edges exactly the zero-weight ones are gone.
   */
  lemma WeighedEdges<N>(es: seq<WEdge<N>>, f: nat -> real, keep: bool, e: WEdge<N>)
    ensures e in Kept(Pairs(es), f, keep) <==>
      (exists i :: 0 <= i < |es| && e == WEdge(es[i].u, es[i].v, Some(f(i))) && (keep || f(i) != 0.0))
  {
    var ps := Pairs(es);
    if e in Kept(ps, f, keep) {
      var i := KeptMember(ps, f, keep, e);
    }
    if exists i :: 0 <= i < |es| && e == WEdge(es[i].u, es[i].v, Some(f(i))) && (keep || f(i) != 0.0) {
      var i :| 0 <= i < |es| && e == WEdge(es[i].u, es[i].v, Some(f(i))) && (keep || f(i) != 0.0);
      KeptComplete(ps, f, keep, i);
    }
  }
}
