/**
 * Undirected networkx graphs as values.
 *
 * A Labelled graph is what the caller passes in: its node labels in
 * graph.nodes order and its edges in graph.edges order. A Graph is the same
 * graph after nx.convert_node_labels_to_integers: node i is the i-th label,
 * and the edges keep their order and orientation (relabel_nodes re-adds
 * them in graph.edges order, so the new graph lists them the same way).
 */
module Graphs {
  import opened Common
  import Combinations

  type Edge = (nat, nat)

  datatype Graph = Graph(n: nat, edges: seq<Edge>)

  datatype Labelled<L> = Labelled(nodes: seq<L>, edges: seq<(L, L)>)

  predicate SamePair<T(==)>(a: (T, T), b: (T, T)) {
    a == b || a == (b.1, b.0)
  }

  /** What an nx.Graph guarantees: endpoints are nodes and no unordered pair is listed twice. */
  predicate IsGraph(g: Graph) {
    (forall k :: 0 <= k < |g.edges| ==> g.edges[k].0 < g.n && g.edges[k].1 < g.n) &&
    forall k, l :: 0 <= k < l < |g.edges| ==> !SamePair(g.edges[k], g.edges[l])
  }

  predicate IsLabelled<L(==)>(lg: Labelled<L>) {
    Distinct(lg.nodes) &&
    (forall k :: 0 <= k < |lg.edges| ==> lg.edges[k].0 in lg.nodes && lg.edges[k].1 in lg.nodes) &&
    forall k, l :: 0 <= k < l < |lg.edges| ==> !SamePair(lg.edges[k], lg.edges[l])
  }

  /** graph.has_edge(u, v) */
  predicate HasEdge(g: Graph, u: nat, v: nat) {
    (u, v) in g.edges || (v, u) in g.edges
  }

  /** No edge joins a node to itself. */
  predicate NoLoops(g: Graph) {
    forall k :: 0 <= k < |g.edges| ==> g.edges[k].0 != g.edges[k].1
  }

  /** set(graph.neighbors(u)) */
  function Neighbours(g: Graph, u: nat): (r: set<nat>)
    ensures forall v: nat :: v in r <==> v < g.n && HasEdge(g, u, v)
  {
    set v: nat | v < g.n && HasEdge(g, u, v)
  }

  /** graph.degree[u]: edge ends at u, a self-loop counting twice. */
  function Degree(g: Graph, u: nat): nat {
    Ends(g.edges, u)
  }

  function Ends(es: seq<Edge>, u: nat): nat {
    if es == [] then 0
    else Ends(es[..|es| - 1], u) + (if es[|es| - 1].0 == u then 1 else 0) + (if es[|es| - 1].1 == u then 1 else 0)
  }

  /** nx.convert_node_labels_to_integers(graph) */
  function Relabel<L(==)>(lg: Labelled<L>): (g: Graph)
    requires IsLabelled(lg)
    ensures g.n == |lg.nodes| && |g.edges| == |lg.edges|
    ensures forall k :: 0 <= k < |g.edges| ==>
              g.edges[k].0 < g.n && g.edges[k].1 < g.n &&
              lg.nodes[g.edges[k].0] == lg.edges[k].0 && lg.nodes[g.edges[k].1] == lg.edges[k].1
  {
    Graph(|lg.nodes|, seq(|lg.edges|, k requires 0 <= k < |lg.edges| =>
                            (Position(lg.nodes, lg.edges[k].0), Position(lg.nodes, lg.edges[k].1))))
  }

  lemma PositionOfDistinct<L>(s: seq<L>, i: nat)
    requires Distinct(s) && i < |s|
    ensures Position(s, s[i]) == i
  {
  }

  /** Relabelling an nx.Graph yields a graph on positions. */
  lemma RelabelIsGraph<L>(lg: Labelled<L>)
    requires IsLabelled(lg)
    ensures IsGraph(Relabel(lg))
  {
    var g := Relabel(lg);
    forall k, l | 0 <= k < l < |g.edges| ensures !SamePair(g.edges[k], g.edges[l]) {
      assert !SamePair(lg.edges[k], lg.edges[l]);
    }
  }

  /** Node i is joined to node j in the relabelled graph exactly when their labels are joined. */
  lemma RelabelAdjacency<L>(lg: Labelled<L>, i: nat, j: nat)
    requires IsLabelled(lg) && i < |lg.nodes| && j < |lg.nodes|
    ensures (i, j) in Relabel(lg).edges <==> (lg.nodes[i], lg.nodes[j]) in lg.edges
  {
    var g := Relabel(lg);
    if (lg.nodes[i], lg.nodes[j]) in lg.edges {
      var k :| 0 <= k < |lg.edges| && lg.edges[k] == (lg.nodes[i], lg.nodes[j]);
      PositionOfDistinct(lg.nodes, i);
      PositionOfDistinct(lg.nodes, j);
      assert g.edges[k] == (i, j);
    }
    if (i, j) in g.edges {
      var k :| 0 <= k < |g.edges| && g.edges[k] == (i, j);
      assert lg.edges[k] == (lg.nodes[i], lg.nodes[j]);
    }
  }

  /** A graph whose labels are already 0..n-1 is left as it is by relabelling. */
  lemma RelabelIdentity(n: nat, es: seq<(nat, nat)>)
    requires IsLabelled(Labelled(Naturals(n), es))
    ensures Relabel(Labelled(Naturals(n), es)) == Graph(n, es)
  {
    var lg := Labelled(Naturals(n), es);
    forall k | 0 <= k < |es| ensures Relabel(lg).edges[k] == es[k] {
      PositionOfDistinct(lg.nodes, es[k].0);
      PositionOfDistinct(lg.nodes, es[k].1);
    }
  }

  /** nx.complete_graph(n): its edges are combinations(range(n), 2). */
  function Complete(n: nat): Labelled<nat> {
    Labelled(Naturals(n), Combinations.Pairs(n))
  }

  lemma CompleteIsLabelled(n: nat)
    ensures IsLabelled(Complete(n)) && Relabel(Complete(n)) == Graph(n, Combinations.Pairs(n))
  {
    var ps := Combinations.Pairs(n);
    forall k | 0 <= k < |ps| ensures ps[k].0 in Naturals(n) && ps[k].1 in Naturals(n) {
      Combinations.PairIndexOf(n, k);
      assert Naturals(n)[ps[k].0] == ps[k].0 && Naturals(n)[ps[k].1] == ps[k].1;
    }
    forall k, l | 0 <= k < l < |ps| ensures !SamePair(ps[k], ps[l]) {
      Combinations.PairIndexOf(n, k);
      Combinations.PairIndexOf(n, l);
    }
    RelabelIdentity(n, ps);
  }

  /** In a complete graph every two distinct nodes are adjacent. */
  lemma CompleteAdjacent(n: nat, a: nat, b: nat)
    requires a < n && b < n && a != b
    ensures HasEdge(Graph(n, Combinations.Pairs(n)), a, b)
  {
    if a < b { Combinations.PairsMembers(n, (a, b)); } else { Combinations.PairsMembers(n, (b, a)); }
  }

  // ------------------------------------------------ sorted(nodes, key=-degree)

  /** Nodes in non-increasing order of degree. */
  predicate ByDegree(g: Graph, s: seq<nat>) {
    forall i, j :: 0 <= i < j < |s| ==> Degree(g, s[i]) >= Degree(g, s[j])
  }

  /** Insert v in front of the first node of no larger degree, so ties keep their order. */
  function Insert(g: Graph, v: nat, s: seq<nat>): (r: seq<nat>)
    ensures multiset(r) == multiset(s) + multiset{v}
  {
    if s == [] || Degree(g, s[0]) <= Degree(g, v) then [v] + s
    else
      assert s == [s[0]] + s[1..];
      [s[0]] + Insert(g, v, s[1..])
  }

  /** Python's stable sorted(s, key=lambda node: -graph.degree[node]). */
  function SortByDegree(g: Graph, s: seq<nat>): (r: seq<nat>)
    ensures multiset(r) == multiset(s)
  {
    if s == [] then []
    else
      assert s == [s[0]] + s[1..];
      Insert(g, s[0], SortByDegree(g, s[1..]))
  }

  lemma ConsSorted(g: Graph, a: nat, r: seq<nat>)
    requires ByDegree(g, r) && forall x :: x in r ==> Degree(g, a) >= Degree(g, x)
    ensures ByDegree(g, [a] + r)
  {
    forall i, j | 0 <= i < j < |[a] + r| ensures Degree(g, ([a] + r)[i]) >= Degree(g, ([a] + r)[j]) {
      assert ([a] + r)[j] == r[j - 1];
      if i > 0 { assert ([a] + r)[i] == r[i - 1]; }
    }
  }

  lemma {:induction false} InsertSorted(g: Graph, v: nat, s: seq<nat>)
    requires ByDegree(g, s)
    ensures ByDegree(g, Insert(g, v, s))
  {
    if s == [] || Degree(g, s[0]) <= Degree(g, v) {
      forall x | x in s ensures Degree(g, v) >= Degree(g, x) {
        var j :| 0 <= j < |s| && s[j] == x;
        if j > 0 { assert Degree(g, s[0]) >= Degree(g, s[j]); }
      }
      ConsSorted(g, v, s);
    } else {
      var t := s[1..];
      assert ByDegree(g, t) by {
        forall i, j | 0 <= i < j < |t| ensures Degree(g, t[i]) >= Degree(g, t[j]) {
          assert t[i] == s[i + 1] && t[j] == s[j + 1];
        }
      }
      InsertSorted(g, v, t);
      var r := Insert(g, v, t);
      forall x | x in r ensures Degree(g, s[0]) >= Degree(g, x) {
        assert x in multiset(r);
        if x != v {
          assert x in multiset(t);
          var j :| 0 <= j < |t| && t[j] == x;
          assert s[j + 1] == x;
        }
      }
      ConsSorted(g, s[0], r);
    }
  }

  /** The sort is a permutation of its input into non-increasing degree order. */
  lemma {:induction false} SortByDegreeSorted(g: Graph, s: seq<nat>)
    ensures ByDegree(g, SortByDegree(g, s)) && multiset(SortByDegree(g, s)) == multiset(s)
  {
    if s != [] {
      SortByDegreeSorted(g, s[1..]);
      InsertSorted(g, s[0], SortByDegree(g, s[1..]));
    }
  }

  // ---------------------------------------------------------------- the 5-cycle

  /** nx.cycle_graph(5) after relabelling: edges in graph.edges order. */
  function Cycle5(): Graph {
    Graph(5, [(0, 1), (0, 4), (1, 2), (2, 3), (3, 4)])
  }

  /** nx.cycle_graph(5) as it is passed in. */
  function Cycle5Labelled(): Labelled<int> {
    Labelled([0, 1, 2, 3, 4], [(0, 1), (0, 4), (1, 2), (2, 3), (3, 4)])
  }

  lemma Cycle5IsLabelled()
    ensures IsLabelled(Cycle5Labelled())
  {
    var lg := Cycle5Labelled();
    assert Distinct(lg.nodes) by {
      forall i, j | 0 <= i < j < 5 ensures lg.nodes[i] != lg.nodes[j] {}
    }
    forall k, l | 0 <= k < l < 5 ensures !SamePair(lg.edges[k], lg.edges[l]) {}
  }

  lemma Cycle5Positions(i: nat)
    requires i < 5
    ensures Position(Cycle5Labelled().nodes, i) == i
  {
    Cycle5IsLabelled();
    PositionOfDistinct(Cycle5Labelled().nodes, i);
  }

  lemma Cycle5Relabel()
    ensures IsLabelled(Cycle5Labelled()) && Relabel(Cycle5Labelled()) == Cycle5()
  {
    Cycle5IsLabelled();
    var lg := Cycle5Labelled();
    var g := Relabel(lg);
    forall k | 0 <= k < 5 ensures g.edges[k] == lg.edges[k] {
      Cycle5Positions(lg.edges[k].0);
      Cycle5Positions(lg.edges[k].1);
    }
    assert g.edges == Cycle5().edges;
  }

  lemma Cycle5IsGraph()
    ensures IsGraph(Cycle5())
  {
    Cycle5Relabel();
    RelabelIsGraph(Cycle5Labelled());
  }

  // ---------------------------------------------------------------- the path on three nodes

  /** nx.path_graph(3) after relabelling. */
  function Path3(): Graph {
    Graph(3, [(0, 1), (1, 2)])
  }

  /** nx.path_graph(3) as it is passed in. */
  function Path3Labelled(): Labelled<int> {
    Labelled([0, 1, 2], [(0, 1), (1, 2)])
  }

  lemma Path3IsLabelled()
    ensures IsLabelled(Path3Labelled())
  {
    var lg := Path3Labelled();
    assert Distinct(lg.nodes) by {
      forall i, j | 0 <= i < j < 3 ensures lg.nodes[i] != lg.nodes[j] {}
    }
    forall k, l | 0 <= k < l < 2 ensures !SamePair(lg.edges[k], lg.edges[l]) {}
  }

  lemma Path3Positions(i: nat)
    requires i < 3
    ensures Position(Path3Labelled().nodes, i) == i
  {
    Path3IsLabelled();
    PositionOfDistinct(Path3Labelled().nodes, i);
  }

  lemma Path3Relabel()
    ensures IsLabelled(Path3Labelled()) && Relabel(Path3Labelled()) == Path3()
  {
    Path3IsLabelled();
    var lg := Path3Labelled();
    var g := Relabel(lg);
    forall k | 0 <= k < 2 ensures g.edges[k] == lg.edges[k] {
      Path3Positions(lg.edges[k].0);
      Path3Positions(lg.edges[k].1);
    }
    assert g.edges == Path3().edges;
  }

  // ---------------------------------------------------------------- one edge

  /** nx.complete_graph(2) after relabelling. */
  function Edge2(): Graph {
    Graph(2, [(0, 1)])
  }

  /** nx.complete_graph(2) as it is passed in. */
  function Edge2Labelled(): Labelled<int> {
    Labelled([0, 1], [(0, 1)])
  }

  lemma Edge2Relabel()
    ensures IsLabelled(Edge2Labelled()) && Relabel(Edge2Labelled()) == Edge2()
  {
    var lg := Edge2Labelled();
    assert Distinct(lg.nodes) by {
      forall i, j | 0 <= i < j < 2 ensures lg.nodes[i] != lg.nodes[j] {}
    }
    var g := Relabel(lg);
    PositionOfDistinct(lg.nodes, 0);
    PositionOfDistinct(lg.nodes, 1);
    assert g.edges[0] == (0, 1);
    assert g.edges == Edge2().edges;
  }
}
