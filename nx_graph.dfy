/**
 * The part of networkx.Graph the graph builders rely on: a graph object whose
 * add_node and add_edge change it in place. Nodes are kept in insertion
 * order; an edge is an unordered pair of nodes with an optional weight
 * attribute. The model lists the edges in the order the pairs were first
 * added; networkx reports them in adjacency order instead, which can differ
 * (see the "Graphs" line of "Left out" in README.md). add_node of a
 * node already present changes nothing; add_edge adds missing endpoints,
 * appends a new pair, and on a pair already present only sets its weight
 * (when a weight is given). So no unordered pair is ever listed twice, and
 * number_of_edges counts unordered pairs.
 */
module NxGraph {
  import opened Common

  /** An edge u – v and its "weight" attribute, if it has one. */
  datatype WEdge<N> = WEdge(u: N, v: N, w: Option<real>)

  /** e joins a and b, in either orientation. */
  predicate Joins<N(==)>(e: WEdge<N>, a: N, b: N) {
    (e.u == a && e.v == b) || (e.u == b && e.v == a)
  }

  /** The position of the edge joining a and b, or |es| when there is none. */
  function Find<N(==)>(es: seq<WEdge<N>>, a: N, b: N): (k: nat)
    ensures k <= |es| && (k < |es| ==> Joins(es[k], a, b))
    ensures forall i :: 0 <= i < k ==> !Joins(es[i], a, b)
  {
    if es == [] then 0 else if Joins(es[0], a, b) then 0 else 1 + Find(es[1..], a, b)
  }

  /** No unordered pair is listed twice. */
  predicate Simple<N(==)>(es: seq<WEdge<N>>) {
    forall i, j :: 0 <= i < j < |es| ==> !Joins(es[j], es[i].u, es[i].v)
  }

  /** The node list after add_node(x). */
  function WithNode<N(==)>(ns: seq<N>, x: N): seq<N> {
    if x in ns then ns else ns + [x]
  }

  /** The edge list after add_edge(a, b, weight=w), or after add_edge(a, b) when w is None. */
  function Added<N(==)>(es: seq<WEdge<N>>, a: N, b: N, w: Option<real>): seq<WEdge<N>> {
    var k := Find(es, a, b);
    if k == |es| then es + [WEdge(a, b, w)]
    else if w.Some? then es[k := es[k].(w := w)]
    else es
  }

  /** The edge list after remove_edge(a, b). */
  function Removed<N(==)>(es: seq<WEdge<N>>, a: N, b: N): seq<WEdge<N>> {
    var k := Find(es, a, b);
    if k == |es| then es else es[..k] + es[k + 1..]
  }

  /** The edges of es, without their weights, as ordered pairs. */
  function Pairs<N>(es: seq<WEdge<N>>): (ps: seq<(N, N)>)
    ensures |ps| == |es| && forall i :: 0 <= i < |es| ==> ps[i] == (es[i].u, es[i].v)
  {
    seq(|es|, i requires 0 <= i < |es| => (es[i].u, es[i].v))
  }

  class Graph<N(==)> {
    var nodes: seq<N>
    var edges: seq<WEdge<N>>

    /** What networkx keeps true: nodes once each, endpoints are nodes, pairs once each. */
    predicate Valid()
      reads this
    {
      Distinct(nodes) && Simple(edges) &&
      forall i :: 0 <= i < |edges| ==> edges[i].u in nodes && edges[i].v in nodes
    }

    /** nx.Graph() */
    constructor ()
      ensures Valid() && nodes == [] && edges == []
    {
      nodes := [];
      edges := [];
    }

    function NumberOfNodes(): nat
      reads this
    {
      |nodes|
    }

    function NumberOfEdges(): nat
      reads this
    {
      |edges|
    }

    predicate HasEdge(a: N, b: N)
      reads this
    {
      Find(edges, a, b) < |edges|
    }

    /** g.add_node(x) */
    method AddNode(x: N)
      requires Valid()
      modifies this
      ensures Valid() && nodes == WithNode(old(nodes), x) && edges == old(edges)
    {
      if x !in nodes {
        DistinctSnoc(nodes, x);
        nodes := nodes + [x];
      }
    }

    /** g.add_nodes_from(xs) */
    method AddNodesFrom(xs: seq<N>)
      requires Valid()
      modifies this
      ensures Valid() && nodes == AddNodes(old(nodes), xs) && edges == old(edges)
    {
      for i := 0 to |xs|
        invariant Valid() && nodes == AddNodes(old(nodes), xs[..i]) && edges == old(edges)
      {
        AddNode(xs[i]);
        assert xs[..i + 1][..i] == xs[..i];
      }
      assert xs[..|xs|] == xs;
    }

    /** g.add_edge(a, b, weight=w); w == None is add_edge(a, b) without attributes. */
    method AddEdge(a: N, b: N, w: Option<real>)
      requires Valid()
      modifies this
      ensures Valid()
      ensures nodes == WithNode(WithNode(old(nodes), a), b) && edges == Added(old(edges), a, b, w)
    {
      AddedSimple(edges, a, b, w);
      if a !in nodes {
        DistinctSnoc(nodes, a);
        nodes := nodes + [a];
      }
      if b !in nodes {
        DistinctSnoc(nodes, b);
        nodes := nodes + [b];
      }
      var k := Find(edges, a, b);
      if k == |edges| {
        edges := edges + [WEdge(a, b, w)];
      } else if w.Some? {
        edges := edges[k := edges[k].(w := w)];
      }
    }

    /** g.remove_edge(a, b), which raises NetworkXError when there is no such edge. */
    method RemoveEdge(a: N, b: N)
      requires Valid() && HasEdge(a, b)
      modifies this
      ensures Valid() && nodes == old(nodes) && edges == Removed(old(edges), a, b)
    {
      var k := Find(edges, a, b);
      RemovedSimple(edges, a, b);
      edges := edges[..k] + edges[k + 1..];
    }
  }

  lemma DistinctSnoc<N>(s: seq<N>, x: N)
    requires Distinct(s) && x !in s
    ensures Distinct(s + [x])
  {
  }

  /** add_edge keeps every pair once. */
  lemma AddedSimple<N>(es: seq<WEdge<N>>, a: N, b: N, w: Option<real>)
    requires Simple(es)
    ensures Simple(Added(es, a, b, w))
  {
    var k := Find(es, a, b);
    if k < |es| && w.Some? {
      var r := Added(es, a, b, w);
      forall i, j | 0 <= i < j < |r| ensures !Joins(r[j], r[i].u, r[i].v) {
        assert Joins(r[i], es[i].u, es[i].v) && Joins(r[j], es[j].u, es[j].v);
      }
    }
  }

  /** remove_edge keeps every pair once. */
  lemma RemovedSimple<N>(es: seq<WEdge<N>>, a: N, b: N)
    requires Simple(es)
    ensures Simple(Removed(es, a, b))
  {
    var k := Find(es, a, b);
    if k < |es| {
      var r := Removed(es, a, b);
      forall i, j | 0 <= i < j < |r| ensures !Joins(r[j], r[i].u, r[i].v) {
        var i', j' := if i < k then i else i + 1, if j < k then j else j + 1;
        assert r[i] == es[i'] && r[j] == es[j'];
      }
    }
  }

  /** After add_edge(a, b), a and b are joined and every pair joined before still is. */
  lemma AddedHas<N>(es: seq<WEdge<N>>, a: N, b: N, w: Option<real>, c: N, d: N)
    ensures Find(Added(es, a, b, w), a, b) < |Added(es, a, b, w)|
    ensures Find(es, c, d) < |es| ==> Find(Added(es, a, b, w), c, d) < |Added(es, a, b, w)|
  {
    var r := Added(es, a, b, w);
    var k := Find(es, a, b);
    if k == |es| {
      assert Joins(r[|es|], a, b);
    } else {
      assert Joins(r[k], a, b);
    }
    var q := Find(es, c, d);
    if q < |es| {
      assert Joins(r[q], c, d);
    }
  }

  /** add_edge of a pair not yet joined appends it. */
  lemma AddedFresh<N>(es: seq<WEdge<N>>, a: N, b: N, w: Option<real>)
    requires forall i :: 0 <= i < |es| ==> !Joins(es[i], a, b)
    ensures Added(es, a, b, w) == es + [WEdge(a, b, w)]
  {
  }

  /** Every edge after add_edge(a, b, w) was there before or is a – b with weight w. */
  lemma AddedFrom<N>(es: seq<WEdge<N>>, a: N, b: N, w: Option<real>, e: WEdge<N>)
    requires e in Added(es, a, b, w)
    ensures e in es || (Joins(e, a, b) && (w.Some? ==> e.w == w))
  {
    var k := Find(es, a, b);
    if k < |es| && w.Some? {
      var r := Added(es, a, b, w);
      var i :| 0 <= i < |r| && r[i] == e;
      if i != k {
        assert e == es[i];
      }
    }
  }

  // ---------------------------------------------------------------- many additions

  /** The edge list after add_edge for each edge of ws in turn, with its weight. */
  function AddAll<N(==)>(es: seq<WEdge<N>>, ws: seq<WEdge<N>>): seq<WEdge<N>> {
    if ws == [] then es
    else
      var l := ws[|ws| - 1];
      Added(AddAll(es, ws[..|ws| - 1]), l.u, l.v, l.w)
  }

  /** The node list after add_node for each x of xs in turn. */
  function AddNodes<N(==)>(ns: seq<N>, xs: seq<N>): seq<N> {
    if xs == [] then ns else WithNode(AddNodes(ns, xs[..|xs| - 1]), xs[|xs| - 1])
  }

  /** The edges u - v of the pairs (u, v) of ps, the i-th weighted f(i): the i-th call of a weight callback. */
  function Weighted<N>(ps: seq<(N, N)>, f: nat -> real): (ws: seq<WEdge<N>>)
    ensures |ws| == |ps|
    ensures forall i :: 0 <= i < |ps| ==> ws[i] == WEdge(ps[i].0, ps[i].1, Some(f(i)))
  {
    seq(|ps|, i requires 0 <= i < |ps| => WEdge(ps[i].0, ps[i].1, Some(f(i))))
  }

  /** The node list after add_edge for each edge of ws in turn. */
  function NodesOf<N(==)>(ns: seq<N>, ws: seq<WEdge<N>>): seq<N> {
    if ws == [] then ns
    else
      var l := ws[|ws| - 1];
      WithNode(WithNode(NodesOf(ns, ws[..|ws| - 1]), l.u), l.v)
  }

  /** The endpoints of the edges of ws. */
  function Ends<N>(ws: seq<WEdge<N>>): set<N> {
    if ws == [] then {} else Ends(ws[..|ws| - 1]) + {ws[|ws| - 1].u, ws[|ws| - 1].v}
  }

  /** Ends collects exactly the endpoints. */
  lemma {:induction false} EndsMember<N>(ws: seq<WEdge<N>>, x: N)
    ensures x in Ends(ws) <==> exists i :: 0 <= i < |ws| && (x == ws[i].u || x == ws[i].v)
  {
    if ws != [] {
      var m := |ws| - 1;
      EndsMember(ws[..m], x);
      if x in Ends(ws[..m]) {
        var i :| 0 <= i < m && (x == ws[..m][i].u || x == ws[..m][i].v);
        assert ws[..m][i] == ws[i];
      }
      if exists i :: 0 <= i < |ws| && (x == ws[i].u || x == ws[i].v) {
        var i :| 0 <= i < |ws| && (x == ws[i].u || x == ws[i].v);
        if i < m {
          assert ws[..m][i] == ws[i];
        }
      }
    }
  }

  lemma AddAllSnoc<N>(es: seq<WEdge<N>>, ns: seq<N>, ws: seq<WEdge<N>>, e: WEdge<N>)
    ensures AddAll(es, ws + [e]) == Added(AddAll(es, ws), e.u, e.v, e.w)
    ensures NodesOf(ns, ws + [e]) == WithNode(WithNode(NodesOf(ns, ws), e.u), e.v)
  {
    assert (ws + [e])[..|ws|] == ws;
  }

  /** An edge of ws is joined once all of ws is added. */
  lemma AddAllHasMember<N>(es: seq<WEdge<N>>, ws: seq<WEdge<N>>, e: WEdge<N>)
    requires e in ws
    ensures Find(AddAll(es, ws), e.u, e.v) < |AddAll(es, ws)|
  {
    var p :| 0 <= p < |ws| && ws[p] == e;
    assert Joins(ws[p], e.u, e.v);
    AddAllHas(es, ws, e.u, e.v);
  }

  /** Pairs listed once each are added one after another: nothing is merged. */
  lemma {:induction false} AddAllFresh<N>(ws: seq<WEdge<N>>)
    requires Simple(ws)
    ensures AddAll([], ws) == ws
  {
    if ws != [] {
      var m := |ws| - 1;
      var init := ws[..m];
      SimplePrefix(ws, m);
      AddAllFresh(init);
      LastFresh(ws);
      AddedFresh(init, ws[m].u, ws[m].v, ws[m].w);
      assert init + [WEdge(ws[m].u, ws[m].v, ws[m].w)] == ws;
    }
  }

  lemma SimplePrefix<N>(ws: seq<WEdge<N>>, m: nat)
    requires Simple(ws) && m <= |ws|
    ensures Simple(ws[..m])
  {
    var init := ws[..m];
    forall i, j | 0 <= i < j < m ensures !Joins(init[j], init[i].u, init[i].v) {
      assert init[i] == ws[i] && init[j] == ws[j];
    }
  }

  /** The last pair of a list of pairs listed once is joined by no earlier entry. */
  lemma LastFresh<N>(ws: seq<WEdge<N>>)
    requires Simple(ws) && ws != []
    ensures var m := |ws| - 1; forall i :: 0 <= i < m ==> !Joins(ws[..m][i], ws[m].u, ws[m].v)
  {
    var m := |ws| - 1;
    forall i | 0 <= i < m ensures !Joins(ws[..m][i], ws[m].u, ws[m].v) {
      assert ws[..m][i] == ws[i];
      assert !Joins(ws[m], ws[i].u, ws[i].v);
    }
  }

  /** After adding ws, every pair of ws and every pair joined before is joined. */
  lemma {:induction false} AddAllHas<N>(es: seq<WEdge<N>>, ws: seq<WEdge<N>>, c: N, d: N)
    requires Find(es, c, d) < |es| || exists i :: 0 <= i < |ws| && Joins(ws[i], c, d)
    ensures Find(AddAll(es, ws), c, d) < |AddAll(es, ws)|
  {
    if ws != [] {
      var m := |ws| - 1;
      var l := ws[m];
      var prev := AddAll(es, ws[..m]);
      if Joins(l, c, d) {
        AddedHas(prev, l.u, l.v, l.w, l.u, l.v);
        assert Find(prev, c, d) < |prev| || Find(Added(prev, l.u, l.v, l.w), l.u, l.v) < |Added(prev, l.u, l.v, l.w)|;
        FindJoined(Added(prev, l.u, l.v, l.w), l.u, l.v, c, d);
      } else {
        assert Find(es, c, d) < |es| || exists i :: 0 <= i < m && Joins(ws[..m][i], c, d);
        AddAllHas(es, ws[..m], c, d);
        AddedHas(prev, l.u, l.v, l.w, c, d);
      }
    }
  }

  /** Joining a and b is joining any orientation of the same pair. */
  lemma FindJoined<N>(es: seq<WEdge<N>>, a: N, b: N, c: N, d: N)
    requires (a == c && b == d) || (a == d && b == c)
    ensures Find(es, a, b) == Find(es, c, d)
  {
    if es != [] {
      FindJoined(es[1..], a, b, c, d);
    }
  }

  /** Adding the edges of ws adds exactly their endpoints to the nodes. */
  lemma {:induction false} NodesOfSet<N>(ns: seq<N>, ws: seq<WEdge<N>>)
    ensures ToSet(NodesOf(ns, ws)) == ToSet(ns) + Ends(ws)
  {
    if ws != [] {
      var m := |ws| - 1;
      NodesOfSet(ns, ws[..m]);
      var p := NodesOf(ns, ws[..m]);
      WithNodeSet(p, ws[m].u);
      WithNodeSet(WithNode(p, ws[m].u), ws[m].v);
    }
  }

  /** add_edge lists each node once. */
  lemma {:induction false} NodesOfDistinct<N>(ns: seq<N>, ws: seq<WEdge<N>>)
    requires Distinct(ns)
    ensures Distinct(NodesOf(ns, ws))
  {
    if ws != [] {
      var m := |ws| - 1;
      NodesOfDistinct(ns, ws[..m]);
      var p := NodesOf(ns, ws[..m]);
      if ws[m].u !in p {
        DistinctSnoc(p, ws[m].u);
      }
      var q := WithNode(p, ws[m].u);
      if ws[m].v !in q {
        DistinctSnoc(q, ws[m].v);
      }
    }
  }

  lemma WithNodeSet<N>(ns: seq<N>, x: N)
    ensures ToSet(WithNode(ns, x)) == ToSet(ns) + {x}
  {
  }

  /** Two runs of pairs listed once each, with no pair in both, list every pair once. */
  lemma SimpleConcat<N>(a: seq<WEdge<N>>, b: seq<WEdge<N>>)
    requires Simple(a) && Simple(b)
    requires forall x, y :: x in a && y in b ==> !Joins(y, x.u, x.v)
    ensures Simple(a + b)
  {
    var c := a + b;
    forall i, j | 0 <= i < j < |c| ensures !Joins(c[j], c[i].u, c[i].v) {
      if j < |a| {
        assert c[i] == a[i] && c[j] == a[j];
      } else if i >= |a| {
        assert c[i] == b[i - |a|] && c[j] == b[j - |a|];
      } else {
        assert c[i] == a[i] && c[j] == b[j - |a|];
        assert a[i] in a && b[j - |a|] in b;
      }
    }
  }

  // ---------------------------------------------------------------- runs of additions

  lemma AddNodesSnoc<N>(ns: seq<N>, xs: seq<N>, x: N)
    ensures AddNodes(ns, xs + [x]) == WithNode(AddNodes(ns, xs), x)
  {
    assert (xs + [x])[..|xs|] == xs;
  }

  /** One more weighted edge: the pair p with the next call of f. */
  lemma EdgeSnoc<N>(es: seq<WEdge<N>>, ps: seq<(N, N)>, f: nat -> real, p: (N, N))
    ensures AddAll(es, Weighted(ps + [p], f)) == Added(AddAll(es, Weighted(ps, f)), p.0, p.1, Some(f(|ps|)))
  {
    var w := WEdge(p.0, p.1, Some(f(|ps|)));
    assert Weighted(ps + [p], f) == Weighted(ps, f) + [w];
    AddAllSnoc(es, [], Weighted(ps, f), w);
  }

  /**
   * add_edge(p.0, p.1, weight=f(k)) between two nodes already present, as call k of a weight
   * stream f that has already weighted the pairs ps.
   */
  method AddStreamEdge<N(==)>(g: Graph<N>, p: (N, N), f: nat -> real, k: nat, ghost es: seq<WEdge<N>>, ghost ps: seq<(N, N)>)
    requires g.Valid() && p.0 in g.nodes && p.1 in g.nodes
    requires g.edges == AddAll(es, Weighted(ps, f)) && k == |ps|
    modifies g
    ensures g.Valid() && g.nodes == old(g.nodes) && g.edges == AddAll(es, Weighted(ps + [p], f))
  {
    g.AddEdge(p.0, p.1, Some(f(k)));
    EdgeSnoc(es, ps, f, p);
  }

  /** Nodes added once each are appended one after another: nothing is merged. */
  lemma {:induction false} AddNodesFresh<N>(xs: seq<N>)
    requires Distinct(xs)
    ensures AddNodes([], xs) == xs
  {
    if xs != [] {
      var m := |xs| - 1;
      assert Distinct(xs[..m]);
      AddNodesFresh(xs[..m]);
      assert xs[m] !in xs[..m];
      assert xs[..m] + [xs[m]] == xs;
    }
  }

  /** Edges whose pairs are all new are appended one after another: nothing is merged. */
  lemma {:induction false} AddAllFreshAfter<N>(es: seq<WEdge<N>>, ws: seq<WEdge<N>>)
    requires Simple(es + ws)
    ensures AddAll(es, ws) == es + ws
  {
    if ws != [] {
      var m := |ws| - 1;
      var all := es + ws;
      assert es + ws[..m] == all[..|es| + m];
      SimplePrefix(all, |es| + m);
      AddAllFreshAfter(es, ws[..m]);
      LastFresh(all);
      assert all[..|all| - 1] == es + ws[..m];
      assert all[|all| - 1] == ws[m];
      AddedFresh(es + ws[..m], ws[m].u, ws[m].v, ws[m].w);
      assert es + ws[..m] + [WEdge(ws[m].u, ws[m].v, ws[m].w)] == es + ws;
    }
  }

  /** Every edge of Weighted(ps, f) is one of the pairs of ps. */
  lemma WeightedMember<N>(ps: seq<(N, N)>, f: nat -> real, e: WEdge<N>)
    requires e in Weighted(ps, f)
    ensures (e.u, e.v) in ps
  {
    var i :| 0 <= i < |ps| && Weighted(ps, f)[i] == e;
    assert ps[i] == (e.u, e.v);
  }

  /** Pairs listed once, none listed reversed as well, are listed once as unordered pairs. */
  lemma WeightedSimple<N>(ps: seq<(N, N)>, f: nat -> real)
    requires Distinct(ps)
    requires forall p, q :: p in ps && q in ps ==> q != (p.1, p.0)
    ensures Simple(Weighted(ps, f))
  {
    var ws := Weighted(ps, f);
    forall i, j | 0 <= i < j < |ws| ensures !Joins(ws[j], ws[i].u, ws[i].v) {
      assert ps[i] in ps && ps[j] in ps;
      assert ps[i] != ps[j];
    }
  }

  // ---------------------------------------------------------------- the zero-weight filter

  /**
   * The edges of the pairs ps, the i-th weighted f(i), that pass the filter
   * `w != 0 or keep_zero_edges`: all of them when keep, the non-zero ones otherwise.
   */
  function Kept<N>(ps: seq<(N, N)>, f: nat -> real, keep: bool): seq<WEdge<N>> {
    if ps == [] then []
    else
      var n := |ps| - 1;
      Kept(ps[..n], f, keep) + (if keep || f(n) != 0.0 then [WEdge(ps[n].0, ps[n].1, Some(f(n)))] else [])
  }

  /** One more pair adds one more edge when its weight passes the filter, and nothing otherwise. */
  lemma KeptSnoc<N>(ps: seq<(N, N)>, f: nat -> real, keep: bool, p: (N, N))
    ensures Kept(ps + [p], f, keep) ==
      Kept(ps, f, keep) + (if keep || f(|ps|) != 0.0 then [WEdge(p.0, p.1, Some(f(|ps|)))] else [])
  {
    assert (ps + [p])[..|ps|] == ps;
  }

  /** With keep_zero_edges nothing is filtered out. */
  lemma {:induction false} KeptAll<N>(ps: seq<(N, N)>, f: nat -> real)
    ensures Kept(ps, f, true) == Weighted(ps, f)
  {
    if ps != [] {
      var n := |ps| - 1;
      KeptAll(ps[..n], f);
      assert Weighted(ps, f) == Weighted(ps[..n], f) + [WEdge(ps[n].0, ps[n].1, Some(f(n)))];
    }
  }

  /** Every kept edge is the i-th pair with the i-th weight, and that weight passed the filter. */
  lemma {:induction false} KeptMember<N>(ps: seq<(N, N)>, f: nat -> real, keep: bool, e: WEdge<N>) returns (i: nat)
    requires e in Kept(ps, f, keep)
    ensures i < |ps| && e == WEdge(ps[i].0, ps[i].1, Some(f(i))) && (keep || f(i) != 0.0)
  {
    var n := |ps| - 1;
    if e in Kept(ps[..n], f, keep) {
      i := KeptMember(ps[..n], f, keep, e);
      assert ps[..n][i] == ps[i];
    } else {
      i := n;
    }
  }

  /** A pair whose weight passes the filter is kept. */
  lemma {:induction false} KeptComplete<N>(ps: seq<(N, N)>, f: nat -> real, keep: bool, i: nat)
    requires i < |ps| && (keep || f(i) != 0.0)
    ensures WEdge(ps[i].0, ps[i].1, Some(f(i))) in Kept(ps, f, keep)
  {
    var n := |ps| - 1;
    if i < n {
      KeptComplete(ps[..n], f, keep, i);
      assert ps[..n][i] == ps[i];
    }
  }

  /**
   * w = f(k); add_edge(p.0, p.1, weight=w) when w != 0 or keep: call k of a weight
   * stream that has already been drawn for the pairs ps, between nodes already present.
   */
  method AddKeptEdge<N(==)>(g: Graph<N>, p: (N, N), f: nat -> real, k: nat, keep: bool,
                            ghost es: seq<WEdge<N>>, ghost ps: seq<(N, N)>)
    requires g.Valid() && p.0 in g.nodes && p.1 in g.nodes
    requires g.edges == AddAll(es, Kept(ps, f, keep)) && k == |ps|
    modifies g
    ensures g.Valid() && g.nodes == old(g.nodes) && g.edges == AddAll(es, Kept(ps + [p], f, keep))
  {
    var w := f(k);
    KeptSnoc(ps, f, keep, p);
    if w != 0.0 || keep {
      g.AddEdge(p.0, p.1, Some(w));
      AddAllSnoc(es, [], Kept(ps, f, keep), WEdge(p.0, p.1, Some(w)));
    } else {
      assert Kept(ps, f, keep) + [] == Kept(ps, f, keep);
    }
  }

  /** Every edge after adding ws comes from es, or joins the ends of one edge of ws and carries its weight. */
  lemma {:induction false} AddAllFrom<N>(es: seq<WEdge<N>>, ws: seq<WEdge<N>>, e: WEdge<N>) returns (k: nat)
    requires e in AddAll(es, ws)
    ensures e in es || (k < |ws| && Joins(e, ws[k].u, ws[k].v) && (ws[k].w.Some? ==> e.w == ws[k].w))
  {
    k := 0;
    if ws != [] {
      var n := |ws| - 1;
      var l := ws[n];
      AddedFrom(AddAll(es, ws[..n]), l.u, l.v, l.w, e);
      if e in AddAll(es, ws[..n]) {
        k := AddAllFrom(es, ws[..n], e);
        if e !in es {
          assert ws[..n][k] == ws[k];
        }
      } else {
        k := n;
      }
    }
  }

  /**
   * Without keep_zero_edges every edge the filtered additions leave has a non-zero weight,
   * and joins the ends of one of the pairs.
   */
  lemma NonzeroKept<N>(ps: seq<(N, N)>, f: nat -> real, e: WEdge<N>) returns (i: nat)
    requires e in AddAll([], Kept(ps, f, false))
    ensures i < |ps| && Joins(e, ps[i].0, ps[i].1) && e.w == Some(f(i)) && f(i) != 0.0
  {
    var ws := Kept(ps, f, false);
    var k := AddAllFrom([], ws, e);
    assert ws[k] in ws;
    i := KeptMember(ps, f, false, ws[k]);
  }
}
