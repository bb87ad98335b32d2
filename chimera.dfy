/**
 * chimera_graph(n, m, t, inter, intra): an n x m grid of cells, each the
 * complete bipartite graph between t nodes on side 0 and t nodes on side 1.
 * Side-1 nodes are joined to the same position in the next cell of their
 * row, side-0 nodes to the same position in the next cell of their column.
 * The edges inside a cell take their weights from successive calls of inter,
 * the edges between cells from successive calls of intra (the row edges
 * first, then the column edges). A weight callback is modelled as the
 * sequence of values its calls return: the k-th call returns f(k).
 */
module Chimera {
  import opened Common
  import opened NxGraph
  import Rand

  /** The node (cur_n, cur_m, cur_t, cur_s): cell row, cell column, position on its side, side. */
  datatype Site = Site(row: nat, col: nat, pos: nat, side: nat)

  type Pair = (Site, Site)

  /** The length of range(x - 1). */
  function Pred(x: nat): nat {
    if x == 0 then 0 else x - 1
  }

  predicate IsSite(n: nat, m: nat, t: nat, x: Site) {
    x.row < n && x.col < m && x.pos < t && x.side < 2
  }

  /** Every node of the n x m x t chimera graph is in ns. */
  ghost predicate Sited(n: nat, m: nat, t: nat, ns: seq<Site>) {
    forall x :: IsSite(n, m, t, x) ==> x in ns
  }

  // ---------------------------------------------------------------- the lists the loops produce

  /** for cur_t, for cur_s: the nodes of cell (a, b). */
  function CellSiteRows(a: nat, b: nat, t: nat): seq<seq<Site>> {
    seq(t, c requires 0 <= c => seq(2, s requires 0 <= s => Site(a, b, c, s)))
  }

  function CellSites(a: nat, b: nat, t: nat): seq<Site> {
    Join(CellSiteRows(a, b, t))
  }

  /** for cur_m: the nodes of cell row a. */
  function RowSiteRows(a: nat, m: nat, t: nat): seq<seq<Site>> {
    seq(m, b requires 0 <= b => CellSites(a, b, t))
  }

  function RowSites(a: nat, m: nat, t: nat): seq<Site> {
    Join(RowSiteRows(a, m, t))
  }

  /** for cur_n: all nodes, in the order they are added. */
  function SiteRows(n: nat, m: nat, t: nat): seq<seq<Site>> {
    seq(n, a requires 0 <= a => RowSites(a, m, t))
  }

  function Sites(n: nat, m: nat, t: nat): seq<Site> {
    Join(SiteRows(n, m, t))
  }

  /** for right_t: left node l of cell (a, b) against every right node. */
  function CrossRow(a: nat, b: nat, l: nat, t: nat): seq<Pair> {
    seq(t, r requires 0 <= r => (Site(a, b, l, 0), Site(a, b, r, 1)))
  }

  /** for left_t, for right_t: the edges inside cell (a, b). */
  function CellCrossRows(a: nat, b: nat, t: nat): seq<seq<Pair>> {
    seq(t, l requires 0 <= l => CrossRow(a, b, l, t))
  }

  function CellCross(a: nat, b: nat, t: nat): seq<Pair> {
    Join(CellCrossRows(a, b, t))
  }

  function RowCrossRows(a: nat, m: nat, t: nat): seq<seq<Pair>> {
    seq(m, b requires 0 <= b => CellCross(a, b, t))
  }

  function RowCross(a: nat, m: nat, t: nat): seq<Pair> {
    Join(RowCrossRows(a, m, t))
  }

  /** The edges inside cells, in the order they are added. */
  function CrossRows(n: nat, m: nat, t: nat): seq<seq<Pair>> {
    seq(n, a requires 0 <= a => RowCross(a, m, t))
  }

  function CrossPairs(n: nat, m: nat, t: nat): seq<Pair> {
    Join(CrossRows(n, m, t))
  }

  /** for cur_t: cell (a, b) to cell (a, b + 1) on side 1. */
  function RightCell(a: nat, b: nat, t: nat): seq<Pair> {
    seq(t, c requires 0 <= c => (Site(a, b, c, 1), Site(a, b + 1, c, 1)))
  }

  function RightRowCells(a: nat, m: nat, t: nat): seq<seq<Pair>> {
    seq(Pred(m), b requires 0 <= b => RightCell(a, b, t))
  }

  function RightRow(a: nat, m: nat, t: nat): seq<Pair> {
    Join(RightRowCells(a, m, t))
  }

  /** The horizontal edges between cells, in the order they are added. */
  function RightRows(n: nat, m: nat, t: nat): seq<seq<Pair>> {
    seq(n, a requires 0 <= a => RightRow(a, m, t))
  }

  function RightPairs(n: nat, m: nat, t: nat): seq<Pair> {
    Join(RightRows(n, m, t))
  }

  /** for cur_t: cell (a, b) to cell (a + 1, b) on side 0. */
  function DownCell(a: nat, b: nat, t: nat): seq<Pair> {
    seq(t, c requires 0 <= c => (Site(a, b, c, 0), Site(a + 1, b, c, 0)))
  }

  function DownRowCells(a: nat, m: nat, t: nat): seq<seq<Pair>> {
    seq(m, b requires 0 <= b => DownCell(a, b, t))
  }

  function DownRow(a: nat, m: nat, t: nat): seq<Pair> {
    Join(DownRowCells(a, m, t))
  }

  /** The vertical edges between cells, in the order they are added. */
  function DownRows(n: nat, m: nat, t: nat): seq<seq<Pair>> {
    seq(Pred(n), a requires 0 <= a => DownRow(a, m, t))
  }

  function DownPairs(n: nat, m: nat, t: nat): seq<Pair> {
    Join(DownRows(n, m, t))
  }

  /** The edges of chimera_graph(n, m, t, inter, intra), in insertion order. */
  function ChimeraEdges(n: nat, m: nat, t: nat, inter: nat -> real, intra: nat -> real): seq<WEdge<Site>> {
    Weighted(CrossPairs(n, m, t), inter) + Weighted(RightPairs(n, m, t) + DownPairs(n, m, t), intra)
  }

  // ---------------------------------------------------------------- chimera_graph

  /** chimera_graph(n, m, t, inter, intra), with the number of calls of inter and of intra. */
  method ChimeraGraph(n: nat, m: nat, t: nat, inter: nat -> real, intra: nat -> real)
    returns (g: Graph<Site>, interCalls: nat, intraCalls: nat)
    ensures fresh(g) && g.Valid()
    ensures g.nodes == Sites(n, m, t) && g.edges == ChimeraEdges(n, m, t, inter, intra)
    ensures interCalls == n * m * t * t && intraCalls == n * Pred(m) * t + Pred(n) * m * t
    ensures g.NumberOfNodes() == n * m * t * 2
    ensures g.NumberOfEdges() == n * m * t * t + n * Pred(m) * t + Pred(n) * m * t
  {
    g := new Graph();
    AddSites(g, n, m, t);
    SitesFacts(n, m, t);
    AddNodesFresh(Sites(n, m, t));
    interCalls := AddCross(g, n, m, t, inter);
    ghost var cross := Weighted(CrossPairs(n, m, t), inter);
    ghost var between := Weighted(RightPairs(n, m, t) + DownPairs(n, m, t), intra);
    ChimeraSimple(n, m, t, inter, intra);
    SimplePrefix(cross + between, |cross|);
    assert (cross + between)[..|cross|] == [] + cross == cross;
    AddAllFreshAfter([], cross);
    intraCalls := AddRight(g, n, m, t, intra, cross);
    intraCalls := AddDown(g, n, m, t, intra, intraCalls, cross, RightPairs(n, m, t));
    AddAllFreshAfter(cross, between);
    ChimeraCounts(n, m, t);
  }

  /** The node loops. */
  method AddSites(g: Graph<Site>, n: nat, m: nat, t: nat)
    requires g.Valid() && g.nodes == []
    modifies g
    ensures g.Valid() && g.nodes == AddNodes([], Sites(n, m, t)) && g.edges == old(g.edges)
  {
    ghost var rows := SiteRows(n, m, t);
    assert Join(rows[..0]) == [];
    for a := 0 to n
      invariant g.Valid() && g.nodes == AddNodes([], Join(rows[..a])) && g.edges == old(g.edges)
    {
      AddRowSites(g, a, m, t, Join(rows[..a]));
      JoinSnoc(rows, a);
      assert rows[a] == RowSites(a, m, t);
    }
    assert rows[..n] == rows;
  }

  method AddRowSites(g: Graph<Site>, a: nat, m: nat, t: nat, ghost done: seq<Site>)
    requires g.Valid() && g.nodes == AddNodes([], done)
    modifies g
    ensures g.Valid() && g.nodes == AddNodes([], done + RowSites(a, m, t)) && g.edges == old(g.edges)
  {
    ghost var rows := RowSiteRows(a, m, t);
    assert done + Join(rows[..0]) == done;
    for b := 0 to m
      invariant g.Valid() && g.nodes == AddNodes([], done + Join(rows[..b])) && g.edges == old(g.edges)
    {
      AddCellSites(g, a, b, t, done + Join(rows[..b]));
      JoinSnocAfter(done, rows, b);
      assert rows[b] == CellSites(a, b, t);
    }
    assert rows[..m] == rows;
  }

  method AddCellSites(g: Graph<Site>, a: nat, b: nat, t: nat, ghost done: seq<Site>)
    requires g.Valid() && g.nodes == AddNodes([], done)
    modifies g
    ensures g.Valid() && g.nodes == AddNodes([], done + CellSites(a, b, t)) && g.edges == old(g.edges)
  {
    ghost var rows := CellSiteRows(a, b, t);
    assert done + Join(rows[..0]) == done;
    for c := 0 to t
      invariant g.Valid() && g.nodes == AddNodes([], done + Join(rows[..c])) && g.edges == old(g.edges)
    {
      ghost var before := done + Join(rows[..c]);
      assert before + rows[c][..0] == before;
      for s := 0 to 2
        invariant g.Valid() && g.nodes == AddNodes([], before + rows[c][..s]) && g.edges == old(g.edges)
      {
        g.AddNode(Site(a, b, c, s));
        AddNodesSnoc([], before + rows[c][..s], Site(a, b, c, s));
        assert rows[c][s] == Site(a, b, c, s);
        PrefixSnoc(before, rows[c], s);
      }
      JoinSnocAfter(done, rows, c);
      assert rows[c][..2] == rows[c];
    }
    assert rows[..t] == rows;
  }

  /** The loops adding the edges inside cells; returns the number of calls of inter. */
  method AddCross(g: Graph<Site>, n: nat, m: nat, t: nat, inter: nat -> real) returns (calls: nat)
    requires g.Valid() && Sited(n, m, t, g.nodes) && g.edges == []
    modifies g
    ensures g.Valid() && g.nodes == old(g.nodes)
    ensures g.edges == AddAll([], Weighted(CrossPairs(n, m, t), inter)) && calls == |CrossPairs(n, m, t)|
  {
    ghost var rows := CrossRows(n, m, t);
    calls := 0;
    assert Join(rows[..0]) == [];
    for a := 0 to n
      invariant g.Valid() && g.nodes == old(g.nodes)
      invariant g.edges == AddAll([], Weighted(Join(rows[..a]), inter)) && calls == |Join(rows[..a])|
    {
      calls := AddRowCross(g, n, m, t, a, inter, calls, Join(rows[..a]));
      JoinSnoc(rows, a);
      assert rows[a] == RowCross(a, m, t);
    }
    assert rows[..n] == rows;
  }

  method AddRowCross(g: Graph<Site>, n: nat, m: nat, t: nat, a: nat, inter: nat -> real, calls0: nat, ghost done: seq<Pair>)
    returns (calls: nat)
    requires a < n && g.Valid() && Sited(n, m, t, g.nodes)
    requires g.edges == AddAll([], Weighted(done, inter)) && calls0 == |done|
    modifies g
    ensures g.Valid() && g.nodes == old(g.nodes)
    ensures g.edges == AddAll([], Weighted(done + RowCross(a, m, t), inter)) && calls == |done + RowCross(a, m, t)|
  {
    ghost var rows := RowCrossRows(a, m, t);
    calls := calls0;
    assert done + Join(rows[..0]) == done;
    for b := 0 to m
      invariant g.Valid() && g.nodes == old(g.nodes)
      invariant g.edges == AddAll([], Weighted(done + Join(rows[..b]), inter)) && calls == |done + Join(rows[..b])|
    {
      calls := AddCellCross(g, n, m, t, a, b, inter, calls, done + Join(rows[..b]));
      JoinSnocAfter(done, rows, b);
      assert rows[b] == CellCross(a, b, t);
    }
    assert rows[..m] == rows;
  }

  method AddCellCross(g: Graph<Site>, n: nat, m: nat, t: nat, a: nat, b: nat, inter: nat -> real, calls0: nat,
                      ghost done: seq<Pair>)
    returns (calls: nat)
    requires a < n && b < m && g.Valid() && Sited(n, m, t, g.nodes)
    requires g.edges == AddAll([], Weighted(done, inter)) && calls0 == |done|
    modifies g
    ensures g.Valid() && g.nodes == old(g.nodes)
    ensures g.edges == AddAll([], Weighted(done + CellCross(a, b, t), inter)) && calls == |done + CellCross(a, b, t)|
  {
    ghost var rows := CellCrossRows(a, b, t);
    calls := calls0;
    assert done + Join(rows[..0]) == done;
    for l := 0 to t
      invariant g.Valid() && g.nodes == old(g.nodes)
      invariant g.edges == AddAll([], Weighted(done + Join(rows[..l]), inter)) && calls == |done + Join(rows[..l])|
    {
      calls := AddCrossLine(g, n, m, t, a, b, l, inter, calls, done + Join(rows[..l]));
      JoinSnocAfter(done, rows, l);
      assert rows[l] == CrossRow(a, b, l, t);
    }
    assert rows[..t] == rows;
  }

  /** The inner loop over right_t for one left_t: the edges from site (a, b, l, 0). */
  method AddCrossLine(g: Graph<Site>, n: nat, m: nat, t: nat, a: nat, b: nat, l: nat, inter: nat -> real, calls0: nat,
                      ghost done: seq<Pair>)
    returns (calls: nat)
    requires a < n && b < m && l < t && g.Valid() && Sited(n, m, t, g.nodes)
    requires g.edges == AddAll([], Weighted(done, inter)) && calls0 == |done|
    modifies g
    ensures g.Valid() && g.nodes == old(g.nodes)
    ensures g.edges == AddAll([], Weighted(done + CrossRow(a, b, l, t), inter)) && calls == |done + CrossRow(a, b, l, t)|
  {
    ghost var row := CrossRow(a, b, l, t);
    calls := calls0;
    assert done + row[..0] == done;
    for r := 0 to t
      invariant g.Valid() && g.nodes == old(g.nodes)
      invariant g.edges == AddAll([], Weighted(done + row[..r], inter)) && calls == |done + row[..r]|
    {
      var x, y := Site(a, b, l, 0), Site(a, b, r, 1);
      assert IsSite(n, m, t, x) && IsSite(n, m, t, y);
      AddStreamEdge(g, (x, y), inter, calls, [], done + row[..r]);
      assert row[r] == (x, y);
      PrefixSnoc(done, row, r);
      calls := calls + 1;
    }
    assert row[..t] == row;
  }

  /** The loops adding the horizontal edges between cells; returns the number of calls of intra. */
  method AddRight(g: Graph<Site>, n: nat, m: nat, t: nat, intra: nat -> real, ghost es: seq<WEdge<Site>>)
    returns (calls: nat)
    requires g.Valid() && Sited(n, m, t, g.nodes) && g.edges == AddAll(es, [])
    modifies g
    ensures g.Valid() && g.nodes == old(g.nodes)
    ensures g.edges == AddAll(es, Weighted(RightPairs(n, m, t), intra)) && calls == |RightPairs(n, m, t)|
  {
    ghost var rows := RightRows(n, m, t);
    calls := 0;
    assert Join(rows[..0]) == [];
    for a := 0 to n
      invariant g.Valid() && g.nodes == old(g.nodes)
      invariant g.edges == AddAll(es, Weighted(Join(rows[..a]), intra)) && calls == |Join(rows[..a])|
    {
      calls := AddRightRow(g, n, m, t, a, intra, calls, es, Join(rows[..a]));
      JoinSnoc(rows, a);
      assert rows[a] == RightRow(a, m, t);
    }
    assert rows[..n] == rows;
  }

  method AddRightRow(g: Graph<Site>, n: nat, m: nat, t: nat, a: nat, intra: nat -> real, calls0: nat,
                     ghost es: seq<WEdge<Site>>, ghost done: seq<Pair>)
    returns (calls: nat)
    requires a < n && g.Valid() && Sited(n, m, t, g.nodes)
    requires g.edges == AddAll(es, Weighted(done, intra)) && calls0 == |done|
    modifies g
    ensures g.Valid() && g.nodes == old(g.nodes)
    ensures g.edges == AddAll(es, Weighted(done + RightRow(a, m, t), intra)) && calls == |done + RightRow(a, m, t)|
  {
    ghost var rows := RightRowCells(a, m, t);
    calls := calls0;
    assert done + Join(rows[..0]) == done;
    for b := 0 to Pred(m)
      invariant g.Valid() && g.nodes == old(g.nodes)
      invariant g.edges == AddAll(es, Weighted(done + Join(rows[..b]), intra)) && calls == |done + Join(rows[..b])|
    {
      calls := AddRightCell(g, n, m, t, a, b, intra, calls, es, done + Join(rows[..b]));
      JoinSnocAfter(done, rows, b);
      assert rows[b] == RightCell(a, b, t);
    }
    assert rows[..Pred(m)] == rows;
  }

  /** The loop over t for one pair of horizontally neighbouring cells (a, b) and (a, b + 1). */
  method AddRightCell(g: Graph<Site>, n: nat, m: nat, t: nat, a: nat, b: nat, intra: nat -> real, calls0: nat,
                      ghost es: seq<WEdge<Site>>, ghost done: seq<Pair>)
    returns (calls: nat)
    requires a < n && b < Pred(m) && g.Valid() && Sited(n, m, t, g.nodes)
    requires g.edges == AddAll(es, Weighted(done, intra)) && calls0 == |done|
    modifies g
    ensures g.Valid() && g.nodes == old(g.nodes)
    ensures g.edges == AddAll(es, Weighted(done + RightCell(a, b, t), intra)) && calls == |done + RightCell(a, b, t)|
  {
    ghost var row := RightCell(a, b, t);
    calls := calls0;
    var b' := b + 1;
    assert done + row[..0] == done;
    for c := 0 to t
      invariant g.Valid() && g.nodes == old(g.nodes)
      invariant g.edges == AddAll(es, Weighted(done + row[..c], intra)) && calls == |done + row[..c]|
    {
      var x, y := Site(a, b, c, 1), Site(a, b', c, 1);
      assert IsSite(n, m, t, x) && IsSite(n, m, t, y);
      AddStreamEdge(g, (x, y), intra, calls, es, done + row[..c]);
      assert row[c] == (x, y);
      PrefixSnoc(done, row, c);
      calls := calls + 1;
    }
    assert row[..t] == row;
  }

  /** The loops adding the vertical edges between cells; intra has been called for the pairs done before. */
  method AddDown(g: Graph<Site>, n: nat, m: nat, t: nat, intra: nat -> real, calls0: nat,
                 ghost es: seq<WEdge<Site>>, ghost done: seq<Pair>)
    returns (calls: nat)
    requires g.Valid() && Sited(n, m, t, g.nodes)
    requires g.edges == AddAll(es, Weighted(done, intra)) && calls0 == |done|
    modifies g
    ensures g.Valid() && g.nodes == old(g.nodes)
    ensures g.edges == AddAll(es, Weighted(done + DownPairs(n, m, t), intra)) && calls == |done + DownPairs(n, m, t)|
  {
    ghost var rows := DownRows(n, m, t);
    calls := calls0;
    assert done + Join(rows[..0]) == done;
    for a := 0 to Pred(n)
      invariant g.Valid() && g.nodes == old(g.nodes)
      invariant g.edges == AddAll(es, Weighted(done + Join(rows[..a]), intra)) && calls == |done + Join(rows[..a])|
    {
      calls := AddDownRow(g, n, m, t, a, intra, calls, es, done + Join(rows[..a]));
      JoinSnocAfter(done, rows, a);
      assert rows[a] == DownRow(a, m, t);
    }
    assert rows[..Pred(n)] == rows;
  }

  method AddDownRow(g: Graph<Site>, n: nat, m: nat, t: nat, a: nat, intra: nat -> real, calls0: nat,
                    ghost es: seq<WEdge<Site>>, ghost done: seq<Pair>)
    returns (calls: nat)
    requires a < Pred(n) && g.Valid() && Sited(n, m, t, g.nodes)
    requires g.edges == AddAll(es, Weighted(done, intra)) && calls0 == |done|
    modifies g
    ensures g.Valid() && g.nodes == old(g.nodes)
    ensures g.edges == AddAll(es, Weighted(done + DownRow(a, m, t), intra)) && calls == |done + DownRow(a, m, t)|
  {
    ghost var rows := DownRowCells(a, m, t);
    calls := calls0;
    assert done + Join(rows[..0]) == done;
    for b := 0 to m
      invariant g.Valid() && g.nodes == old(g.nodes)
      invariant g.edges == AddAll(es, Weighted(done + Join(rows[..b]), intra)) && calls == |done + Join(rows[..b])|
    {
      calls := AddDownCell(g, n, m, t, a, b, intra, calls, es, done + Join(rows[..b]));
      JoinSnocAfter(done, rows, b);
      assert rows[b] == DownCell(a, b, t);
    }
    assert rows[..m] == rows;
  }

  /** The loop over t for one pair of vertically neighbouring cells (a, b) and (a + 1, b). */
  method AddDownCell(g: Graph<Site>, n: nat, m: nat, t: nat, a: nat, b: nat, intra: nat -> real, calls0: nat,
                     ghost es: seq<WEdge<Site>>, ghost done: seq<Pair>)
    returns (calls: nat)
    requires a < Pred(n) && b < m && g.Valid() && Sited(n, m, t, g.nodes)
    requires g.edges == AddAll(es, Weighted(done, intra)) && calls0 == |done|
    modifies g
    ensures g.Valid() && g.nodes == old(g.nodes)
    ensures g.edges == AddAll(es, Weighted(done + DownCell(a, b, t), intra)) && calls == |done + DownCell(a, b, t)|
  {
    ghost var row := DownCell(a, b, t);
    calls := calls0;
    var a' := a + 1;
    assert done + row[..0] == done;
    for c := 0 to t
      invariant g.Valid() && g.nodes == old(g.nodes)
      invariant g.edges == AddAll(es, Weighted(done + row[..c], intra)) && calls == |done + row[..c]|
    {
      var x, y := Site(a, b, c, 0), Site(a', b, c, 0);
      assert IsSite(n, m, t, x) && IsSite(n, m, t, y);
      AddStreamEdge(g, (x, y), intra, calls, es, done + row[..c]);
      assert row[c] == (x, y);
      PrefixSnoc(done, row, c);
      calls := calls + 1;
    }
    assert row[..t] == row;
  }

  // ---------------------------------------------------------------- the nodes

  lemma CellSitesFacts(a: nat, b: nat, t: nat)
    ensures |CellSites(a, b, t)| == Offset(t, 2) && Distinct(CellSites(a, b, t))
    ensures forall x: Site :: x in CellSites(a, b, t) <==> x.row == a && x.col == b && x.pos < t && x.side < 2
  {
    var rows := CellSiteRows(a, b, t);
    forall c, x: Site | 0 <= c < t && x in rows[c] ensures x.pos == c {
    }
    JoinLevel(rows, 2, (x: Site) => x.pos);
    forall x: Site | x.row == a && x.col == b && x.pos < t && x.side < 2 ensures x in rows[x.pos] {
      assert rows[x.pos][x.side] == x;
    }
  }

  lemma RowSitesFacts(a: nat, m: nat, t: nat)
    ensures |RowSites(a, m, t)| == Offset(m, Offset(t, 2)) && Distinct(RowSites(a, m, t))
    ensures forall x: Site :: x in RowSites(a, m, t) <==> x.row == a && x.col < m && x.pos < t && x.side < 2
  {
    var rows := RowSiteRows(a, m, t);
    forall b | 0 <= b < m
      ensures |rows[b]| == Offset(t, 2) && Distinct(rows[b])
      ensures forall x: Site :: x in rows[b] <==> x.row == a && x.col == b && x.pos < t && x.side < 2
    {
      CellSitesFacts(a, b, t);
    }
    JoinLevel(rows, Offset(t, 2), (x: Site) => x.col);
  }

  /** The nodes are exactly the n x m x t x 2 sites, each once. */
  lemma SitesFacts(n: nat, m: nat, t: nat)
    ensures |Sites(n, m, t)| == Offset(n, Offset(m, Offset(t, 2))) && Distinct(Sites(n, m, t))
    ensures forall x: Site :: x in Sites(n, m, t) <==> IsSite(n, m, t, x)
    ensures Sited(n, m, t, Sites(n, m, t))
  {
    var rows := SiteRows(n, m, t);
    forall a | 0 <= a < n
      ensures |rows[a]| == Offset(m, Offset(t, 2)) && Distinct(rows[a])
      ensures forall x: Site :: x in rows[a] <==> x.row == a && x.col < m && x.pos < t && x.side < 2
    {
      RowSitesFacts(a, m, t);
    }
    JoinLevel(rows, Offset(m, Offset(t, 2)), (x: Site) => x.row);
  }

  // ---------------------------------------------------------------- the edges inside cells

  /** An edge inside a cell: side 0 to side 1, same cell. */
  predicate IsCross(n: nat, m: nat, t: nat, p: Pair) {
    p.0.side == 0 && p.1.side == 1 && p.0.row == p.1.row < n && p.0.col == p.1.col < m && p.0.pos < t && p.1.pos < t
  }

  lemma CellCrossFacts(a: nat, b: nat, t: nat)
    ensures |CellCross(a, b, t)| == Offset(t, t) && Distinct(CellCross(a, b, t))
    ensures forall p: Pair :: p in CellCross(a, b, t) <==> IsCross(a + 1, b + 1, t, p) && p.0.row == a && p.0.col == b
  {
    var rows := CellCrossRows(a, b, t);
    forall l, p: Pair | 0 <= l < t && p in rows[l] ensures p.0.pos == l {
    }
    JoinLevel(rows, t, (p: Pair) => p.0.pos);
    forall p: Pair | IsCross(a + 1, b + 1, t, p) && p.0.row == a && p.0.col == b ensures p in rows[p.0.pos] {
      assert rows[p.0.pos][p.1.pos] == p;
    }
  }

  lemma RowCrossFacts(a: nat, m: nat, t: nat)
    ensures |RowCross(a, m, t)| == Offset(m, Offset(t, t)) && Distinct(RowCross(a, m, t))
    ensures forall p: Pair :: p in RowCross(a, m, t) <==> IsCross(a + 1, m, t, p) && p.0.row == a
  {
    var rows := RowCrossRows(a, m, t);
    forall b | 0 <= b < m
      ensures |rows[b]| == Offset(t, t) && Distinct(rows[b])
      ensures forall p: Pair :: p in rows[b] <==> IsCross(a + 1, b + 1, t, p) && p.0.row == a && p.0.col == b
    {
      CellCrossFacts(a, b, t);
    }
    JoinLevel(rows, Offset(t, t), (p: Pair) => p.0.col);
  }

  /** The edges inside cells are exactly every side-0 node to every side-1 node of its cell, each once. */
  lemma CrossFacts(n: nat, m: nat, t: nat)
    ensures |CrossPairs(n, m, t)| == Offset(n, Offset(m, Offset(t, t))) && Distinct(CrossPairs(n, m, t))
    ensures forall p: Pair :: p in CrossPairs(n, m, t) <==> IsCross(n, m, t, p)
  {
    var rows := CrossRows(n, m, t);
    forall a | 0 <= a < n
      ensures |rows[a]| == Offset(m, Offset(t, t)) && Distinct(rows[a])
      ensures forall p: Pair :: p in rows[a] <==> IsCross(a + 1, m, t, p) && p.0.row == a
    {
      RowCrossFacts(a, m, t);
    }
    JoinLevel(rows, Offset(m, Offset(t, t)), (p: Pair) => p.0.row);
  }

  // ---------------------------------------------------------------- the edges between cells

  /** A horizontal edge: side 1 to side 1, same position, the next cell of the row. */
  predicate IsRight(n: nat, m: nat, t: nat, p: Pair) {
    p.0.side == 1 && p.1.side == 1 && p.0.row == p.1.row < n && p.1.col == p.0.col + 1 < m && p.0.pos == p.1.pos < t
  }

  /** A vertical edge: side 0 to side 0, same position, the next cell of the column. */
  predicate IsDown(n: nat, m: nat, t: nat, p: Pair) {
    p.0.side == 0 && p.1.side == 0 && p.1.row == p.0.row + 1 < n && p.0.col == p.1.col < m && p.0.pos == p.1.pos < t
  }

  lemma RightRowFacts(a: nat, m: nat, t: nat)
    ensures |RightRow(a, m, t)| == Offset(Pred(m), t) && Distinct(RightRow(a, m, t))
    ensures forall p: Pair :: p in RightRow(a, m, t) <==> IsRight(a + 1, m, t, p) && p.0.row == a
  {
    var rows := RightRowCells(a, m, t);
    forall b, p: Pair | 0 <= b < Pred(m) && p in rows[b] ensures p.0.col == b {
    }
    JoinLevel(rows, t, (p: Pair) => p.0.col);
    forall p: Pair | IsRight(a + 1, m, t, p) && p.0.row == a ensures p in rows[p.0.col] {
      assert rows[p.0.col][p.0.pos] == p;
    }
  }

  /** The horizontal edges are exactly the side-1 nodes joined to the next cell of their row, each once. */
  lemma RightFacts(n: nat, m: nat, t: nat)
    ensures |RightPairs(n, m, t)| == Offset(n, Offset(Pred(m), t)) && Distinct(RightPairs(n, m, t))
    ensures forall p: Pair :: p in RightPairs(n, m, t) <==> IsRight(n, m, t, p)
  {
    var rows := RightRows(n, m, t);
    forall a | 0 <= a < n
      ensures |rows[a]| == Offset(Pred(m), t) && Distinct(rows[a])
      ensures forall p: Pair :: p in rows[a] <==> IsRight(a + 1, m, t, p) && p.0.row == a
    {
      RightRowFacts(a, m, t);
    }
    JoinLevel(rows, Offset(Pred(m), t), (p: Pair) => p.0.row);
  }

  lemma DownRowFacts(a: nat, m: nat, t: nat)
    ensures |DownRow(a, m, t)| == Offset(m, t) && Distinct(DownRow(a, m, t))
    ensures forall p: Pair :: p in DownRow(a, m, t) <==> IsDown(a + 2, m, t, p) && p.0.row == a
  {
    var rows := DownRowCells(a, m, t);
    forall b, p: Pair | 0 <= b < m && p in rows[b] ensures p.0.col == b {
    }
    JoinLevel(rows, t, (p: Pair) => p.0.col);
    forall p: Pair | IsDown(a + 2, m, t, p) && p.0.row == a ensures p in rows[p.0.col] {
      assert rows[p.0.col][p.0.pos] == p;
    }
  }

  /** The vertical edges are exactly the side-0 nodes joined to the next cell of their column, each once. */
  lemma DownFacts(n: nat, m: nat, t: nat)
    ensures |DownPairs(n, m, t)| == Offset(Pred(n), Offset(m, t)) && Distinct(DownPairs(n, m, t))
    ensures forall p: Pair :: p in DownPairs(n, m, t) <==> IsDown(n, m, t, p)
  {
    var rows := DownRows(n, m, t);
    forall a | 0 <= a < Pred(n)
      ensures |rows[a]| == Offset(m, t) && Distinct(rows[a])
      ensures forall p: Pair :: p in rows[a] <==> IsDown(a + 2, m, t, p) && p.0.row == a
    {
      DownRowFacts(a, m, t);
    }
    JoinLevel(rows, Offset(m, t), (p: Pair) => p.0.row);
  }

  // ---------------------------------------------------------------- the whole edge list

  /** No unordered pair is added twice, so add_edge only ever appends. */
  lemma ChimeraSimple(n: nat, m: nat, t: nat, inter: nat -> real, intra: nat -> real)
    ensures Simple(ChimeraEdges(n, m, t, inter, intra))
  {
    var cross, right, down := CrossPairs(n, m, t), RightPairs(n, m, t), DownPairs(n, m, t);
    CrossFacts(n, m, t);
    RightFacts(n, m, t);
    DownFacts(n, m, t);
    WeightedSimple(cross, inter);
    forall i, j | 0 <= i < |right| && 0 <= j < |down| ensures right[i] != down[j] {
      assert right[i] in right && down[j] in down;
    }
    DistinctConcat(right, down);
    forall p: Pair, q: Pair | p in right + down && q in right + down ensures q != (p.1, p.0) {
    }
    WeightedSimple(right + down, intra);
    var a, b := Weighted(cross, inter), Weighted(right + down, intra);
    forall x: WEdge<Site>, y: WEdge<Site> | x in a && y in b ensures !Joins(y, x.u, x.v) {
      WeightedMember(cross, inter, x);
      WeightedMember(right + down, intra, y);
    }
    SimpleConcat(a, b);
  }

  /** The number of nodes and edges in closed form. */
  lemma ChimeraCounts(n: nat, m: nat, t: nat)
    ensures |Sites(n, m, t)| == n * m * t * 2
    ensures |CrossPairs(n, m, t)| == n * m * t * t
    ensures |RightPairs(n, m, t)| == n * Pred(m) * t
    ensures |DownPairs(n, m, t)| == Pred(n) * m * t
  {
    SitesFacts(n, m, t);
    CrossFacts(n, m, t);
    RightFacts(n, m, t);
    DownFacts(n, m, t);
    Grid3(n, m, t, 2);
    Grid3(n, m, t, t);
    Grid2(n, Pred(m), t);
    Grid2(Pred(n), m, t);
  }

  lemma Grid3(a: nat, b: nat, c: nat, d: nat)
    ensures Offset(a, Offset(b, Offset(c, d))) == a * b * c * d
  {
    OffsetIsProduct(c, d);
    Grid2(a, b, Offset(c, d));
    MulAssoc(a * b, c, d);
  }

  lemma MulAssoc(x: int, y: int, z: int)
    ensures x * (y * z) == x * y * z
  {
  }

  lemma Grid2(a: nat, b: nat, c: nat)
    ensures Offset(a, Offset(b, c)) == a * b * c
  {
    OffsetIsProduct(b, c);
    OffsetIsProduct(a, b * c);
    assert a * (b * c) == a * b * c;
  }

  /** With four nodes per side the graph has 24 n m - 4 (n + m) edges once it has a cell. */
  lemma FourPerSide(n: nat, m: nat)
    requires 1 <= n && 1 <= m
    ensures n * m * 4 * 4 + n * Pred(m) * 4 + Pred(n) * m * 4 == 24 * n * m - 4 * (n + m)
  {
    assert n * Pred(m) == n * m - n;
    assert Pred(n) * m == n * m - m;
  }

  // ---------------------------------------------------------------- selby_c

  /**
   * inter_w of selby_c: randint(-10, 10 + 1) / 10, where numpy's upper bound is
   * exclusive. Its k-th call is the k-th draw after np.random.seed(seed).
   */
  function SelbyInter(stream: nat -> Rand.Raw): nat -> real {
    (k: nat) => Tenth(Rand.RandIntOf(-10, 10, stream(k)))
  }

  /**
   * intra_w of selby_c: randint(-5, 5 + 1) / 10. All inter_w calls come first, so its
   * k-th call is draw skip + k of the same stream, skip being the number of inter_w calls.
   */
  function SelbyIntra(stream: nat -> Rand.Raw, skip: nat): nat -> real {
    (k: nat) => Tenth(Rand.RandIntOf(-5, 5, stream(skip + k)))
  }

  /** The edges of selby_c(m, seed), in insertion order, for the draws of stream. */
  function SelbyEdges(m: nat, stream: nat -> Rand.Raw): seq<WEdge<Site>> {
    ChimeraEdges(m, m, 4, SelbyInter(stream), SelbyIntra(stream, 16 * m * m))
  }

  /**
   * selby_c(m, seed): chimera_graph(m, m, 4) with the weights drawn from one stream
   * seeded by seed, and the two assertions of the source on its size.
   */
  method SelbyC(m: nat, seed: int) returns (g: Graph<Site>)
    ensures fresh(g) && g.Valid()
    ensures g.nodes == Sites(m, m, 4) && g.edges == SelbyEdges(m, Rand.SeedStream(seed))
    ensures g.NumberOfNodes() == m * m * 8
    ensures g.NumberOfEdges() == 24 * m * m - 8 * m
  {
    var stream := Rand.SeedStream(seed);
    var interCalls, intraCalls;
    g, interCalls, intraCalls := ChimeraGraph(m, m, 4, SelbyInter(stream), SelbyIntra(stream, 16 * m * m));
    SelbyCounts(m);
  }

  /** The two size assertions of selby_c hold for every m, the empty m = 0 included. */
  lemma SelbyCounts(m: nat)
    ensures m * m * 4 * 2 == m * m * 8
    ensures m * m * 4 * 4 + m * Pred(m) * 4 + Pred(m) * m * 4 == 24 * m * m - 8 * m
  {
    if 1 <= m {
      FourPerSide(m, m);
    }
  }

  /** The weight of the i-th edge: call i of inter inside the cells, call i - |cross| of intra between them. */
  lemma ChimeraWeights(n: nat, m: nat, t: nat, inter: nat -> real, intra: nat -> real)
    ensures var es, c := ChimeraEdges(n, m, t, inter, intra), |CrossPairs(n, m, t)|;
      c <= |es| &&
      (forall i :: 0 <= i < c ==> es[i].w == Some(inter(i))) &&
      (forall i :: c <= i < |es| ==> es[i].w == Some(intra(i - c)))
  {
  }

  /** v / 10, the value of randint(...) / 10.0. */
  function Tenth(v: int): real {
    v as real / 10.0
  }

  /** w is a multiple of 0.1 between -k / 10 and k / 10. */
  ghost predicate InTenths(w: real, k: nat) {
    exists v: int :: -(k as int) <= v <= k && w == Tenth(v)
  }

  /**
   * Whatever the seed, every edge of selby_c has a weight: the 16 m^2 edges inside the
   * cells a multiple of 0.1 in [-1, 1], the edges between cells a multiple of 0.1 in [-0.5, 0.5].
   */
  lemma SelbyWeights(m: nat, stream: nat -> Rand.Raw)
    ensures |SelbyEdges(m, stream)| == 24 * m * m - 8 * m
    ensures forall i :: 0 <= i < |SelbyEdges(m, stream)| ==>
      SelbyEdges(m, stream)[i].w.Some? && InTenths(SelbyEdges(m, stream)[i].w.value, if i < 16 * m * m then 10 else 5)
  {
    ChimeraCounts(m, m, 4);
    SelbyCounts(m);
    forall i | 0 <= i < |SelbyEdges(m, stream)|
      ensures SelbyEdges(m, stream)[i].w.Some? && InTenths(SelbyEdges(m, stream)[i].w.value, if i < 16 * m * m then 10 else 5)
    {
      SelbyWeightAt(m, stream, i);
    }
  }

  /** The weight of one edge of selby_c. */
  lemma SelbyWeightAt(m: nat, stream: nat -> Rand.Raw, i: nat)
    requires i < |SelbyEdges(m, stream)|
    ensures SelbyEdges(m, stream)[i].w.Some? && InTenths(SelbyEdges(m, stream)[i].w.value, if i < 16 * m * m then 10 else 5)
  {
    var c := 16 * m * m;
    var inter, intra := SelbyInter(stream), SelbyIntra(stream, c);
    var es := SelbyEdges(m, stream);
    ChimeraWeights(m, m, 4, inter, intra);
    SelbyCross(m);
    if i < c {
      assert es[i].w == Some(inter(i));
      InterTenths(stream, i);
    } else {
      var j: nat := i - c;
      assert es[i].w == Some(intra(j));
      IntraTenths(stream, c, j);
    }
  }

  /** Any call of inter_w gives a multiple of 0.1 in [-1, 1]. */
  lemma InterTenths(stream: nat -> Rand.Raw, i: nat)
    ensures InTenths(SelbyInter(stream)(i), 10)
  {
    var v := Rand.RandIntOf(-10, 10, stream(i));
    assert SelbyInter(stream)(i) == Tenth(v);
  }

  /** Any call of intra_w gives a multiple of 0.1 in [-0.5, 0.5]. */
  lemma IntraTenths(stream: nat -> Rand.Raw, skip: nat, j: nat)
    ensures InTenths(SelbyIntra(stream, skip)(j), 5)
  {
    var v := Rand.RandIntOf(-5, 5, stream(skip + j));
    assert SelbyIntra(stream, skip)(j) == Tenth(v);
  }

  /** selby_c calls inter_w 16 m^2 times. */
  lemma SelbyCross(m: nat)
    ensures |CrossPairs(m, m, 4)| == 16 * m * m
  {
    ChimeraCounts(m, m, 4);
  }
}
