/**
 * What the graph-colouring formulations of geco/mips/graph_coloring/generic.py
 * share: the position of a (vertex, colour) pair in
 * itertools.product(graph.nodes, colors), the rows and columns of such a
 * grid of variables, how many entries of a 0/1 assignment a sum of unit
 * terms picks, and colourings of a graph.
 */
module Coloring {
  import opened Common
  import opened Mip
  import opened Graphs
  import Naming

  /** The position of (v, c) in itertools.product(range(n), range(h)). */
  function Cell(v: nat, c: nat, h: nat): nat {
    v * h + c
  }

  lemma MulStep(a: nat, h: nat)
    ensures (a + 1) * h == a * h + h
  {
  }

  lemma {:induction false} MulMono(a: nat, b: nat, h: nat)
    requires a <= b
    ensures a * h <= b * h
    decreases b - a
  {
    if a < b {
      MulMono(a, b - 1, h);
      MulStep(b - 1, h);
    }
  }

  lemma CellBelow(n: nat, h: nat, v: nat, c: nat)
    requires v < n && c < h
    ensures Cell(v, c, h) < n * h
  {
    MulStep(v, h);
    MulMono(v + 1, n, h);
  }

  /** Position k of the product is the pair (k / h, k % h). */
  lemma CellSplit(k: nat, h: nat)
    requires h > 0
    ensures k % h < h && Cell(k / h, k % h, h) == k
  {
  }

  lemma CellInjective(h: nat, v: nat, c: nat, u: nat, d: nat)
    requires c < h && d < h && Cell(v, c, h) == Cell(u, d, h)
    ensures v == u && c == d
  {
    if v < u {
      CellBelow(u, h, v, c);
    } else if u < v {
      CellBelow(v, h, u, d);
    }
  }

  /** The handles of (v, 0), ..., (v, h - 1): one vertex over all colours. */
  function Row(v: nat, h: nat): (r: seq<Handle>)
    ensures |r| == h && forall c :: 0 <= c < h ==> r[c] == Cell(v, c, h)
  {
    seq(h, c requires 0 <= c < h => Cell(v, c, h))
  }

  /** The handles of (0, c), ..., (n - 1, c): one colour over all vertices. */
  function Column(n: nat, c: nat, h: nat): (r: seq<Handle>)
    ensures |r| == n && forall v :: 0 <= v < n ==> r[v] == Cell(v, c, h)
  {
    seq(n, v requires 0 <= v < n => Cell(v, c, h))
  }

  /** The name f"{p}_{a}_{b}". */
  function PairName(p: string, a: int, b: int): (s: string)
    ensures |s| > |p|
  {
    p + "_" + Naming.IntToString(a) + "_" + Naming.IntToString(b)
  }

  // ---------------------------------------------------------------- counting ones

  /** Every handle of hs has a 0/1 value in x. */
  predicate ZeroOneOn(hs: seq<Handle>, x: seq<int>) {
    forall i :: 0 <= i < |hs| ==> hs[i] < |x| && (x[hs[i]] == 0 || x[hs[i]] == 1)
  }

  /** Exactly entry i of hs is one. */
  predicate OnlyAt(hs: seq<Handle>, x: seq<int>, i: nat) {
    ZeroOneOn(hs, x) && i < |hs| && x[hs[i]] == 1 && forall j :: 0 <= j < |hs| && j != i ==> x[hs[j]] == 0
  }

  lemma ZeroOneInit(hs: seq<Handle>, x: seq<int>)
    requires ZeroOneOn(hs, x) && hs != []
    ensures ZeroOneOn(hs[..|hs| - 1], x)
  {
    var init := hs[..|hs| - 1];
    forall i | 0 <= i < |init| ensures init[i] < |x| && (x[init[i]] == 0 || x[init[i]] == 1) {
      assert init[i] == hs[i];
    }
  }

  /** A sum of unit terms over 0/1 entries is zero exactly when every entry is zero. */
  lemma {:induction false} PicksZero(hs: seq<Handle>, x: seq<int>)
    requires ZeroOneOn(hs, x)
    ensures Picks(hs, x) == 0 <==> forall i :: 0 <= i < |hs| ==> x[hs[i]] == 0
  {
    if hs != [] {
      var init := hs[..|hs| - 1];
      ZeroOneInit(hs, x);
      PicksZero(init, x);
      assert forall i :: 0 <= i < |init| ==> init[i] == hs[i];
    }
  }

  /** A sum of unit terms over 0/1 entries is one exactly when exactly one entry is one. */
  lemma {:induction false} PicksOne(hs: seq<Handle>, x: seq<int>)
    requires ZeroOneOn(hs, x)
    ensures Picks(hs, x) == 1 <==> exists i :: OnlyAt(hs, x, i)
  {
    if hs != [] {
      var init := hs[..|hs| - 1];
      var last := |hs| - 1;
      ZeroOneInit(hs, x);
      PicksZero(init, x);
      PicksOne(init, x);
      assert forall i :: 0 <= i < |init| ==> init[i] == hs[i];
      if Picks(hs, x) == 1 {
        if x[hs[last]] == 1 {
          assert OnlyAt(hs, x, last);
        } else {
          var i :| OnlyAt(init, x, i);
          assert OnlyAt(hs, x, i);
        }
      }
      if exists i :: OnlyAt(hs, x, i) {
        var i :| OnlyAt(hs, x, i);
        if i == last {
          assert Picks(init, x) == 0;
        } else {
          assert OnlyAt(init, x, i);
        }
      }
    }
  }

  // ---------------------------------------------------------------- binary variables

  /** Entry i of x, zero past its end. */
  function At(x: seq<int>, i: nat): int {
    if i < |x| then x[i] else 0
  }

  /** Nothing deleted, and variable i is binary with objective coefficient objs[i]. */
  ghost predicate BinaryObjs(model: Model, objs: seq<real>) {
    model.removed == {} && |model.vars| == |objs| &&
    forall i :: 0 <= i < |objs| ==> model.vars[i] == BinaryVar(model.vars[i].name, objs[i])
  }

  /** Binary variables accept exactly the 0/1 values. */
  lemma BinaryObjsBounds(model: Model, objs: seq<real>, x: seq<int>)
    requires BinaryObjs(model, objs) && |x| == |objs|
    ensures (forall i :: 0 <= i < |x| && i !in model.removed ==> InBounds(model.vars[i], x[i])) <==> Binary01(x)
  {
    forall i | 0 <= i < |x| ensures InBounds(model.vars[i], x[i]) <==> (x[i] == 0 || x[i] == 1) {
      BinaryBounds(model.vars[i].name, objs[i], x[i]);
    }
  }

  /** Σ_{j >= i} objs[j] * x[j]. */
  function WeightedFrom(objs: seq<real>, x: seq<int>, i: nat): real
    decreases |x| - i
  {
    if i >= |x| || i >= |objs| then 0.0 else objs[i] * (x[i] as real) + WeightedFrom(objs, x, i + 1)
  }

  lemma {:induction false} BinaryObjsObjective(model: Model, objs: seq<real>, x: seq<int>, i: nat)
    requires BinaryObjs(model, objs) && |x| == |objs|
    ensures ObjectiveFrom(model, x, i) == WeightedFrom(objs, x, i)
    decreases |x| - i
  {
    if i < |x| {
      BinaryObjsObjective(model, objs, x, i + 1);
      assert model.vars[i].obj == objs[i];
    }
  }

  /** Feasibility of a model of binary variables: the right length, 0/1 values, every constraint met. */
  lemma BinaryObjsFeasible(model: Model, objs: seq<real>, x: seq<int>)
    requires BinaryObjs(model, objs)
    ensures Feasible(model, x) <==> |x| == |objs| && Binary01(x) && SatisfiesAll(model.conss, x)
  {
    if |x| == |objs| {
      BinaryObjsBounds(model, objs, x);
    }
  }

  // ---------------------------------------------------------------- colourings

  /** col gives each of the g.n nodes a colour, the two ends of every edge different ones. */
  predicate Proper(g: Graph, col: seq<nat>) {
    |col| == g.n &&
    forall k :: 0 <= k < |g.edges| ==>
      g.edges[k].0 < g.n && g.edges[k].1 < g.n && col[g.edges[k].0] != col[g.edges[k].1]
  }

  /** Every colour of col is one of 0, ..., h - 1. */
  predicate Within(col: seq<nat>, h: nat) {
    forall v :: 0 <= v < |col| ==> col[v] < h
  }

  /** k is the chromatic number of g: some proper colouring uses k colours and none uses fewer. */
  ghost predicate Chromatic(g: Graph, k: nat) {
    (exists col: seq<nat> :: Proper(g, col) && |ToSet(col)| == k) &&
    forall col: seq<nat> :: Proper(g, col) ==> k <= |ToSet(col)|
  }

  /** Two nodes of one colour are not joined by an edge. */
  lemma SameColourNotAdjacent(g: Graph, col: seq<nat>, u: nat, v: nat)
    requires Proper(g, col) && u < g.n && v < g.n && col[u] == col[v]
    ensures !HasEdge(g, u, v)
  {
    forall k | 0 <= k < |g.edges| ensures g.edges[k] != (u, v) && g.edges[k] != (v, u) {
      assert col[g.edges[k].0] != col[g.edges[k].1];
    }
  }

  /** An odd cycle needs a third colour: some three of its vertices have pairwise different colours. */
  lemma Cycle5ThreeColours(col: seq<nat>)
    requires Proper(Cycle5(), col)
    ensures exists a, b, c :: 0 <= a < 5 && 0 <= b < 5 && 0 <= c < 5 &&
                              col[a] != col[b] && col[a] != col[c] && col[b] != col[c]
  {
    var es := Cycle5().edges;
    assert es[0] == (0, 1) && es[1] == (0, 4) && es[2] == (1, 2) && es[3] == (2, 3) && es[4] == (3, 4);
    assert col[0] != col[1] && col[1] != col[2] && col[2] != col[3] && col[3] != col[4] && col[0] != col[4];
    if col[2] != col[0] {
      assert col[0] != col[1] && col[0] != col[2] && col[1] != col[2];
    } else if col[3] != col[1] {
      assert col[0] != col[1] && col[0] != col[3] && col[1] != col[3];
    } else {
      assert col[0] != col[1] && col[0] != col[4] && col[1] != col[4];
    }
  }

  /** The 5-cycle needs exactly three colours. */
  lemma Cycle5Chromatic()
    ensures Chromatic(Cycle5(), 3)
  {
    var col: seq<nat> := [0, 1, 0, 1, 2];
    var es := Cycle5().edges;
    assert es[0] == (0, 1) && es[1] == (0, 4) && es[2] == (1, 2) && es[3] == (2, 3) && es[4] == (3, 4);
    assert Proper(Cycle5(), col);
    assert ToSet(col) == {0, 1, 2};
    forall c: seq<nat> | Proper(Cycle5(), c) ensures 3 <= |ToSet(c)| {
      Cycle5ThreeColours(c);
      var a, b, d :| 0 <= a < 5 && 0 <= b < 5 && 0 <= d < 5 && c[a] != c[b] && c[a] != c[d] && c[b] != c[d];
      ThreeCard(c[a], c[b], c[d], ToSet(c));
    }
  }

  /** The path 0 - 1 - 2 needs exactly two colours. */
  lemma Path3Chromatic()
    ensures Chromatic(Path3(), 2)
  {
    var col: seq<nat> := [0, 1, 0];
    var es := Path3().edges;
    assert es[0] == (0, 1) && es[1] == (1, 2);
    assert Proper(Path3(), col);
    assert ToSet(col) == {0, 1};
    forall c: seq<nat> | Proper(Path3(), c) ensures 2 <= |ToSet(c)| {
      assert Path3().edges[0] == (0, 1);
      SubsetCard({c[0], c[1]}, ToSet(c));
    }
  }

  /** A single edge needs exactly two colours. */
  lemma Edge2Chromatic()
    ensures Chromatic(Edge2(), 2)
  {
    var col: seq<nat> := [0, 1];
    assert Proper(Edge2(), col);
    assert ToSet(col) == {0, 1};
    forall c: seq<nat> | Proper(Edge2(), c) ensures 2 <= |ToSet(c)| {
      assert Edge2().edges[0] == (0, 1);
      SubsetCard({c[0], c[1]}, ToSet(c));
    }
  }

  // ---------------------------------------------------------------- renumbering colours

  /** One more than the number of colours of s below a: a's place in 1, ..., |s|. */
  ghost function Rank(s: set<nat>, a: nat): nat {
    |Below(s, a)| + 1
  }

  /** The colours of s smaller than a. */
  ghost function Below(s: set<nat>, a: nat): set<nat> {
    set b | b in s && b < a
  }

  lemma StrictSubsetCard<T>(a: set<T>, b: set<T>, x: T)
    requires a <= b && x in b && x !in a
    ensures |a| < |b|
  {
    assert b == a + (b - a);
    assert x in b - a;
  }

  lemma RankBounds(s: set<nat>, a: nat)
    requires a in s
    ensures 1 <= Rank(s, a) <= |s|
  {
    StrictSubsetCard(Below(s, a), s, a);
  }

  /** Ranks keep the order of the colours, so different colours get different ranks. */
  lemma RankMono(s: set<nat>, a: nat, c: nat)
    requires a in s && c in s && a < c
    ensures Rank(s, a) < Rank(s, c)
  {
    StrictSubsetCard(Below(s, a), Below(s, c), a);
  }

  /** The ranks of s with the ranks of top and of the largest colour swapped: top becomes |s|. */
  ghost function Renumber(s: set<nat>, top: nat, a: nat): nat {
    var r := Rank(s, a);
    var t := Rank(s, top);
    if r == t then |s| else if r == |s| then t else r
  }

  lemma RenumberInjective(s: set<nat>, top: nat, a: nat, c: nat)
    requires top in s && a in s && c in s && a != c
    ensures Renumber(s, top, a) != Renumber(s, top, c)
    ensures 1 <= Renumber(s, top, a) <= |s|
  {
    RankBounds(s, a);
    RankBounds(s, c);
    RankBounds(s, top);
    if a < c {
      RankMono(s, a, c);
    } else {
      RankMono(s, c, a);
    }
  }

  /**
   * Any proper colouring can be renumbered into one with colours 1, ..., k,
   * k its number of colours, in which vertex 0 takes the largest colour k.
   */
  lemma Compact(g: Graph, col: seq<nat>) returns (c2: seq<nat>)
    requires Proper(g, col) && |col| > 0
    ensures Proper(g, c2) && c2[0] == |ToSet(col)|
    ensures forall v :: 0 <= v < |c2| ==> 1 <= c2[v] <= |ToSet(col)|
  {
    var s := ToSet(col);
    c2 := seq(|col|, v requires 0 <= v < |col| => Renumber(s, col[0], col[v]));
    assert col[0] in s;
    forall v | 0 <= v < |c2| ensures 1 <= c2[v] <= |s| {
      assert col[v] in s;
      RankBounds(s, col[v]);
      RankBounds(s, col[0]);
    }
    forall k | 0 <= k < |g.edges| ensures c2[g.edges[k].0] != c2[g.edges[k].1] {
      var u, w := g.edges[k].0, g.edges[k].1;
      assert col[u] in s && col[w] in s && col[u] != col[w];
      RenumberInjective(s, col[0], col[u], col[w]);
    }
  }

  /** Colours drawn from 1, ..., m are at most m. */
  lemma {:induction false} BoundedCard(s: set<nat>, m: nat)
    requires forall c :: c in s ==> 1 <= c <= m
    ensures |s| <= m
  {
    if m > 0 {
      BoundedCard(s - {m}, m - 1);
    } else {
      assert s == {};
    }
  }
}
