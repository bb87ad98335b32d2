/**
 * What the partial ordering models of generic.py mean.
 *
 * A feasible point of POP writes a colour L(v) for each vertex as a
 * staircase: y[c, v] is one exactly for c < L(v) and z[v, c] is one exactly
 * for 1 <= c with L(v) < c. Constraint (16) rules colour 0 out, (17) colour
 * h - 1 + 1, so every vertex takes a colour in 1, ..., h - 1, and (21) makes
 * vertex 0 the one with the largest colour, which is what the objective
 * Σ_c y[c, 0] counts. (20) keeps the two ends of an edge apart on every
 * colour it is written for; partial_ordering writes it for colors[:-1]
 * only, so both ends of an edge may share the top colour h - 1.
 */
module ColoringPartialOrderingOptimum {
  import opened Common
  import opened Mip
  import opened Graphs
  import opened Coloring
  import opened ColoringPartialOrdering
  import ColoringAssignment

  /** The value of y[c, v]. */
  function Y(x: seq<int>, b: nat, h: nat, c: nat, v: nat): int {
    At(x, YH(b, h, c, v))
  }

  /** The value of z[v, c]. */
  function Z(x: seq<int>, b: nat, n: nat, h: nat, v: nat, c: nat): int {
    At(x, ZH(b, n, h, v, c))
  }

  /** The value of x[v, c] of POP2. */
  function X(x: seq<int>, h: nat, v: nat, c: nat): int {
    At(x, Cell(v, c, h))
  }

  // ---------------------------------------------------------------- what the constraints say

  /** (16) and (17) for vertex v. */
  predicate EndsAt(x: seq<int>, b: nat, n: nat, h: nat, v: nat) {
    Z(x, b, n, h, v, 1) == 0 && Y(x, b, h, Top(h), v) == 0
  }

  ghost predicate EndsHold(x: seq<int>, b: nat, n: nat, h: nat) {
    forall v :: 0 <= v < n ==> EndsAt(x, b, n, h, v)
  }

  /** (18), (19) and (21) for vertex v and colour c. */
  predicate StepAt(x: seq<int>, b: nat, n: nat, h: nat, v: nat, c: nat) {
    Y(x, b, h, c, v) >= Y(x, b, h, c + 1, v) &&
    Y(x, b, h, c, v) + Z(x, b, n, h, v, c + 1) == 1 &&
    Y(x, b, h, c, 0) >= Y(x, b, h, c, v)
  }

  ghost predicate StepRowHolds(x: seq<int>, b: nat, n: nat, h: nat, v: nat) {
    forall c :: 0 <= c < Top(h) ==> StepAt(x, b, n, h, v, c)
  }

  ghost predicate StepsHold(x: seq<int>, b: nat, n: nat, h: nat) {
    forall v :: 0 <= v < n ==> StepRowHolds(x, b, n, h, v)
  }

  /** (20) for edge e and colour c. */
  predicate OrderAt(x: seq<int>, n: nat, h: nat, e: Edge, c: nat) {
    Y(x, 0, h, c, e.0) + Z(x, 0, n, h, e.0, c) + Y(x, 0, h, c, e.1) + Z(x, 0, n, h, e.1, c) >= 1
  }

  ghost predicate OrdersHold(x: seq<int>, g: Graph, h: nat, m: nat) {
    forall k, c :: 0 <= k < |g.edges| && 0 <= c < m ==> OrderAt(x, g.n, h, g.edges[k], c)
  }

  /** (14) for vertex v and colour c. */
  predicate LinkAt(x: seq<int>, n: nat, h: nat, v: nat, c: nat) {
    X(x, h, v, c) + Y(x, n * h, h, c, v) + Z(x, n * h, n, h, v, c) == 1
  }

  ghost predicate LinksHold(x: seq<int>, n: nat, h: nat) {
    forall v, c :: 0 <= v < n && 0 <= c < h ==> LinkAt(x, n, h, v, c)
  }

  /** (23) for edge e and colour c. */
  predicate ClashAt(x: seq<int>, h: nat, e: Edge, c: nat) {
    X(x, h, e.0, c) + X(x, h, e.1, c) <= 1
  }

  ghost predicate ClashesHold(x: seq<int>, g: Graph, h: nat) {
    forall k, c :: 0 <= k < |g.edges| && 0 <= c < h ==> ClashAt(x, h, g.edges[k], c)
  }

  lemma EndsBlockMeaning(b: nat, n: nat, h: nat, v: nat, x: seq<int>)
    requires h >= 2 && v < n && |x| == b + 2 * (n * h)
    ensures SatisfiesAll(EndsBlock(b, n, h, v), x) <==> EndsAt(x, b, n, h, v)
  {
    YBelow(b, n, h, 1, v);
    YBelow(b, n, h, Top(h), v);
    EvalSingle(ZH(b, n, h, v, 1), 1.0, x);
    EvalSingle(YH(b, h, Top(h), v), 1.0, x);
    var bl := EndsBlock(b, n, h, v);
    assert bl[0] == Fix(ZH(b, n, h, v, 1), 0.0) && bl[1] == Fix(YH(b, h, Top(h), v), 0.0);
  }

  lemma EndsMeaning(b: nat, n: nat, h: nat, x: seq<int>)
    requires h >= 2 && |x| == b + 2 * (n * h)
    ensures SatisfiesAll(Flatten(EndsBlocks(b, n, h)), x) <==> EndsHold(x, b, n, h)
  {
    var bs := EndsBlocks(b, n, h);
    SatisfiesFlatten(bs, x);
    forall v | 0 <= v < n ensures SatisfiesAll(bs[v], x) <==> EndsAt(x, b, n, h, v) {
      EndsBlockMeaning(b, n, h, v, x);
    }
  }

  lemma StepBlockMeaning(b: nat, n: nat, h: nat, v: nat, c: nat, x: seq<int>)
    requires v < n && c + 1 < h && |x| == b + 2 * (n * h)
    ensures SatisfiesAll(StepBlock(b, n, h, v, c), x) <==> StepAt(x, b, n, h, v, c)
  {
    YBelow(b, n, h, c, v);
    YBelow(b, n, h, c + 1, v);
    YBelow(b, n, h, c, 0);
    EvalPair(YH(b, h, c, v), YH(b, h, c + 1, v), 1.0, -1.0, x);
    EvalPair(YH(b, h, c, v), ZH(b, n, h, v, c + 1), 1.0, 1.0, x);
    EvalPair(YH(b, h, c, 0), YH(b, h, c, v), 1.0, -1.0, x);
    var bl := StepBlock(b, n, h, v, c);
    assert Satisfies(bl[0], x) <==> Y(x, b, h, c, v) >= Y(x, b, h, c + 1, v);
    assert Satisfies(bl[1], x) <==> Y(x, b, h, c, v) + Z(x, b, n, h, v, c + 1) == 1;
    assert Satisfies(bl[2], x) <==> Y(x, b, h, c, 0) >= Y(x, b, h, c, v);
  }

  lemma StepRowMeaning(b: nat, n: nat, h: nat, v: nat, x: seq<int>)
    requires v < n && |x| == b + 2 * (n * h)
    ensures SatisfiesAll(StepRow(b, n, h, v), x) <==> StepRowHolds(x, b, n, h, v)
  {
    var bs := seq(Top(h), c requires 0 <= c < Top(h) => StepBlock(b, n, h, v, c));
    SatisfiesFlatten(bs, x);
    forall c | 0 <= c < Top(h) ensures SatisfiesAll(bs[c], x) <==> StepAt(x, b, n, h, v, c) {
      StepBlockMeaning(b, n, h, v, c, x);
    }
  }

  lemma StepsMeaning(b: nat, n: nat, h: nat, x: seq<int>)
    requires |x| == b + 2 * (n * h)
    ensures SatisfiesAll(Flatten(StepRows(b, n, h)), x) <==> StepsHold(x, b, n, h)
  {
    var bs := StepRows(b, n, h);
    SatisfiesFlatten(bs, x);
    forall v | 0 <= v < n ensures SatisfiesAll(bs[v], x) <==> StepRowHolds(x, b, n, h, v) {
      StepRowMeaning(b, n, h, v, x);
    }
  }

  /** The base constraints say (16), (17), (18), (19) and (21). */
  lemma BaseMeaning(b: nat, n: nat, h: nat, x: seq<int>)
    requires h >= 2 && |x| == b + 2 * (n * h)
    ensures SatisfiesAll(BaseConss(b, n, h), x) <==> EndsHold(x, b, n, h) && StepsHold(x, b, n, h)
  {
    SatisfiesAllAppend(Flatten(EndsBlocks(b, n, h)), Flatten(StepRows(b, n, h)), x);
    EndsMeaning(b, n, h, x);
    StepsMeaning(b, n, h, x);
  }

  lemma OrderBlockMeaning(g: Graph, h: nat, m: nat, k: nat, x: seq<int>)
    requires IsGraph(g) && m <= h && k < |g.edges| && |x| == 2 * (g.n * h)
    ensures SatisfiesAll(OrderBlock(g.n, h, g.edges[k], m), x) <==> forall c :: 0 <= c < m ==> OrderAt(x, g.n, h, g.edges[k], c)
  {
    var e := g.edges[k];
    forall c | 0 <= c < m ensures Satisfies(OrderCons(g.n, h, e, c), x) <==> OrderAt(x, g.n, h, e, c) {
      YBelow(0, g.n, h, c, e.0);
      YBelow(0, g.n, h, c, e.1);
      EvalQuad(YH(0, h, c, e.0), ZH(0, g.n, h, e.0, c), YH(0, h, c, e.1), ZH(0, g.n, h, e.1, c), x);
    }
  }

  /** The constraints of a partial ordering model with (20) over the first m colours. */
  lemma OrderConssMeaning(g: Graph, h: nat, m: nat, x: seq<int>)
    requires IsGraph(g) && h >= 2 && m <= h && |x| == 2 * (g.n * h)
    ensures SatisfiesAll(OrderConss(g, h, m), x) <==>
              EndsHold(x, 0, g.n, h) && StepsHold(x, 0, g.n, h) && OrdersHold(x, g, h, m)
  {
    var bs := OrderBlocks(g.n, h, g.edges, m);
    SatisfiesAllAppend(BaseConss(0, g.n, h), Flatten(bs), x);
    BaseMeaning(0, g.n, h, x);
    SatisfiesFlatten(bs, x);
    forall k | 0 <= k < |bs| ensures SatisfiesAll(bs[k], x) <==> forall c :: 0 <= c < m ==> OrderAt(x, g.n, h, g.edges[k], c) {
      OrderBlockMeaning(g, h, m, k, x);
    }
  }

  lemma LinkConsMeaning(n: nat, h: nat, v: nat, c: nat, x: seq<int>)
    requires v < n && c < h && |x| == 3 * (n * h)
    ensures Satisfies(LinkCons(n, h, v, c), x) <==> LinkAt(x, n, h, v, c)
  {
    YBelow(n * h, n, h, c, v);
    CellBelow(n, h, v, c);
    EvalTriple(Cell(v, c, h), YH(n * h, h, c, v), ZH(n * h, n, h, v, c), 1.0, 1.0, 1.0, x);
  }

  /** Constraint v * h + c of the link block is (14) for v and c. */
  lemma LinkCellMeaning(n: nat, h: nat, v: nat, c: nat, x: seq<int>)
    requires v < n && c < h && |x| == 3 * (n * h)
    ensures Cell(v, c, h) < |LinkConss(n, h)| && (Satisfies(LinkConss(n, h)[Cell(v, c, h)], x) <==> LinkAt(x, n, h, v, c))
  {
    var k := Cell(v, c, h);
    CellBelow(n, h, v, c);
    CellSplit(k, h);
    Coloring.CellInjective(h, v, c, k / h, k % h);
    LinkConsMeaning(n, h, v, c, x);
  }

  lemma LinksMeaning(n: nat, h: nat, x: seq<int>)
    requires h >= 2 && |x| == 3 * (n * h)
    ensures SatisfiesAll(LinkConss(n, h), x) <==> LinksHold(x, n, h)
  {
    var cs := LinkConss(n, h);
    if LinksHold(x, n, h) {
      forall k | 0 <= k < |cs| ensures Satisfies(cs[k], x) {
        DivBelow(k, n, h);
        CellSplit(k, h);
        LinkCellMeaning(n, h, k / h, k % h, x);
      }
    }
    if SatisfiesAll(cs, x) {
      forall v, c | 0 <= v < n && 0 <= c < h ensures LinkAt(x, n, h, v, c) {
        LinkCellMeaning(n, h, v, c, x);
      }
    }
  }

  lemma ClashesMeaning(g: Graph, h: nat, x: seq<int>)
    requires IsGraph(g) && |x| == 3 * (g.n * h)
    ensures SatisfiesAll(Flatten(ClashBlocks(h, g.edges)), x) <==> ClashesHold(x, g, h)
  {
    var bs := ClashBlocks(h, g.edges);
    SatisfiesFlatten(bs, x);
    forall k | 0 <= k < |bs| ensures SatisfiesAll(bs[k], x) <==> forall c :: 0 <= c < h ==> ClashAt(x, h, g.edges[k], c) {
      var e := g.edges[k];
      forall c | 0 <= c < h ensures Satisfies(ClashCons(h, e, c), x) <==> ClashAt(x, h, e, c) {
        CellBelow(g.n, h, e.0, c);
        CellBelow(g.n, h, e.1, c);
        EvalPair(Cell(e.0, c, h), Cell(e.1, c, h), 1.0, 1.0, x);
      }
    }
  }

  /** The constraints of POP2 say (16) to (19), (21), (14) and (23). */
  lemma HybridConssMeaning(g: Graph, h: nat, x: seq<int>)
    requires IsGraph(g) && h >= 2 && |x| == 3 * (g.n * h)
    ensures SatisfiesAll(HybridConss(g, h), x) <==>
              EndsHold(x, g.n * h, g.n, h) && StepsHold(x, g.n * h, g.n, h) && LinksHold(x, g.n, h) && ClashesHold(x, g, h)
  {
    var n := g.n;
    SatisfiesAllAppend(BaseConss(n * h, n, h), LinkConss(n, h), x);
    SatisfiesAllAppend(BaseConss(n * h, n, h) + LinkConss(n, h), Flatten(ClashBlocks(h, g.edges)), x);
    BaseMeaning(n * h, n, h, x);
    LinksMeaning(n, h, x);
    ClashesMeaning(g, h, x);
  }

  // ---------------------------------------------------------------- colourings as staircases

  /** Every colour is one of 1, ..., h - 1, and vertex 0 has the largest. */
  predicate Graded(col: seq<nat>, h: nat) {
    forall v :: 0 <= v < |col| ==> 1 <= col[v] < h && col[v] <= col[0]
  }

  /** The two ends of every edge differ in colour unless they share a colour m or above. */
  predicate Separated(g: Graph, col: seq<nat>, m: nat) {
    |col| == g.n &&
    forall k :: 0 <= k < |g.edges| ==>
      g.edges[k].0 < g.n && g.edges[k].1 < g.n &&
      (col[g.edges[k].0] != col[g.edges[k].1] || m <= col[g.edges[k].0])
  }

  /** y[c, v] says whether c is below the colour of v. */
  ghost predicate YMatches(x: seq<int>, b: nat, h: nat, col: seq<nat>) {
    forall v, c :: 0 <= v < |col| && 0 <= c < h ==> Y(x, b, h, c, v) == (if c < col[v] then 1 else 0)
  }

  /** z[v, c], for c from 1 on, says whether the colour of v is below c. */
  ghost predicate ZMatches(x: seq<int>, b: nat, h: nat, col: seq<nat>) {
    forall v, c :: 0 <= v < |col| && 1 <= c < h ==> Z(x, b, |col|, h, v, c) == (if col[v] < c then 1 else 0)
  }

  /** z[v, 0], which no constraint of POP fixes, is zero. */
  ghost predicate ZFloor(x: seq<int>, b: nat, n: nat, h: nat) {
    forall v :: 0 <= v < n ==> Z(x, b, n, h, v, 0) == 0
  }

  /** x[v, c] says whether v has colour c. */
  ghost predicate XMatches(x: seq<int>, h: nat, col: seq<nat>) {
    forall v, c :: 0 <= v < |col| && 0 <= c < h ==> X(x, h, v, c) == (if col[v] == c then 1 else 0)
  }

  /** The first c' >= c whose y[c', v] is zero, h when there is none. */
  function FirstZero(x: seq<int>, b: nat, h: nat, v: nat, c: nat): nat
    decreases h - c
  {
    if c >= h then h else if Y(x, b, h, c, v) == 0 then c else FirstZero(x, b, h, v, c + 1)
  }

  /** The colour the y variables give v. */
  function Levels(x: seq<int>, b: nat, n: nat, h: nat): (col: seq<nat>)
    ensures |col| == n && forall v :: 0 <= v < n ==> col[v] == FirstZero(x, b, h, v, 0)
  {
    seq(n, v requires 0 <= v < n => FirstZero(x, b, h, v, 0))
  }

  /** The objective value of a colouring: the colour of vertex 0. */
  function Value(col: seq<nat>): nat {
    if |col| == 0 then 0 else col[0]
  }

  lemma AtBinary(x: seq<int>, i: nat)
    requires Binary01(x)
    ensures At(x, i) == 0 || At(x, i) == 1
  {
  }

  /** Once y[c, v] is zero, (18) keeps the rest of the row zero. */
  lemma {:induction false} ZeroOnwards(x: seq<int>, b: nat, n: nat, h: nat, v: nat, c: nat)
    requires Binary01(x) && v < n && StepRowHolds(x, b, n, h, v) && c < h && Y(x, b, h, c, v) == 0
    ensures forall d :: c <= d < h ==> Y(x, b, h, d, v) == 0
    decreases h - c
  {
    if c + 1 < h {
      assert StepAt(x, b, n, h, v, c);
      AtBinary(x, YH(b, h, c + 1, v));
      ZeroOnwards(x, b, n, h, v, c + 1);
    }
  }

  /** Under (18) the y row of v is a run of ones and then zeros, the ones ending at FirstZero. */
  lemma {:induction false} Staircase(x: seq<int>, b: nat, n: nat, h: nat, v: nat, c: nat)
    requires Binary01(x) && v < n && StepRowHolds(x, b, n, h, v) && c <= h
    requires forall d :: 0 <= d < c ==> Y(x, b, h, d, v) == 1
    ensures c <= FirstZero(x, b, h, v, c) <= h
    ensures forall d :: 0 <= d < h ==> (Y(x, b, h, d, v) == 1 <==> d < FirstZero(x, b, h, v, c))
    decreases h - c
  {
    if c < h {
      if Y(x, b, h, c, v) == 0 {
        ZeroOnwards(x, b, n, h, v, c);
      } else {
        AtBinary(x, YH(b, h, c, v));
        Staircase(x, b, n, h, v, c + 1);
      }
    }
  }

  /** What (16) to (19) and (21) make of the variables of one vertex. */
  lemma DecodeVertex(x: seq<int>, b: nat, n: nat, h: nat, v: nat)
    requires h >= 2 && Binary01(x) && v < n && EndsHold(x, b, n, h) && StepsHold(x, b, n, h)
    ensures var l := FirstZero(x, b, h, v, 0);
            1 <= l < h && l <= FirstZero(x, b, h, 0, 0) &&
            (forall c :: 0 <= c < h ==> Y(x, b, h, c, v) == (if c < l then 1 else 0)) &&
            (forall c :: 1 <= c < h ==> Z(x, b, n, h, v, c) == (if l < c then 1 else 0))
  {
    var l := FirstZero(x, b, h, v, 0);
    assert StepRowHolds(x, b, n, h, v) && StepRowHolds(x, b, n, h, 0);
    Staircase(x, b, n, h, v, 0);
    Staircase(x, b, n, h, 0, 0);
    assert EndsAt(x, b, n, h, v);
    assert StepAt(x, b, n, h, v, 0);
    forall c | 0 <= c < h ensures Y(x, b, h, c, v) == (if c < l then 1 else 0) {
      AtBinary(x, YH(b, h, c, v));
    }
    forall c | 1 <= c < h ensures Z(x, b, n, h, v, c) == (if l < c then 1 else 0) {
      assert StepAt(x, b, n, h, v, c - 1);
    }
    assert StepAt(x, b, n, h, v, l - 1);
  }

  /** A point meeting the base constraints writes a graded colouring, its Levels. */
  lemma DecodeBase(x: seq<int>, b: nat, n: nat, h: nat)
    requires h >= 2 && Binary01(x) && EndsHold(x, b, n, h) && StepsHold(x, b, n, h)
    ensures Graded(Levels(x, b, n, h), h) && YMatches(x, b, h, Levels(x, b, n, h)) && ZMatches(x, b, h, Levels(x, b, n, h))
  {
    var col := Levels(x, b, n, h);
    forall v | 0 <= v < n
      ensures 1 <= col[v] < h && col[v] <= col[0]
      ensures forall c :: 0 <= c < h ==> Y(x, b, h, c, v) == (if c < col[v] then 1 else 0)
      ensures forall c :: 1 <= c < h ==> Z(x, b, n, h, v, c) == (if col[v] < c then 1 else 0)
    {
      DecodeVertex(x, b, n, h, v);
    }
  }

  /** A graded colouring written as a staircase meets the base constraints. */
  lemma MatchesBase(x: seq<int>, b: nat, h: nat, col: seq<nat>)
    requires h >= 2 && Graded(col, h) && YMatches(x, b, h, col) && ZMatches(x, b, h, col)
    ensures EndsHold(x, b, |col|, h) && StepsHold(x, b, |col|, h)
  {
    var n := |col|;
    forall v | 0 <= v < n ensures EndsAt(x, b, n, h, v) && StepRowHolds(x, b, n, h, v) {
      forall c | 0 <= c < Top(h) ensures StepAt(x, b, n, h, v, c) {
        assert Y(x, b, h, c, v) == (if c < col[v] then 1 else 0);
        assert Y(x, b, h, c + 1, v) == (if c + 1 < col[v] then 1 else 0);
        assert Y(x, b, h, c, 0) == (if c < col[0] then 1 else 0);
      }
      assert Y(x, b, h, Top(h), v) == 0;
    }
  }

  /** The staircase of a colouring below h decodes to that colouring. */
  lemma {:induction false} FirstZeroOf(x: seq<int>, b: nat, h: nat, col: seq<nat>, v: nat, c: nat)
    requires YMatches(x, b, h, col) && v < |col| && col[v] < h && c <= col[v]
    ensures FirstZero(x, b, h, v, c) == col[v]
    decreases col[v] - c
  {
    if c < col[v] {
      FirstZeroOf(x, b, h, col, v, c + 1);
    }
  }

  lemma LevelsOf(x: seq<int>, b: nat, h: nat, col: seq<nat>)
    requires YMatches(x, b, h, col) && Graded(col, h)
    ensures Levels(x, b, |col|, h) == col
  {
    forall v | 0 <= v < |col| ensures FirstZero(x, b, h, v, 0) == col[v] {
      FirstZeroOf(x, b, h, col, v, 0);
    }
  }

  /** Given the staircase, (20) for an edge and colour c says its ends do not both take c. */
  lemma OrderAtMeaning(x: seq<int>, g: Graph, h: nat, col: seq<nat>, k: nat, c: nat)
    requires IsGraph(g) && Binary01(x) && |col| == g.n && Graded(col, h) && YMatches(x, 0, h, col) && ZMatches(x, 0, h, col)
    requires k < |g.edges| && c < h
    ensures OrderAt(x, g.n, h, g.edges[k], c) <==> !(col[g.edges[k].0] == c && col[g.edges[k].1] == c)
  {
    var u, w := g.edges[k].0, g.edges[k].1;
    assert Y(x, 0, h, c, u) == (if c < col[u] then 1 else 0);
    assert Y(x, 0, h, c, w) == (if c < col[w] then 1 else 0);
    if c >= 1 {
      assert Z(x, 0, g.n, h, u, c) == (if col[u] < c then 1 else 0);
      assert Z(x, 0, g.n, h, w, c) == (if col[w] < c then 1 else 0);
    } else {
      AtBinary(x, ZH(0, g.n, h, u, c));
      AtBinary(x, ZH(0, g.n, h, w, c));
    }
  }

  /** Given the staircase, (20) over the first m colours is Separated at m. */
  lemma OrdersMeaning(x: seq<int>, g: Graph, h: nat, m: nat, col: seq<nat>)
    requires IsGraph(g) && Binary01(x) && m <= h && |col| == g.n && Graded(col, h) && YMatches(x, 0, h, col) && ZMatches(x, 0, h, col)
    ensures OrdersHold(x, g, h, m) <==> Separated(g, col, m)
  {
    forall k, c | 0 <= k < |g.edges| && 0 <= c < m
      ensures OrderAt(x, g.n, h, g.edges[k], c) <==> !(col[g.edges[k].0] == c && col[g.edges[k].1] == c)
    {
      OrderAtMeaning(x, g, h, col, k, c);
    }
    if OrdersHold(x, g, h, m) {
      forall k | 0 <= k < |g.edges|
        ensures col[g.edges[k].0] != col[g.edges[k].1] || m <= col[g.edges[k].0]
      {
        if col[g.edges[k].0] < m {
          assert OrderAt(x, g.n, h, g.edges[k], col[g.edges[k].0]);
        }
      }
    }
  }

  /** Given the staircase, the x variables meet (14) exactly when they say which colour each vertex has. */
  lemma LinksMatch(x: seq<int>, n: nat, h: nat, col: seq<nat>)
    requires Binary01(x) && |col| == n && Graded(col, h)
    requires YMatches(x, n * h, h, col) && ZMatches(x, n * h, h, col)
    ensures LinksHold(x, n, h) <==> XMatches(x, h, col) && ZFloor(x, n * h, n, h)
  {
    forall v, c | 0 <= v < n && 0 <= c < h
      ensures LinkAt(x, n, h, v, c) <==> X(x, h, v, c) == (if col[v] == c then 1 else 0) && (c == 0 ==> Z(x, n * h, n, h, v, 0) == 0)
    {
      AtBinary(x, Cell(v, c, h));
      AtBinary(x, ZH(n * h, n, h, v, c));
      assert Y(x, n * h, h, c, v) == (if c < col[v] then 1 else 0);
      if c >= 1 {
        assert Z(x, n * h, n, h, v, c) == (if col[v] < c then 1 else 0);
      }
    }
    if XMatches(x, h, col) && ZFloor(x, n * h, n, h) {
      forall v, c | 0 <= v < n && 0 <= c < h ensures LinkAt(x, n, h, v, c) {
        assert X(x, h, v, c) == (if col[v] == c then 1 else 0);
      }
    }
    if LinksHold(x, n, h) {
      forall v | 0 <= v < n ensures Z(x, n * h, n, h, v, 0) == 0 {
        assert 1 <= col[v] < h;
        assert LinkAt(x, n, h, v, 0);
      }
    }
  }

  /** Given the x variables, (23) is a proper colouring with colours below h. */
  lemma ClashesMatch(x: seq<int>, g: Graph, h: nat, col: seq<nat>)
    requires IsGraph(g) && |col| == g.n && Graded(col, h) && XMatches(x, h, col)
    ensures ClashesHold(x, g, h) <==> Separated(g, col, h)
  {
    forall k, c | 0 <= k < |g.edges| && 0 <= c < h
      ensures ClashAt(x, h, g.edges[k], c) <==> !(col[g.edges[k].0] == c && col[g.edges[k].1] == c)
    {
      assert X(x, h, g.edges[k].0, c) == (if col[g.edges[k].0] == c then 1 else 0);
      assert X(x, h, g.edges[k].1, c) == (if col[g.edges[k].1] == c then 1 else 0);
    }
    if ClashesHold(x, g, h) {
      forall k | 0 <= k < |g.edges| ensures col[g.edges[k].0] != col[g.edges[k].1] {
        assert ClashAt(x, h, g.edges[k], col[g.edges[k].0]);
      }
    }
  }

  // ---------------------------------------------------------------- the point of a colouring

  /** y[c, v] of col at position v * h + c: whether c is below the colour of v. */
  function YBit(col: seq<nat>, h: nat, k: nat): int
    requires h > 0
  {
    if k / h < |col| && k % h < col[k / h] then 1 else 0
  }

  /** z[v, c] of col at position v * h + c: whether the colour of v is below c. */
  function ZBit(col: seq<nat>, h: nat, k: nat): int
    requires h > 0
  {
    if k / h < |col| && col[k / h] < k % h then 1 else 0
  }

  /** x[v, c] of col at position v * h + c: whether v has colour c. */
  function XBit(col: seq<nat>, h: nat, k: nat): int
    requires h > 0
  {
    if k / h < |col| && col[k / h] == k % h then 1 else 0
  }

  /** The y and z variables of col. */
  function EncodeYZ(col: seq<nat>, h: nat): (x: seq<int>)
    ensures |x| == 2 * (|col| * h)
  {
    if h == 0 then []
    else seq(|col| * h, k requires 0 <= k < |col| * h => YBit(col, h, k)) +
         seq(|col| * h, k requires 0 <= k < |col| * h => ZBit(col, h, k))
  }

  /** The x variables of col. */
  function EncodeX(col: seq<nat>, h: nat): (x: seq<int>)
    ensures |x| == |col| * h
  {
    if h == 0 then [] else seq(|col| * h, k requires 0 <= k < |col| * h => XBit(col, h, k))
  }

  lemma CellParts(v: nat, c: nat, h: nat)
    requires c < h
    ensures Cell(v, c, h) / h == v && Cell(v, c, h) % h == c
  {
    CellSplit(Cell(v, c, h), h);
    Coloring.CellInjective(h, v, c, Cell(v, c, h) / h, Cell(v, c, h) % h);
  }

  /** After any prefix, the y and z variables of col are its staircase, z[v, 0] zero. */
  lemma EncodeYZMatches(pre: seq<int>, col: seq<nat>, h: nat)
    requires h > 0
    ensures var x := pre + EncodeYZ(col, h);
            YMatches(x, |pre|, h, col) && ZMatches(x, |pre|, h, col) && ZFloor(x, |pre|, |col|, h)
  {
    var x := pre + EncodeYZ(col, h);
    var n, b := |col|, |pre|;
    forall v, c | 0 <= v < n && 0 <= c < h
      ensures Y(x, b, h, c, v) == (if c < col[v] then 1 else 0)
      ensures Z(x, b, n, h, v, c) == (if col[v] < c then 1 else 0)
    {
      CellBelow(n, h, v, c);
      CellParts(v, c, h);
      assert x[b + Cell(v, c, h)] == EncodeYZ(col, h)[Cell(v, c, h)];
      assert x[b + n * h + Cell(v, c, h)] == EncodeYZ(col, h)[n * h + Cell(v, c, h)];
    }
  }

  lemma EncodeXMatches(col: seq<nat>, h: nat, rest: seq<int>)
    requires h > 0
    ensures XMatches(EncodeX(col, h) + rest, h, col)
  {
    var x := EncodeX(col, h) + rest;
    forall v, c | 0 <= v < |col| && 0 <= c < h ensures X(x, h, v, c) == (if col[v] == c then 1 else 0) {
      CellBelow(|col|, h, v, c);
      CellParts(v, c, h);
      assert x[Cell(v, c, h)] == EncodeX(col, h)[Cell(v, c, h)];
    }
  }

  lemma EncodeBinary(col: seq<nat>, h: nat)
    ensures Binary01(EncodeYZ(col, h)) && Binary01(EncodeX(col, h) + EncodeYZ(col, h))
  {
  }

  // ---------------------------------------------------------------- the objective

  /** Objective 1 on the h handles from b on, the y[c, 0], and 0 elsewhere. */
  function PopObjs(b: nat, n: nat, h: nat): (objs: seq<real>)
    ensures |objs| == b + 2 * (n * h)
    ensures forall k :: 0 <= k < |objs| ==> objs[k] == (if b <= k < b + h then 1.0 else 0.0)
  {
    seq(b + 2 * (n * h), k requires 0 <= k < b + 2 * (n * h) => if b <= k < b + h then 1.0 else 0.0)
  }

  /** Handle k of the y variables has objective 1 exactly when it is a y of vertex 0. */
  lemma YObj(n: nat, h: nat, k: nat)
    requires h > 0 && k < n * h
    ensures YVars(n, h)[k].obj == (if k < h then 1.0 else 0.0)
  {
    CellSplit(k, h);
    if k / h != 0 {
      MulMono(1, k / h, h);
    }
  }

  lemma PopVarsObjs(b: nat, n: nat, h: nat, pre: seq<Var>, vs: seq<Var>)
    requires h > 0 && |pre| == b && vs == pre + YVars(n, h) + ZVars(n, h)
    requires forall k :: 0 <= k < b ==> pre[k] == BinaryVar(pre[k].name, 0.0)
    ensures |vs| == |PopObjs(b, n, h)|
    ensures forall k :: 0 <= k < |vs| ==> vs[k] == BinaryVar(vs[k].name, PopObjs(b, n, h)[k])
  {
    if n > 0 {
      MulMono(1, n, h);
    }
    forall k | 0 <= k < |vs| ensures vs[k] == BinaryVar(vs[k].name, PopObjs(b, n, h)[k]) {
      if k < b {
        assert vs[k] == pre[k];
      } else if k < b + n * h {
        assert vs[k] == YVars(n, h)[k - b];
        YObj(n, h, k - b);
      } else {
        assert vs[k] == ZVars(n, h)[k - b - n * h];
      }
    }
  }

  /** Σ_{i <= j} objs[j] x[j] over a window of h ones whose first l entries of x are one. */
  lemma {:induction false} WindowSum(objs: seq<real>, x: seq<int>, b: nat, h: nat, l: nat, i: nat)
    requires |objs| == |x| && b + h <= |x| && l <= h
    requires forall k :: 0 <= k < |objs| ==> objs[k] == (if b <= k < b + h then 1.0 else 0.0)
    requires forall c :: 0 <= c < h ==> Y(x, b, h, c, 0) == (if c < l then 1 else 0)
    ensures WeightedFrom(objs, x, i) == (if i <= b then l else if i - b < l then l - (i - b) else 0) as real
    decreases |x| - i
  {
    if i < |x| {
      WindowSum(objs, x, b, h, l, i + 1);
      if b <= i < b + h {
        assert Y(x, b, h, i - b, 0) == x[i];
      }
    }
  }

  lemma {:induction false} ZeroObjs(objs: seq<real>, x: seq<int>, i: nat)
    requires forall k :: i <= k < |objs| ==> objs[k] == 0.0
    ensures WeightedFrom(objs, x, i) == 0.0
    decreases |x| - i
  {
    if i < |x| && i < |objs| {
      ZeroObjs(objs, x, i + 1);
    }
  }

  /** On a graded staircase the objective Σ_c y[c, 0] is the colour of vertex 0. */
  lemma ObjectiveIsValue(x: seq<int>, b: nat, h: nat, col: seq<nat>)
    requires h >= 2 && |x| == b + 2 * (|col| * h) && Graded(col, h) && YMatches(x, b, h, col)
    ensures WeightedFrom(PopObjs(b, |col|, h), x, 0) == Value(col) as real
  {
    var objs := PopObjs(b, |col|, h);
    if |col| == 0 {
      ZeroObjs(objs, x, 0);
    } else {
      MulMono(1, |col|, h);
      WindowSum(objs, x, b, h, col[0], 0);
    }
  }

  // ---------------------------------------------------------------- the models without their names

  ghost predicate PopShape(model: Model, g: Graph, h: nat, m: nat) {
    IsGraph(g) && h >= 2 && m <= h && BinaryObjs(model, PopObjs(0, g.n, h)) && model.sense == Minimize &&
    model.conss == OrderConss(g, h, m)
  }

  ghost predicate HybridShape(model: Model, g: Graph, h: nat) {
    IsGraph(g) && h >= 2 && BinaryObjs(model, PopObjs(g.n * h, g.n, h)) && model.sense == Minimize &&
    model.conss == HybridConss(g, h)
  }

  lemma PartialOrderingShape(model: Model, lg: Labelled<int>, h: nat, name: string)
    requires IsPartialOrderingModel(model, lg, h, name) && h >= 2
    ensures PopShape(model, Relabel(lg), h, Top(h))
  {
    RelabelIsGraph(lg);
    PopVarsObjs(0, |lg.nodes|, h, [], model.vars);
  }

  lemma OrderedShape(model: Model, lg: Labelled<int>, h: nat, name: string)
    requires IsOrderedModel(model, lg, h, name) && h >= 2
    ensures PopShape(model, Relabel(lg), h, h)
  {
    RelabelIsGraph(lg);
    PopVarsObjs(0, |lg.nodes|, h, [], model.vars);
  }

  lemma HybridShapeOf(model: Model, lg: Labelled<int>, h: nat, name: string)
    requires IsHybridModel(model, lg, h, name) && h >= 2
    ensures HybridShape(model, Relabel(lg), h)
  {
    RelabelIsGraph(lg);
    var n := |lg.nodes|;
    var xs := ColoringAssignment.XVars(n, h);
    assert model.vars == xs + YVars(n, h) + ZVars(n, h);
    PopVarsObjs(n * h, n, h, xs, model.vars);
  }

  // ---------------------------------------------------------------- feasible points are colourings

  /** A point is feasible for POP exactly when it is a 0/1 point meeting (16) to (21). */
  lemma PopFeasibleIff(model: Model, g: Graph, h: nat, m: nat, x: seq<int>)
    requires PopShape(model, g, h, m)
    ensures Feasible(model, x) <==>
              |x| == 2 * (g.n * h) && Binary01(x) &&
              EndsHold(x, 0, g.n, h) && StepsHold(x, 0, g.n, h) && OrdersHold(x, g, h, m)
  {
    BinaryObjsFeasible(model, PopObjs(0, g.n, h), x);
    if |x| == 2 * (g.n * h) {
      OrderConssMeaning(g, h, m, x);
    }
  }

  /** A feasible point of POP is a graded colouring Separated at m whose objective is the colour of vertex 0. */
  lemma PopDecode(model: Model, g: Graph, h: nat, m: nat, x: seq<int>)
    requires PopShape(model, g, h, m) && Feasible(model, x)
    ensures var col := Levels(x, 0, g.n, h);
            Graded(col, h) && Separated(g, col, m) && Objective(model, x) == Value(col) as real
  {
    PopFeasibleIff(model, g, h, m, x);
    var col := Levels(x, 0, g.n, h);
    DecodeBase(x, 0, g.n, h);
    OrdersMeaning(x, g, h, m, col);
    BinaryObjsObjective(model, PopObjs(0, g.n, h), x, 0);
    ObjectiveIsValue(x, 0, h, col);
  }

  /** Every graded colouring Separated at m is a feasible point of POP, which decodes back to it. */
  lemma PopEncode(model: Model, g: Graph, h: nat, m: nat, col: seq<nat>)
    requires PopShape(model, g, h, m) && |col| == g.n && Graded(col, h) && Separated(g, col, m)
    ensures Feasible(model, EncodeYZ(col, h)) && Objective(model, EncodeYZ(col, h)) == Value(col) as real
    ensures Levels(EncodeYZ(col, h), 0, g.n, h) == col
  {
    var x := EncodeYZ(col, h);
    EncodeYZMatches([], col, h);
    assert [] + x == x;
    EncodeBinary(col, h);
    MatchesBase(x, 0, h, col);
    OrdersMeaning(x, g, h, m, col);
    PopFeasibleIff(model, g, h, m, x);
    BinaryObjsObjective(model, PopObjs(0, g.n, h), x, 0);
    ObjectiveIsValue(x, 0, h, col);
    LevelsOf(x, 0, h, col);
  }

  /** A point is feasible for POP2 exactly when it is a 0/1 point meeting (14) to (19), (21) and (23). */
  lemma HybridFeasibleIff(model: Model, g: Graph, h: nat, x: seq<int>)
    requires HybridShape(model, g, h)
    ensures Feasible(model, x) <==>
              |x| == 3 * (g.n * h) && Binary01(x) &&
              EndsHold(x, g.n * h, g.n, h) && StepsHold(x, g.n * h, g.n, h) && LinksHold(x, g.n, h) && ClashesHold(x, g, h)
  {
    BinaryObjsFeasible(model, PopObjs(g.n * h, g.n, h), x);
    if |x| == 3 * (g.n * h) {
      HybridConssMeaning(g, h, x);
    }
  }

  /** A feasible point of POP2 is a graded proper colouring whose objective is the colour of vertex 0. */
  lemma HybridDecode(model: Model, g: Graph, h: nat, x: seq<int>)
    requires HybridShape(model, g, h) && Feasible(model, x)
    ensures var col := Levels(x, g.n * h, g.n, h);
            Graded(col, h) && Separated(g, col, h) && XMatches(x, h, col) && Objective(model, x) == Value(col) as real
  {
    var b := g.n * h;
    HybridFeasibleIff(model, g, h, x);
    var col := Levels(x, b, g.n, h);
    DecodeBase(x, b, g.n, h);
    LinksMatch(x, g.n, h, col);
    ClashesMatch(x, g, h, col);
    BinaryObjsObjective(model, PopObjs(b, g.n, h), x, 0);
    ObjectiveIsValue(x, b, h, col);
  }

  /** Every graded proper colouring is a feasible point of POP2, which decodes back to it. */
  lemma HybridEncode(model: Model, g: Graph, h: nat, col: seq<nat>)
    requires HybridShape(model, g, h) && |col| == g.n && Graded(col, h) && Separated(g, col, h)
    ensures var x := EncodeX(col, h) + EncodeYZ(col, h);
            Feasible(model, x) && Objective(model, x) == Value(col) as real && Levels(x, g.n * h, g.n, h) == col
  {
    var pre := EncodeX(col, h);
    var x := pre + EncodeYZ(col, h);
    var b := g.n * h;
    EncodeYZMatches(pre, col, h);
    EncodeXMatches(col, h, EncodeYZ(col, h));
    EncodeBinary(col, h);
    MatchesBase(x, b, h, col);
    LinksMatch(x, g.n, h, col);
    ClashesMatch(x, g, h, col);
    HybridFeasibleIff(model, g, h, x);
    BinaryObjsObjective(model, PopObjs(b, g.n, h), x, 0);
    ObjectiveIsValue(x, b, h, col);
    LevelsOf(x, b, h, col);
  }

  // ---------------------------------------------------------------- optimum

  /** The chromatic number is at most the number of vertices. */
  lemma ChromaticAtMost(g: Graph, k: nat)
    requires Chromatic(g, k)
    ensures k <= g.n
  {
    var col: seq<nat> :| Proper(g, col) && |ToSet(col)| == k;
    ToSetCard(col);
  }

  /**
   * A graded colouring that keeps edges apart below its top colour uses at
   * least the chromatic number, unless the top colour is m or above.
   */
  lemma AtLeastChromatic(g: Graph, col: seq<nat>, h: nat, m: nat, k: nat)
    requires Chromatic(g, k) && Graded(col, h) && Separated(g, col, m) && (h <= m || Value(col) < m)
    ensures k <= Value(col)
  {
    assert Proper(g, col) by {
      forall e | 0 <= e < |g.edges| ensures col[g.edges[e].0] != col[g.edges[e].1] {
        assert col[g.edges[e].0] <= Value(col) && col[g.edges[e].0] < h;
      }
    }
    if |col| == 0 {
      assert ToSet(col) == {};
    } else {
      forall c | c in ToSet(col) ensures 1 <= c <= col[0] {
        var v :| 0 <= v < |col| && col[v] == c;
      }
      BoundedCard(ToSet(col), col[0]);
    }
  }

  /** When k < h colours suffice, some graded proper colouring has vertex 0 at colour k. */
  lemma BestColouring(g: Graph, h: nat, k: nat) returns (col: seq<nat>)
    requires IsGraph(g) && Chromatic(g, k) && k < h
    ensures |col| == g.n && Graded(col, h) && Separated(g, col, h) && Value(col) == k
  {
    var c0: seq<nat> :| Proper(g, c0) && |ToSet(c0)| == k;
    if |c0| == 0 {
      col := c0;
      assert ToSet(c0) == {};
    } else {
      col := Compact(g, c0);
    }
  }

  /** Every vertex at the top colour h - 1. */
  function AllTop(n: nat, h: nat): (col: seq<nat>)
    ensures |col| == n && forall v :: 0 <= v < n ==> col[v] == Top(h)
  {
    seq<nat>(n, v requires 0 <= v < n => Top(h))
  }

  lemma AllTopFeasible(g: Graph, h: nat)
    requires IsGraph(g) && h >= 2
    ensures Graded(AllTop(g.n, h), h) && Separated(g, AllTop(g.n, h), Top(h))
    ensures g.n > 0 ==> Value(AllTop(g.n, h)) == Top(h)
  {
  }

  /**
   * partial_ordering as written: with chromatic number k its optimum is
   * k when k <= h - 1 and h - 1 otherwise, since the two ends of an edge may
   * share colour h - 1.
   */
  lemma PopOptimum(model: Model, g: Graph, h: nat, k: nat, r: real)
    requires PopShape(model, g, h, Top(h)) && Chromatic(g, k)
    ensures IsOptimum(model, r) <==> r == Min(k, Top(h)) as real
  {
    var best := Min(k, Top(h));
    var col: seq<nat>;
    if k < h {
      col := BestColouring(g, h, k);
    } else {
      ChromaticAtMost(g, k);
      AllTopFeasible(g, h);
      col := AllTop(g.n, h);
    }
    PopEncode(model, g, h, Top(h), col);
    forall x | Feasible(model, x) ensures Better(model, best as real, Objective(model, x)) {
      PopDecode(model, g, h, Top(h), x);
      var dec := Levels(x, 0, g.n, h);
      if Value(dec) < Top(h) {
        AtLeastChromatic(g, dec, h, Top(h), k);
      }
    }
    assert IsOptimum(model, best as real);
    if IsOptimum(model, r) {
      OptimumUnique(model, r, best as real);
    }
  }

  /** A model with (20) over every colour and chromatic number k: optimum k when k <= h - 1, infeasible otherwise. */
  lemma OrderedOptimum(model: Model, g: Graph, h: nat, k: nat, r: real)
    requires PopShape(model, g, h, h) && Chromatic(g, k)
    ensures IsOptimum(model, r) <==> k < h && r == k as real
  {
    if k < h {
      var col := BestColouring(g, h, k);
      PopEncode(model, g, h, h, col);
      forall x | Feasible(model, x) ensures Better(model, k as real, Objective(model, x)) {
        PopDecode(model, g, h, h, x);
        AtLeastChromatic(g, Levels(x, 0, g.n, h), h, h, k);
      }
      assert IsOptimum(model, k as real);
      if IsOptimum(model, r) {
        OptimumUnique(model, r, k as real);
      }
    }
    if IsOptimum(model, r) {
      var x :| Feasible(model, x) && Objective(model, x) == r;
      PopDecode(model, g, h, h, x);
      AtLeastChromatic(g, Levels(x, 0, g.n, h), h, h, k);
    }
  }

  /** hybrid_partial_ordering with chromatic number k: optimum k when k <= h - 1, infeasible otherwise. */
  lemma HybridOptimum(model: Model, g: Graph, h: nat, k: nat, r: real)
    requires HybridShape(model, g, h) && Chromatic(g, k)
    ensures IsOptimum(model, r) <==> k < h && r == k as real
  {
    if k < h {
      var col := BestColouring(g, h, k);
      HybridEncode(model, g, h, col);
      forall x | Feasible(model, x) ensures Better(model, k as real, Objective(model, x)) {
        HybridDecode(model, g, h, x);
        AtLeastChromatic(g, Levels(x, g.n * h, g.n, h), h, h, k);
      }
      assert IsOptimum(model, k as real);
      if IsOptimum(model, r) {
        OptimumUnique(model, r, k as real);
      }
    }
    if IsOptimum(model, r) {
      var x :| Feasible(model, x) && Objective(model, x) == r;
      HybridDecode(model, g, h, x);
      AtLeastChromatic(g, Levels(x, g.n * h, g.n, h), h, h, k);
    }
  }

  // ---------------------------------------------------------------- the models as built

  /** partial_ordering(graph, h): optimum min(χ, h - 1), χ the chromatic number of graph. */
  lemma PartialOrderingOptimum(model: Model, lg: Labelled<int>, h: nat, name: string, k: nat, r: real)
    requires IsPartialOrderingModel(model, lg, h, name) && h >= 2 && Chromatic(Relabel(lg), k)
    ensures IsOptimum(model, r) <==> r == Min(k, h - 1) as real
  {
    PartialOrderingShape(model, lg, h, name);
    PopOptimum(model, Relabel(lg), h, k, r);
  }

  /** partial_ordering with (20) for every colour: optimum χ when χ <= h - 1, no feasible point otherwise. */
  lemma OrderedPartialOrderingOptimum(model: Model, lg: Labelled<int>, h: nat, name: string, k: nat, r: real)
    requires IsOrderedModel(model, lg, h, name) && h >= 2 && Chromatic(Relabel(lg), k)
    ensures IsOptimum(model, r) <==> k <= h - 1 && r == k as real
  {
    OrderedShape(model, lg, h, name);
    OrderedOptimum(model, Relabel(lg), h, k, r);
  }

  /** hybrid_partial_ordering(graph, h): optimum χ when χ <= h - 1, no feasible point otherwise. */
  lemma HybridPartialOrderingOptimum(model: Model, lg: Labelled<int>, h: nat, name: string, k: nat, r: real)
    requires IsHybridModel(model, lg, h, name) && h >= 2 && Chromatic(Relabel(lg), k)
    ensures IsOptimum(model, r) <==> k <= h - 1 && r == k as real
  {
    HybridShapeOf(model, lg, h, name);
    HybridOptimum(model, Relabel(lg), h, k, r);
  }

  /** partial_ordering(nx.cycle_graph(5), 5): 50 variables, 90 constraints, optimum 3. */
  lemma PartialOrderingCycle5(model: Model, name: string)
    requires IsPartialOrderingModel(model, Cycle5Labelled(), 5, name)
    ensures model.NumVars() == 50 && model.NumConss() == 90 && IsOptimum(model, 3.0)
  {
    Cycle5Relabel();
    Cycle5Chromatic();
    OrderCount(Cycle5(), 5, 4);
    PartialOrderingOptimum(model, Cycle5Labelled(), 5, name, 3, 3.0);
  }

  /** hybrid_partial_ordering(nx.cycle_graph(5), 5): 75 variables, 120 constraints, optimum 3. */
  lemma HybridPartialOrderingCycle5(model: Model, name: string)
    requires IsHybridModel(model, Cycle5Labelled(), 5, name)
    ensures model.NumVars() == 75 && model.NumConss() == 120 && IsOptimum(model, 3.0)
  {
    Cycle5Relabel();
    Cycle5Chromatic();
    HybridCount(Cycle5(), 5);
    HybridPartialOrderingOptimum(model, Cycle5Labelled(), 5, name, 3, 3.0);
  }

  /** partial_ordering(nx.complete_graph(2), 2) reports optimum 1, yet an edge needs two colours. */
  lemma PartialOrderingEdge2(model: Model, name: string)
    requires IsPartialOrderingModel(model, Edge2Labelled(), 2, name)
    ensures Chromatic(Edge2(), 2) && IsOptimum(model, 1.0)
  {
    Edge2Relabel();
    Edge2Chromatic();
    PartialOrderingOptimum(model, Edge2Labelled(), 2, name, 2, 1.0);
  }

  /** With (20) for every colour, as hybrid_partial_ordering has (23), the same input has no feasible point. */
  lemma OrderedPartialOrderingEdge2(model: Model, name: string, r: real)
    requires IsOrderedModel(model, Edge2Labelled(), 2, name)
    ensures !IsOptimum(model, r)
  {
    Edge2Relabel();
    Edge2Chromatic();
    OrderedPartialOrderingOptimum(model, Edge2Labelled(), 2, name, 2, r);
  }
}
