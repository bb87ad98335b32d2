/**
 * geco/mips/graph_coloring/generic.py, representatives: the formulation REP
 * of Jabrayilov and Mutzel. A binary x_uv exists for every pair of nodes that
 * are equal or not adjacent and says "u represents the colour of v"; the
 * objective counts the representatives x_uu.
 *
 * Constraint (8) gives every v a representative among the nodes not adjacent
 * to it (itself included). Constraint (9) lets u represent at most one end of
 * an edge whose two ends are both non-neighbours of u, and only when u
 * represents itself. The formulation of the paper also ties x_uv <= x_uu for
 * a v without such an edge; the source leaves that out, so a node may be
 * represented by a node that represents nothing, and the optimum can fall
 * below the chromatic number (RepresentativesPath3). The model keeps the
 * source's formulation and, beside it, the one with the link x_uv <= x_uu for
 * every non-neighbour v of u, whose optimum is exactly the chromatic number.
 */
module ColoringRepresentatives {
  import opened Common
  import opened Mip
  import opened Graphs
  import opened Coloring

  type Pair = (nat, nat)

  // ---------------------------------------------------------------- the pairs with a variable

  /** Row u of itertools.product(range(n), range(n)). */
  function PairRow(n: nat, u: nat): (r: seq<Pair>)
    ensures |r| == n && forall v :: 0 <= v < n ==> r[v] == (u, v)
  {
    seq(n, v requires 0 <= v < n => (u, v))
  }

  /** The first u rows of itertools.product(range(n), range(n)). */
  function Product(n: nat, u: nat): seq<Pair> {
    if u == 0 then [] else Product(n, u - 1) + PairRow(n, u - 1)
  }

  /** x[u, v] is created: u == v or the graph has no edge u-v. */
  predicate Kept(g: Graph, p: Pair) {
    p.0 == p.1 || !HasEdge(g, p.0, p.1)
  }

  /** The pairs of ps, in order, that get a variable. */
  function KeptPairs(g: Graph, ps: seq<Pair>): seq<Pair> {
    if ps == [] then []
    else KeptPairs(g, ps[..|ps| - 1]) + (if Kept(g, ps[|ps| - 1]) then [ps[|ps| - 1]] else [])
  }

  /** The pairs with a variable, in the order the variables are created. */
  function Pairs(g: Graph): seq<Pair> {
    KeptPairs(g, Product(g.n, g.n))
  }

  /** The dictionary x: each pair to the handle of its variable. */
  function Index(ps: seq<Pair>): map<Pair, Handle> {
    if ps == [] then map[] else Index(ps[..|ps| - 1])[ps[|ps| - 1] := |ps| - 1]
  }

  /** The dictionary holds exactly the pairs of ps, each sent to a position holding it. */
  lemma {:induction false} IndexMembers(ps: seq<Pair>)
    ensures forall p :: p in Index(ps) <==> p in ps
    ensures forall p :: p in Index(ps) ==> Index(ps)[p] < |ps| && ps[Index(ps)[p]] == p
  {
    if ps != [] {
      var init := ps[..|ps| - 1];
      IndexMembers(init);
      assert ps == init + [ps[|ps| - 1]];
    }
  }

  /** x[p]; every pair the constraints look up has a variable (PairsMembers). */
  function Lookup(x: map<Pair, Handle>, p: Pair): Handle {
    if p in x then x[p] else 0
  }

  lemma {:induction false} ProductMembers(n: nat, u: nat)
    ensures forall p: Pair :: p in Product(n, u) <==> p.0 < u && p.1 < n
  {
    if u > 0 {
      ProductMembers(n, u - 1);
      forall p: Pair | p.0 == u - 1 && p.1 < n ensures p in Product(n, u) {
        assert PairRow(n, u - 1)[p.1] == p;
      }
    }
  }

  lemma {:induction false} ProductDistinct(n: nat, u: nat)
    ensures Distinct(Product(n, u))
  {
    if u > 0 {
      ProductDistinct(n, u - 1);
      ProductMembers(n, u - 1);
      var a := Product(n, u - 1);
      var b := PairRow(n, u - 1);
      forall i, j | 0 <= i < |a| && 0 <= j < |b| ensures a[i] != b[j] {
        assert a[i] in a;
      }
      DistinctConcat(a, b);
    }
  }

  lemma {:induction false} KeptMembers(g: Graph, ps: seq<Pair>)
    ensures forall p :: p in KeptPairs(g, ps) <==> p in ps && Kept(g, p)
  {
    if ps != [] {
      var init := ps[..|ps| - 1];
      KeptMembers(g, init);
      assert ps == init + [ps[|ps| - 1]];
    }
  }

  lemma {:induction false} KeptDistinct(g: Graph, ps: seq<Pair>)
    requires Distinct(ps)
    ensures Distinct(KeptPairs(g, ps))
  {
    if ps != [] {
      var init := ps[..|ps| - 1];
      var last := ps[|ps| - 1];
      assert Distinct(init) by {
        forall i, j | 0 <= i < j < |init| ensures init[i] != init[j] {
          assert init[i] == ps[i] && init[j] == ps[j];
        }
      }
      KeptDistinct(g, init);
      KeptMembers(g, init);
      var a := KeptPairs(g, init);
      var b := if Kept(g, last) then [last] else [];
      forall i, j | 0 <= i < |a| && 0 <= j < |b| ensures a[i] != b[j] {
        assert a[i] in init;
        var k :| 0 <= k < |init| && init[k] == a[i];
        assert ps[k] == a[i];
      }
      DistinctConcat(a, b);
    }
  }

  lemma {:induction false} KeptConcat(g: Graph, a: seq<Pair>, b: seq<Pair>)
    ensures KeptPairs(g, a + b) == KeptPairs(g, a) + KeptPairs(g, b)
  {
    if b != [] {
      var init := b[..|b| - 1];
      KeptConcat(g, a, init);
      assert (a + b)[..|a + b| - 1] == a + init;
    } else {
      assert a + b == a;
    }
  }

  lemma {:induction false} KeptAtMost(g: Graph, ps: seq<Pair>)
    ensures |KeptPairs(g, ps)| <= |ps|
  {
    if ps != [] {
      KeptAtMost(g, ps[..|ps| - 1]);
    }
  }

  /** Each row keeps its diagonal pair and at most all of its n pairs. */
  lemma RowKept(g: Graph, n: nat, u: nat)
    requires u < n
    ensures 1 <= |KeptPairs(g, PairRow(n, u))| <= n
  {
    KeptAtMost(g, PairRow(n, u));
    KeptMembers(g, PairRow(n, u));
    assert PairRow(n, u)[u] == (u, u);
    assert (u, u) in KeptPairs(g, PairRow(n, u));
  }

  lemma {:induction false} ProductKept(g: Graph, n: nat, u: nat)
    requires u <= n
    ensures u <= |KeptPairs(g, Product(n, u))| <= u * n
  {
    if u > 0 {
      ProductKept(g, n, u - 1);
      KeptConcat(g, Product(n, u - 1), PairRow(n, u - 1));
      RowKept(g, n, u - 1);
      MulStep(u - 1, n);
    }
  }

  /** A graph on n nodes has between n and n * n variables: the diagonal and at most every pair. */
  lemma PairsCount(g: Graph)
    ensures g.n <= |Pairs(g)| <= g.n * g.n
  {
    ProductKept(g, g.n, g.n);
  }

  /** The pairs with a variable are the nodes (u, v) with u == v or u, v not adjacent, each once. */
  lemma PairsMembers(g: Graph)
    ensures Distinct(Pairs(g))
    ensures forall p :: p in Pairs(g) <==> p.0 < g.n && p.1 < g.n && Kept(g, p)
    ensures forall p :: p in Index(Pairs(g)) <==> p.0 < g.n && p.1 < g.n && Kept(g, p)
  {
    ProductMembers(g.n, g.n);
    ProductDistinct(g.n, g.n);
    KeptMembers(g, Product(g.n, g.n));
    KeptDistinct(g, Product(g.n, g.n));
    IndexMembers(Pairs(g));
  }

  lemma PairsDistinct(g: Graph)
    ensures Distinct(Pairs(g))
  {
    ProductDistinct(g.n, g.n);
    KeptDistinct(g, Product(g.n, g.n));
  }

  /** In a list without repeats the dictionary sends the k-th pair to handle k. */
  lemma IndexOfDistinct(ps: seq<Pair>, k: nat)
    requires Distinct(ps) && k < |ps|
    ensures ps[k] in Index(ps) && Index(ps)[ps[k]] == k
  {
    IndexMembers(ps);
    assert ps[k] in ps;
    var x := Index(ps);
    assert ps[x[ps[k]]] == ps[k];
  }

  /** A pair of nodes that are equal or not adjacent has a variable, with a handle below the count. */
  lemma PairKey(g: Graph, p: Pair)
    requires p.0 < g.n && p.1 < g.n && Kept(g, p)
    ensures p in Index(Pairs(g)) && Lookup(Index(Pairs(g)), p) < |Pairs(g)|
  {
    PairsMembers(g);
    IndexMembers(Pairs(g));
  }

  // ---------------------------------------------------------------- variables and constraints

  /** x_uv: binary, objective 1 on the diagonal and 0 elsewhere, named f"x_{u}_{v}". */
  function RepVar(p: Pair): Var {
    BinaryVar(PairName("x", p.0, p.1), if p.0 == p.1 then 1.0 else 0.0)
  }

  function RepVars(ps: seq<Pair>): (vs: seq<Var>)
    ensures |vs| == |ps| && forall k :: 0 <= k < |ps| ==> vs[k] == RepVar(ps[k]) && vs[k].name != ""
  {
    seq(|ps|, k requires 0 <= k < |ps| => RepVar(ps[k]))
  }

  /** u is in (graph.nodes - graph.neighbors(v)) | {v}. */
  predicate InClosed(g: Graph, v: nat, u: nat) {
    u < g.n && (u == v || !HasEdge(g, v, u))
  }

  /** The members of (graph.nodes - graph.neighbors(v)) | {v} below k, ascending. */
  function Closed(g: Graph, v: nat, k: nat): seq<nat> {
    if k == 0 then [] else Closed(g, v, k - 1) + (if InClosed(g, v, k - 1) then [k - 1] else [])
  }

  /** The handles of x[u, v] for u in us. */
  function RepColumn(x: map<Pair, Handle>, us: seq<nat>, v: nat): (hs: seq<Handle>)
    ensures |hs| == |us| && forall i :: 0 <= i < |us| ==> hs[i] == Lookup(x, (us[i], v))
  {
    seq(|us|, i requires 0 <= i < |us| => Lookup(x, (us[i], v)))
  }

  /** constraint (8): Σ_{u in N̄[v]} x_uv >= 1 */
  function CoverCons(x: map<Pair, Handle>, g: Graph, v: nat): Cons {
    Cons(Quicksum(UnitTerms(RepColumn(x, Closed(g, v, g.n), v))), Ge, 1.0)
  }

  function CoverConss(x: map<Pair, Handle>, g: Graph): (cs: seq<Cons>)
    ensures |cs| == g.n && forall v :: 0 <= v < g.n ==> cs[v] == CoverCons(x, g, v)
  {
    seq(g.n, v requires 0 <= v < g.n => CoverCons(x, g, v))
  }

  /** v is in graph.nodes - graph.neighbors(u) - {u}. */
  predicate InOpen(g: Graph, u: nat, v: nat) {
    v < g.n && v != u && !HasEdge(g, u, v)
  }

  /** constraint (9): x_uv + x_uw <= x_uu */
  function SepCons(x: map<Pair, Handle>, u: nat, e: Edge): Cons {
    Cons(Quicksum([(Lookup(x, (u, e.0)), 1.0), (Lookup(x, (u, e.1)), 1.0), (Lookup(x, (u, u)), -1.0)]), Le, 0.0)
  }

  /** Constraints (9) of node u over the edges es whose two ends are non-neighbours of u. */
  function SepBlock(x: map<Pair, Handle>, g: Graph, u: nat, es: seq<Edge>): seq<Cons> {
    if es == [] then []
    else
      var e := es[|es| - 1];
      SepBlock(x, g, u, es[..|es| - 1]) + (if InOpen(g, u, e.0) && InOpen(g, u, e.1) then [SepCons(x, u, e)] else [])
  }

  function SepBlocks(x: map<Pair, Handle>, g: Graph): (bs: seq<seq<Cons>>)
    ensures |bs| == g.n && forall u :: 0 <= u < g.n ==> bs[u] == SepBlock(x, g, u, g.edges)
  {
    seq(g.n, u requires 0 <= u < g.n => SepBlock(x, g, u, g.edges))
  }

  function RepConss(g: Graph): seq<Cons> {
    var x := Index(Pairs(g));
    CoverConss(x, g) + Flatten(SepBlocks(x, g))
  }

  /** The link the source leaves out: x_uv <= x_uu for a non-neighbour v of u. */
  function LinkCons(x: map<Pair, Handle>, u: nat, v: nat): Cons {
    Cons(Quicksum([(Lookup(x, (u, v)), 1.0), (Lookup(x, (u, u)), -1.0)]), Le, 0.0)
  }

  /** The links of node u to its non-neighbours below k. */
  function LinkBlock(x: map<Pair, Handle>, g: Graph, u: nat, k: nat): seq<Cons> {
    if k == 0 then [] else LinkBlock(x, g, u, k - 1) + (if InOpen(g, u, k - 1) then [LinkCons(x, u, k - 1)] else [])
  }

  function LinkBlocks(x: map<Pair, Handle>, g: Graph): (bs: seq<seq<Cons>>)
    ensures |bs| == g.n && forall u :: 0 <= u < g.n ==> bs[u] == LinkBlock(x, g, u, g.n)
  {
    seq(g.n, u requires 0 <= u < g.n => LinkBlock(x, g, u, g.n))
  }

  function LinkedConss(g: Graph): seq<Cons> {
    RepConss(g) + Flatten(LinkBlocks(Index(Pairs(g)), g))
  }

  /** The model representatives(graph, name) returns. */
  ghost predicate IsRepresentativesModel(model: Model, lg: Labelled<int>, name: string) {
    IsLabelled(lg) &&
    model.name == name && model.removed == {} && model.sense == Minimize &&
    model.vars == RepVars(Pairs(Relabel(lg))) && model.conss == RepConss(Relabel(lg))
  }

  /** The corrected model: representatives with the link constraints added. */
  ghost predicate IsLinkedModel(model: Model, lg: Labelled<int>, name: string) {
    IsLabelled(lg) &&
    model.name == name && model.removed == {} && model.sense == Minimize &&
    model.vars == RepVars(Pairs(Relabel(lg))) && model.conss == LinkedConss(Relabel(lg))
  }

  // ---------------------------------------------------------------- building

  /** One more pair of the product: it joins the kept pairs exactly when it gets a variable. */
  lemma KeptStep(g: Graph, ps: seq<Pair>, k: nat)
    requires k < |ps|
    ensures KeptPairs(g, ps[..k + 1]) == KeptPairs(g, ps[..k]) + (if Kept(g, ps[k]) then [ps[k]] else [])
  {
    assert ps[..k + 1][..k] == ps[..k];
  }

  lemma RepVarsSnoc(kept: seq<Pair>, p: Pair)
    ensures RepVars(kept + [p]) == RepVars(kept) + [RepVar(p)]
  {
    var a := RepVars(kept + [p]);
    var b := RepVars(kept) + [RepVar(p)];
    assert |a| == |b|;
    forall k | 0 <= k < |a| ensures a[k] == b[k] {
      if k < |kept| {
        assert (kept + [p])[k] == kept[k];
      }
    }
  }

  lemma IndexSnoc(kept: seq<Pair>, p: Pair)
    ensures Index(kept + [p]) == Index(kept)[p := |kept|]
  {
    assert (kept + [p])[..|kept|] == kept;
  }

  /** x[u, v] = model.addVar(...): the new variable's handle is the count so far. */
  method AddRepVar(m0: Model, x0: map<Pair, Handle>, p: Pair) returns (model: Model, x: map<Pair, Handle>)
    ensures model == m0.(vars := m0.vars + [RepVar(p)]) && x == x0[p := |m0.vars|]
  {
    assert |RepVar(p).name| > 1;
    x := x0[p := |m0.vars|];
    model := m0.AddVar(RepVar(p));
  }

  /** The loop over itertools.product(graph.nodes, graph.nodes) that creates x. */
  method AddRepVars(name: string, g: Graph) returns (model: Model, x: map<Pair, Handle>)
    ensures model == Model(name, RepVars(Pairs(g)), {}, [], Minimize) && x == Index(Pairs(g))
  {
    var ps := Product(g.n, g.n);
    model := NewModel(name);
    x := map[];
    for k := 0 to |ps|
      invariant model == Model(name, RepVars(KeptPairs(g, ps[..k])), {}, [], Minimize)
      invariant x == Index(KeptPairs(g, ps[..k]))
    {
      var p := ps[k];
      ghost var kept := KeptPairs(g, ps[..k]);
      KeptStep(g, ps, k);
      if !HasEdge(g, p.0, p.1) || p.0 == p.1 {
        ghost var next := kept + [p];
        assert KeptPairs(g, ps[..k + 1]) == next;
        RepVarsSnoc(kept, p);
        IndexSnoc(kept, p);
        assert |model.vars| == |kept|;
        model, x := AddRepVar(model, x, p);
        assert x == Index(next);
      } else {
        assert KeptPairs(g, ps[..k + 1]) == kept;
      }
    }
    assert ps[..|ps|] == ps;
  }

  lemma {:induction false} ClosedMembers(g: Graph, v: nat, k: nat)
    ensures forall u: nat :: u in Closed(g, v, k) <==> u < k && InClosed(g, v, u)
  {
    if k > 0 {
      ClosedMembers(g, v, k - 1);
    }
  }

  /** Every u of N̄[v] has a variable x[u, v]. */
  lemma ClosedKeys(g: Graph, v: nat)
    requires v < g.n
    ensures forall i :: 0 <= i < |Closed(g, v, g.n)| ==>
              (Closed(g, v, g.n)[i], v) in Index(Pairs(g)) && Lookup(Index(Pairs(g)), (Closed(g, v, g.n)[i], v)) < |Pairs(g)|
  {
    var us := Closed(g, v, g.n);
    ClosedMembers(g, v, g.n);
    forall i | 0 <= i < |us|
      ensures (us[i], v) in Index(Pairs(g)) && Lookup(Index(Pairs(g)), (us[i], v)) < |Pairs(g)|
    {
      assert us[i] in us;
      PairKey(g, (us[i], v));
    }
  }

  /** A non-neighbour w of u has a variable x[u, w], and u has x[u, u]. */
  lemma OpenKeys(g: Graph, u: nat, w: nat)
    requires u < g.n && InOpen(g, u, w)
    ensures (u, w) in Index(Pairs(g)) && Lookup(Index(Pairs(g)), (u, w)) < |Pairs(g)|
    ensures (u, u) in Index(Pairs(g)) && Lookup(Index(Pairs(g)), (u, u)) < |Pairs(g)|
  {
    PairKey(g, (u, w));
    PairKey(g, (u, u));
  }

  method AddCoverConss(m0: Model, g: Graph, x: map<Pair, Handle>) returns (model: Model)
    requires x == Index(Pairs(g))
    ensures model == m0.(conss := m0.conss + CoverConss(x, g))
  {
    model := m0;
    for v := 0 to g.n
      invariant model == m0.(conss := m0.conss + CoverConss(x, g)[..v])
    {
      var us := Closed(g, v, g.n);
      ClosedKeys(g, v);
      var hs := seq(|us|, i requires 0 <= i < |us| => x[(us[i], v)]);
      assert hs == RepColumn(x, us, v);
      model := model.AddCons(Cons(Quicksum(UnitTerms(hs)), Ge, 1.0));
      assert CoverConss(x, g)[..v + 1] == CoverConss(x, g)[..v] + [CoverCons(x, g, v)];
    }
  }

  method AddSepBlock(m0: Model, g: Graph, x: map<Pair, Handle>, u: nat) returns (model: Model)
    requires x == Index(Pairs(g)) && u < g.n
    ensures model == m0.(conss := m0.conss + SepBlock(x, g, u, g.edges))
  {
    model := m0;
    for k := 0 to |g.edges|
      invariant model == m0.(conss := m0.conss + SepBlock(x, g, u, g.edges[..k]))
    {
      assert g.edges[..k + 1][..k] == g.edges[..k];
      var e := g.edges[k];
      if InOpen(g, u, e.0) && InOpen(g, u, e.1) {
        OpenKeys(g, u, e.0);
        OpenKeys(g, u, e.1);
        model := model.AddCons(Cons(Quicksum([(x[(u, e.0)], 1.0), (x[(u, e.1)], 1.0), (x[(u, u)], -1.0)]), Le, 0.0));
      }
    }
    assert g.edges[..|g.edges|] == g.edges;
  }

  method AddSepConss(m0: Model, g: Graph, x: map<Pair, Handle>) returns (model: Model)
    requires x == Index(Pairs(g))
    ensures model == m0.(conss := m0.conss + Flatten(SepBlocks(x, g)))
  {
    var bs := SepBlocks(x, g);
    model := m0;
    for u := 0 to g.n
      invariant model == m0.(conss := m0.conss + Flatten(bs[..u]))
    {
      var before := model;
      model := AddSepBlock(model, g, x, u);
      BlockAppended(m0, before, model, bs, u);
    }
    assert bs[..g.n] == bs;
  }

  method AddLinkBlock(m0: Model, g: Graph, x: map<Pair, Handle>, u: nat) returns (model: Model)
    requires x == Index(Pairs(g)) && u < g.n
    ensures model == m0.(conss := m0.conss + LinkBlock(x, g, u, g.n))
  {
    model := m0;
    for v := 0 to g.n
      invariant model == m0.(conss := m0.conss + LinkBlock(x, g, u, v))
    {
      if InOpen(g, u, v) {
        OpenKeys(g, u, v);
        model := model.AddCons(Cons(Quicksum([(x[(u, v)], 1.0), (x[(u, u)], -1.0)]), Le, 0.0));
      }
    }
  }

  method AddLinkConss(m0: Model, g: Graph, x: map<Pair, Handle>) returns (model: Model)
    requires x == Index(Pairs(g))
    ensures model == m0.(conss := m0.conss + Flatten(LinkBlocks(x, g)))
  {
    var bs := LinkBlocks(x, g);
    model := m0;
    for u := 0 to g.n
      invariant model == m0.(conss := m0.conss + Flatten(bs[..u]))
    {
      var before := model;
      model := AddLinkBlock(model, g, x, u);
      BlockAppended(m0, before, model, bs, u);
    }
    assert bs[..g.n] == bs;
  }

  // ---------------------------------------------------------------- counting and well-formedness

  lemma {:induction false} SepBlockSize(x: map<Pair, Handle>, g: Graph, u: nat, es: seq<Edge>)
    ensures |SepBlock(x, g, u, es)| <= |es|
  {
    if es != [] {
      SepBlockSize(x, g, u, es[..|es| - 1]);
    }
  }

  /** Blocks of at most c constraints each give at most c constraints per block. */
  lemma {:induction false} FlattenAtMost(bs: seq<seq<Cons>>, c: nat)
    requires forall k :: 0 <= k < |bs| ==> |bs[k]| <= c
    ensures |Flatten(bs)| <= c * |bs|
  {
    if bs != [] {
      FlattenAtMost(bs[..|bs| - 1], c);
    }
  }

  lemma RepCount(g: Graph)
    ensures g.n <= |RepConss(g)| <= g.n + g.n * |g.edges|
  {
    var x := Index(Pairs(g));
    var bs := SepBlocks(x, g);
    forall u | 0 <= u < g.n ensures |bs[u]| <= |g.edges| {
      SepBlockSize(x, g, u, g.edges);
    }
    FlattenAtMost(bs, |g.edges|);
  }

  /** Every handle of a constraint of node u names a variable. */
  lemma SepBounded(g: Graph, u: nat, es: seq<Edge>)
    requires u < g.n
    ensures forall j, h ::
              0 <= j < |SepBlock(Index(Pairs(g)), g, u, es)| && h in SepBlock(Index(Pairs(g)), g, u, es)[j].expr ==>
              h < |Pairs(g)|
    decreases |es|
  {
    var x := Index(Pairs(g));
    if es != [] {
      var e := es[|es| - 1];
      SepBounded(g, u, es[..|es| - 1]);
      if InOpen(g, u, e.0) && InOpen(g, u, e.1) {
        OpenKeys(g, u, e.0);
        OpenKeys(g, u, e.1);
        KeysOfTriple(Lookup(x, (u, e.0)), Lookup(x, (u, e.1)), Lookup(x, (u, u)), 1.0, 1.0, -1.0);
      }
    }
  }

  lemma LinkBounded(g: Graph, u: nat, k: nat)
    requires u < g.n
    ensures forall j, h ::
              0 <= j < |LinkBlock(Index(Pairs(g)), g, u, k)| && h in LinkBlock(Index(Pairs(g)), g, u, k)[j].expr ==>
              h < |Pairs(g)|
  {
    var x := Index(Pairs(g));
    if k > 0 {
      LinkBounded(g, u, k - 1);
      if InOpen(g, u, k - 1) {
        OpenKeys(g, u, k - 1);
        KeysOfPair(Lookup(x, (u, k - 1)), Lookup(x, (u, u)), 1.0, -1.0);
      }
    }
  }

  lemma CoverBounded(g: Graph, v: nat)
    requires v < g.n
    ensures forall h :: h in CoverCons(Index(Pairs(g)), g, v).expr ==> h < |Pairs(g)|
  {
    var x := Index(Pairs(g));
    var us := Closed(g, v, g.n);
    var hs := RepColumn(x, us, v);
    ClosedKeys(g, v);
    QuicksumKeys(UnitTerms(hs));
    forall h | h in TermHandles(UnitTerms(hs)) ensures h < |Pairs(g)| {
      var i :| 0 <= i < |hs| && UnitTerms(hs)[i].0 == h;
    }
  }

  lemma RepBounded(g: Graph)
    ensures forall j, h :: 0 <= j < |RepConss(g)| && h in RepConss(g)[j].expr ==> h < |Pairs(g)|
  {
    var x := Index(Pairs(g));
    var cover := CoverConss(x, g);
    var bs := SepBlocks(x, g);
    forall u | 0 <= u < g.n {
      SepBounded(g, u, g.edges);
    }
    FlattenBounded(bs, |Pairs(g)|);
    forall j, h | 0 <= j < |RepConss(g)| && h in RepConss(g)[j].expr ensures h < |Pairs(g)| {
      if j < g.n {
        assert RepConss(g)[j] == cover[j];
        CoverBounded(g, j);
      } else {
        assert RepConss(g)[j] == Flatten(bs)[j - g.n];
      }
    }
  }

  lemma RepWellFormed(model: Model, g: Graph)
    requires model.removed == {} && model.vars == RepVars(Pairs(g)) && model.conss == RepConss(g)
    ensures model.WellFormed()
    ensures g.n <= model.NumVars() <= g.n * g.n && g.n <= model.NumConss() <= g.n + g.n * |g.edges|
  {
    PairsCount(g);
    RepCount(g);
    RepBounded(g);
  }

  method Representatives(lg: Labelled<int>, name: string) returns (model: Model)
    requires IsLabelled(lg)
    ensures IsRepresentativesModel(model, lg, name) && model.WellFormed()
    ensures |lg.nodes| <= model.NumVars() <= |lg.nodes| * |lg.nodes|
    ensures |lg.nodes| <= model.NumConss() <= |lg.nodes| + |lg.nodes| * |lg.edges|
  {
    var g := Relabel(lg);
    var x;
    model, x := AddRepVars(name, g);
    ghost var cover := CoverConss(x, g);
    ghost var sep := Flatten(SepBlocks(x, g));
    model := AddCoverConss(model, g, x);
    assert model.conss == [] + cover == cover;
    model := AddSepConss(model, g, x);
    assert model.conss == cover + sep;
    model := model.SetSense(Minimize);
    assert RepConss(g) == cover + sep;
    RepWellFormed(model, g);
  }

  lemma LinkedWellFormed(model: Model, g: Graph)
    requires model.removed == {} && model.vars == RepVars(Pairs(g)) && model.conss == LinkedConss(g)
    ensures model.WellFormed() && g.n <= model.NumVars() <= g.n * g.n
  {
    PairsCount(g);
    LinkedBounded(g);
  }

  /** The corrected formulation: representatives followed by the links. */
  method RepresentativesLinked(lg: Labelled<int>, name: string) returns (model: Model)
    requires IsLabelled(lg)
    ensures IsLinkedModel(model, lg, name) && model.WellFormed()
    ensures |lg.nodes| <= model.NumVars() <= |lg.nodes| * |lg.nodes|
  {
    var g := Relabel(lg);
    model := Representatives(lg, name);
    model := AddLinkConss(model, g, Index(Pairs(g)));
    assert model.conss == LinkedConss(g);
    LinkedWellFormed(model, g);
  }

  lemma LinkedBounded(g: Graph)
    ensures forall j, h :: 0 <= j < |LinkedConss(g)| && h in LinkedConss(g)[j].expr ==> h < |Pairs(g)|
  {
    var x := Index(Pairs(g));
    var bs := LinkBlocks(x, g);
    RepBounded(g);
    forall u | 0 <= u < g.n {
      LinkBounded(g, u, g.n);
    }
    FlattenBounded(bs, |Pairs(g)|);
    forall j, h | 0 <= j < |LinkedConss(g)| && h in LinkedConss(g)[j].expr ensures h < |Pairs(g)| {
      if j < |RepConss(g)| {
        assert LinkedConss(g)[j] == RepConss(g)[j];
      } else {
        assert LinkedConss(g)[j] == Flatten(bs)[j - |RepConss(g)|];
      }
    }
  }
}
