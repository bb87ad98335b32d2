/**
 * geco/mips/graph_coloring/generic.py, set_covering: the formulation COV of
 * Jabrayilov and Mutzel. One binary variable x_s of objective 1 per given
 * subset s, and for every node v the constraint Σ_{s ∋ v} x_s >= 1; minimise.
 *
 * A subset is given as the sequence its iteration yields, which is also the
 * key tuple(s) of the dictionary x. The dictionary comprehension creates a
 * variable for every entry of the subset list but keeps, for a repeated
 * subset, only the handle of its last occurrence: the earlier copies are
 * variables no constraint mentions, and the cover sum of a node visits the
 * surviving handle once per copy.
 */
module ColoringSetCovering {
  import opened Common
  import opened Mip
  import opened Graphs
  import opened Coloring
  import Naming

  type Subset = seq<int>

  // ---------------------------------------------------------------- the variables

  /** The items of a subset, as a set repr prints them: "0, 1, 2". */
  function JoinItems(s: Subset): string {
    if |s| <= 1 then (if s == [] then "" else Naming.IntToString(s[0]))
    else JoinItems(s[..|s| - 1]) + ", " + Naming.IntToString(s[|s| - 1])
  }

  /** f"x_{s}" for a Python set s: "x_{0, 1}", or "x_set()" when s is empty. */
  function CovName(s: Subset): (name: string)
    ensures |name| > 2 && name[..2] == "x_"
  {
    "x_" + (if s == [] then "set()" else "{" + JoinItems(s) + "}")
  }

  function CovVar(s: Subset): Var {
    BinaryVar(CovName(s), 1.0)
  }

  function CovVars(ss: seq<Subset>): (vs: seq<Var>)
    ensures |vs| == |ss| && forall k :: 0 <= k < |ss| ==> vs[k] == CovVar(ss[k])
  {
    seq(|ss|, k requires 0 <= k < |ss| => CovVar(ss[k]))
  }

  /** The dictionary x after the comprehension: each key to the handle of its last occurrence. */
  function CovIndex(ss: seq<Subset>): map<Subset, Handle> {
    if ss == [] then map[] else CovIndex(ss[..|ss| - 1])[ss[|ss| - 1] := |ss| - 1]
  }

  /** Entry j of ss is the last occurrence of its subset: its variable is the one x keeps. */
  predicate Kept(ss: seq<Subset>, j: nat) {
    j < |ss| && forall i :: j < i < |ss| ==> ss[i] != ss[j]
  }

  /** The keys of x are the subsets, and each is sent to its last occurrence. */
  lemma {:induction false} CovIndexMembers(ss: seq<Subset>)
    ensures forall s :: s in CovIndex(ss) <==> s in ss
    ensures forall s :: s in CovIndex(ss) ==> Kept(ss, CovIndex(ss)[s]) && ss[CovIndex(ss)[s]] == s
  {
    if ss != [] {
      var init := ss[..|ss| - 1];
      CovIndexMembers(init);
      assert ss == init + [ss[|ss| - 1]];
      forall s | s in CovIndex(ss) ensures Kept(ss, CovIndex(ss)[s]) && ss[CovIndex(ss)[s]] == s {
        if s != ss[|ss| - 1] {
          var j := CovIndex(init)[s];
          assert Kept(init, j) && init[j] == s;
        }
      }
    }
  }

  /** A kept entry is what x holds for its subset. */
  lemma KeptIsIndexed(ss: seq<Subset>, j: nat)
    requires Kept(ss, j)
    ensures ss[j] in CovIndex(ss) && CovIndex(ss)[ss[j]] == j
  {
    CovIndexMembers(ss);
    assert ss[j] in ss;
    var i := CovIndex(ss)[ss[j]];
    assert ss[i] == ss[j] && Kept(ss, i);
  }

  /** x[s], for a subset s of the list. */
  function Key(ss: seq<Subset>, s: Subset): Handle {
    if s in CovIndex(ss) then CovIndex(ss)[s] else 0
  }

  // ---------------------------------------------------------------- the constraints

  /** The handles x[tuple(s)] for the first k subsets s that contain v, in order, repeats included. */
  function CovHandles(x: map<Subset, Handle>, ss: seq<Subset>, v: nat, k: nat): seq<Handle>
    requires k <= |ss|
  {
    if k == 0 then []
    else CovHandles(x, ss, v, k - 1) + (if v in ss[k - 1] && ss[k - 1] in x then [x[ss[k - 1]]] else [])
  }

  /** Σ_{s ∋ v} x_s >= 1 */
  function CovCons(ss: seq<Subset>, v: nat): Cons {
    Cons(Quicksum(UnitTerms(CovHandles(CovIndex(ss), ss, v, |ss|))), Ge, 1.0)
  }

  function CovConss(ss: seq<Subset>, n: nat): (cs: seq<Cons>)
    ensures |cs| == n && forall v :: 0 <= v < n ==> cs[v] == CovCons(ss, v)
  {
    seq(n, v requires 0 <= v < n => CovCons(ss, v))
  }

  /** The model set_covering(graph, subsets, name) returns. */
  ghost predicate IsSetCoveringModel(model: Model, lg: Labelled<int>, ss: seq<Subset>, name: string) {
    IsLabelled(lg) &&
    model.name == name && model.removed == {} && model.sense == Minimize &&
    model.vars == CovVars(ss) && model.conss == CovConss(ss, |lg.nodes|)
  }

  // ---------------------------------------------------------------- building

  lemma CovSnoc(ss: seq<Subset>, k: nat)
    requires k < |ss|
    ensures CovVars(ss[..k + 1]) == CovVars(ss[..k]) + [CovVar(ss[k])]
    ensures CovIndex(ss[..k + 1]) == CovIndex(ss[..k])[ss[k] := k]
  {
    assert ss[..k + 1][..k] == ss[..k];
  }

  method AddCovVar(m0: Model, x0: map<Subset, Handle>, s: Subset) returns (model: Model, x: map<Subset, Handle>)
    ensures model == m0.(vars := m0.vars + [CovVar(s)]) && x == x0[s := |m0.vars|]
  {
    x := x0[s := |m0.vars|];
    model := m0.AddVar(CovVar(s));
  }

  method AddCovVars(name: string, ss: seq<Subset>) returns (model: Model, x: map<Subset, Handle>)
    ensures model == NewModel(name).(vars := CovVars(ss)) && x == CovIndex(ss)
  {
    model := NewModel(name);
    x := map[];
    for k := 0 to |ss|
      invariant model == NewModel(name).(vars := CovVars(ss[..k])) && x == CovIndex(ss[..k])
    {
      CovSnoc(ss, k);
      model, x := AddCovVar(model, x, ss[k]);
    }
    assert ss[..|ss|] == ss;
  }

  /** The loop of the generator expression inside quicksum(x[tuple(s)] for s in subsets if v in s). */
  method CoveringHandles(x: map<Subset, Handle>, ss: seq<Subset>, v: nat) returns (hs: seq<Handle>)
    requires x == CovIndex(ss)
    ensures hs == CovHandles(x, ss, v, |ss|)
  {
    CovIndexMembers(ss);
    hs := [];
    for k := 0 to |ss|
      invariant hs == CovHandles(x, ss, v, k)
    {
      assert ss[k] in x;
      if v in ss[k] {
        hs := hs + [x[ss[k]]];
      }
    }
  }

  method AddCovConss(m0: Model, ss: seq<Subset>, x: map<Subset, Handle>, n: nat) returns (model: Model)
    requires x == CovIndex(ss)
    ensures model == m0.(conss := m0.conss + CovConss(ss, n))
  {
    model := m0;
    for v := 0 to n
      invariant model == m0.(conss := m0.conss + CovConss(ss, n)[..v])
    {
      var hs := CoveringHandles(x, ss, v);
      model := model.AddCons(Cons(Quicksum(UnitTerms(hs)), Ge, 1.0));
      assert CovConss(ss, n)[..v + 1] == CovConss(ss, n)[..v] + [CovCons(ss, v)];
    }
  }

  /** The handles a cover sum mentions are kept entries. */
  lemma {:induction false} CovHandlesMembers(ss: seq<Subset>, v: nat, k: nat)
    requires k <= |ss|
    ensures forall h :: h in CovHandles(CovIndex(ss), ss, v, k) <==>
              exists i :: 0 <= i < k && v in ss[i] && h == Key(ss, ss[i])
  {
    CovIndexMembers(ss);
    if k > 0 {
      CovHandlesMembers(ss, v, k - 1);
      assert ss[k - 1] in ss;
    }
  }

  lemma CovWellFormed(model: Model, ss: seq<Subset>, n: nat)
    requires model.removed == {} && model.vars == CovVars(ss) && model.conss == CovConss(ss, n)
    ensures model.WellFormed()
  {
    CovIndexMembers(ss);
    forall j, h | 0 <= j < n && h in model.conss[j].expr ensures model.IsLive(h) {
      var hs := CovHandles(CovIndex(ss), ss, j, |ss|);
      QuicksumUnit(hs);
      CovHandlesMembers(ss, j, |ss|);
      assert h in hs;
      var i :| 0 <= i < |ss| && j in ss[i] && h == Key(ss, ss[i]);
      assert ss[i] in ss;
    }
  }

  /** set_covering(graph, subsets, name): |subsets| variables and one constraint per node. */
  method SetCovering(lg: Labelled<int>, ss: seq<Subset>, name: string) returns (model: Model)
    requires IsLabelled(lg)
    ensures IsSetCoveringModel(model, lg, ss, name) && model.WellFormed()
    ensures model.NumVars() == |ss| && model.NumConss() == |lg.nodes|
  {
    var g := Relabel(lg);
    var x;
    model, x := AddCovVars(name, ss);
    model := AddCovConss(model, ss, x, g.n);
    assert model.conss == CovConss(ss, g.n);
    model := model.SetSense(Minimize);
    CovWellFormed(model, ss, g.n);
  }

  // ---------------------------------------------------------------- what a solution means

  /** Some subset that contains v has its kept variable at one. */
  predicate CoveredAt(ss: seq<Subset>, x: seq<int>, v: nat) {
    exists j :: 0 <= j < |x| && Kept(ss, j) && x[j] == 1 && v in ss[j]
  }

  /** Every node 0, ..., n - 1 lies in a chosen subset. */
  predicate CoveredAll(ss: seq<Subset>, n: nat, x: seq<int>) {
    forall v :: 0 <= v < n ==> CoveredAt(ss, x, v)
  }

  /** A count of picked entries is positive exactly when some entry is picked. */
  lemma {:induction false} PicksPositive(hs: seq<Handle>, x: seq<int>)
    ensures Picks(hs, x) >= 1 <==> exists i :: 0 <= i < |hs| && hs[i] < |x| && x[hs[i]] == 1
  {
    if hs != [] {
      var init := hs[..|hs| - 1];
      PicksPositive(init, x);
      assert forall i :: 0 <= i < |init| ==> init[i] == hs[i];
    }
  }

  /** The cover constraint of v holds exactly when v lies in a chosen subset. */
  lemma CovConsMeaning(ss: seq<Subset>, v: nat, x: seq<int>)
    requires Binary01(x) && |x| == |ss|
    ensures Satisfies(CovCons(ss, v), x) <==> CoveredAt(ss, x, v)
  {
    var hs := CovHandles(CovIndex(ss), ss, v, |ss|);
    EvalUnitTerms(hs, x);
    PicksPositive(hs, x);
    CovHandlesMembers(ss, v, |ss|);
    CovIndexMembers(ss);
    if Satisfies(CovCons(ss, v), x) {
      var i :| 0 <= i < |hs| && hs[i] < |x| && x[hs[i]] == 1;
      assert hs[i] in hs;
      var k :| 0 <= k < |ss| && v in ss[k] && hs[i] == Key(ss, ss[k]);
      assert ss[k] in ss;
      assert Kept(ss, hs[i]) && v in ss[hs[i]];
    }
    if CoveredAt(ss, x, v) {
      var j :| 0 <= j < |x| && Kept(ss, j) && x[j] == 1 && v in ss[j];
      KeptIsIndexed(ss, j);
      assert j in hs;
    }
  }

  lemma CovConssMeaning(ss: seq<Subset>, n: nat, x: seq<int>)
    requires Binary01(x) && |x| == |ss|
    ensures SatisfiesAll(CovConss(ss, n), x) <==> CoveredAll(ss, n, x)
  {
    forall v | 0 <= v < n ensures Satisfies(CovConss(ss, n)[v], x) <==> CoveredAt(ss, x, v) {
      CovConsMeaning(ss, v, x);
    }
  }

  function Ones(ss: seq<Subset>): (r: seq<real>)
    ensures |r| == |ss| && forall k :: 0 <= k < |ss| ==> r[k] == 1.0
  {
    seq(|ss|, k requires 0 <= k < |ss| => 1.0)
  }

  /** The positions at or after i that a 0/1 assignment sets to one. */
  function OnesFrom(x: seq<int>, i: nat): set<nat>
    decreases |x| - i
  {
    if i >= |x| then {} else (if x[i] == 1 then {i} else {}) + OnesFrom(x, i + 1)
  }

  lemma {:induction false} OnesMembers(x: seq<int>, i: nat)
    ensures forall k :: k in OnesFrom(x, i) <==> i <= k < |x| && x[k] == 1
    decreases |x| - i
  {
    if i < |x| {
      OnesMembers(x, i + 1);
    }
  }

  /** The objective Σ x_s of a 0/1 assignment is the number of subsets it chooses. */
  lemma {:induction false} CountOnes(ss: seq<Subset>, x: seq<int>, i: nat)
    requires |x| == |ss| && Binary01(x)
    ensures WeightedFrom(Ones(ss), x, i) == |OnesFrom(x, i)| as real
    decreases |x| - i
  {
    if i < |x| {
      CountOnes(ss, x, i + 1);
      OnesStep(ss, x, i);
    }
  }

  lemma OnesStep(ss: seq<Subset>, x: seq<int>, i: nat)
    requires |x| == |ss| && Binary01(x) && i < |x|
    ensures WeightedFrom(Ones(ss), x, i) == WeightedFrom(Ones(ss), x, i + 1) + if x[i] == 1 then 1.0 else 0.0
    ensures |OnesFrom(x, i)| == |OnesFrom(x, i + 1)| + if x[i] == 1 then 1 else 0
  {
    OnesMembers(x, i + 1);
    assert i !in OnesFrom(x, i + 1);
    assert x[i] == 0 || x[i] == 1;
  }

  lemma CovVarsObjs(ss: seq<Subset>, model: Model)
    requires model.removed == {} && model.vars == CovVars(ss)
    ensures BinaryObjs(model, Ones(ss))
  {
  }

  /** A set-covering model accepts exactly the 0/1 choices covering every node; it pays one per chosen subset. */
  lemma SetCoveringFeasibleIff(model: Model, lg: Labelled<int>, ss: seq<Subset>, name: string, x: seq<int>)
    requires IsSetCoveringModel(model, lg, ss, name)
    ensures Feasible(model, x) <==> |x| == |ss| && Binary01(x) && CoveredAll(ss, |lg.nodes|, x)
    ensures Feasible(model, x) ==> Objective(model, x) == |OnesFrom(x, 0)| as real
  {
    CovVarsObjs(ss, model);
    BinaryObjsFeasible(model, Ones(ss), x);
    if |x| == |ss| && Binary01(x) {
      CovConssMeaning(ss, |lg.nodes|, x);
      BinaryObjsObjective(model, Ones(ss), x, 0);
      CountOnes(ss, x, 0);
    }
  }

  // ---------------------------------------------------------------- the optimum

  /** The positions I pick subsets of ss that together hold every node below n. */
  ghost predicate IsCover(ss: seq<Subset>, n: nat, I: set<nat>) {
    (forall j :: j in I ==> j < |ss|) && forall v :: 0 <= v < n ==> InSome(ss, I, v)
  }

  /** Some subset at a position of I holds v. */
  ghost predicate InSome(ss: seq<Subset>, I: set<nat>, v: nat) {
    exists j :: j in I && j < |ss| && v in ss[j]
  }

  /** k subsets suffice to cover the nodes below n, and no fewer do. */
  ghost predicate MinCover(ss: seq<Subset>, n: nat, k: nat) {
    (exists I :: IsCover(ss, n, I) && |I| == k) && forall I :: IsCover(ss, n, I) ==> k <= |I|
  }

  /** The subsets a feasible assignment chooses form a cover. */
  lemma ChosenCover(ss: seq<Subset>, n: nat, x: seq<int>)
    requires |x| == |ss| && CoveredAll(ss, n, x)
    ensures IsCover(ss, n, OnesFrom(x, 0))
  {
    OnesMembers(x, 0);
    forall v | 0 <= v < n ensures InSome(ss, OnesFrom(x, 0), v) {
      assert CoveredAt(ss, x, v);
      var j :| 0 <= j < |x| && Kept(ss, j) && x[j] == 1 && v in ss[j];
      assert j in OnesFrom(x, 0) && v in ss[j];
    }
  }

  /** The assignment setting exactly the positions of s to one. */
  function Indicate(m: nat, s: set<nat>): (x: seq<int>)
    ensures |x| == m && Binary01(x)
    ensures forall k :: 0 <= k < m ==> (x[k] == 1 <==> k in s)
  {
    seq(m, k requires 0 <= k < m => if k in s then 1 else 0)
  }

  /** The kept entries standing for the subsets a cover picks. */
  ghost function KeptOf(ss: seq<Subset>, I: set<nat>): set<nat>
    requires forall j :: j in I ==> j < |ss|
  {
    set j | j in I :: Key(ss, ss[j])
  }

  /** An image is no larger than the set it is taken of. */
  lemma {:induction false} ImageCard(ss: seq<Subset>, I: set<nat>)
    requires forall j :: j in I ==> j < |ss|
    ensures |KeptOf(ss, I)| <= |I|
    decreases |I|
  {
    CovIndexMembers(ss);
    if I != {} {
      var a :| a in I;
      var rest := I - {a};
      ImageCard(ss, rest);
      assert ss[a] in ss;
      assert KeptOf(ss, I) == KeptOf(ss, rest) + {Key(ss, ss[a])};
    }
  }

  /** A cover gives a feasible assignment that pays no more than its size. */
  lemma CoverChosen(ss: seq<Subset>, n: nat, I: set<nat>)
    requires IsCover(ss, n, I)
    ensures var x := Indicate(|ss|, KeptOf(ss, I));
            CoveredAll(ss, n, x) && |OnesFrom(x, 0)| <= |I|
  {
    var K := KeptOf(ss, I);
    var x := Indicate(|ss|, K);
    CovIndexMembers(ss);
    forall v | 0 <= v < n ensures CoveredAt(ss, x, v) {
      assert InSome(ss, I, v);
      var j :| j in I && j < |ss| && v in ss[j];
      assert ss[j] in ss;
      var h := Key(ss, ss[j]);
      assert h in K && Kept(ss, h) && ss[h] == ss[j];
    }
    OnesMembers(x, 0);
    assert OnesFrom(x, 0) == K;
    ImageCard(ss, I);
  }

  /** The optimum of set_covering is the size of a smallest cover of the nodes by the given subsets. */
  lemma SetCoveringOptimum(model: Model, lg: Labelled<int>, ss: seq<Subset>, name: string, r: real)
    requires IsSetCoveringModel(model, lg, ss, name)
    ensures IsOptimum(model, r) <==> exists k: nat :: r == k as real && MinCover(ss, |lg.nodes|, k)
  {
    var n := |lg.nodes|;
    if IsOptimum(model, r) {
      var x :| Feasible(model, x) && Objective(model, x) == r;
      SetCoveringFeasibleIff(model, lg, ss, name, x);
      ChosenCover(ss, n, x);
      var c := |OnesFrom(x, 0)|;
      forall I | IsCover(ss, n, I) ensures c <= |I| {
        CoverChosen(ss, n, I);
        var y := Indicate(|ss|, KeptOf(ss, I));
        SetCoveringFeasibleIff(model, lg, ss, name, y);
        assert Better(model, r, Objective(model, y));
      }
      assert MinCover(ss, n, c);
    }
    forall m: nat | r == m as real && MinCover(ss, n, m) ensures IsOptimum(model, r) {
      MinCoverIsOptimum(model, lg, ss, name, m);
    }
  }

  /** A smallest cover gives the optimum. */
  lemma MinCoverIsOptimum(model: Model, lg: Labelled<int>, ss: seq<Subset>, name: string, m: nat)
    requires IsSetCoveringModel(model, lg, ss, name) && MinCover(ss, |lg.nodes|, m)
    ensures IsOptimum(model, m as real)
  {
    var n := |lg.nodes|;
    var I :| IsCover(ss, n, I) && |I| == m;
    CoverChosen(ss, n, I);
    var y := Indicate(|ss|, KeptOf(ss, I));
    SetCoveringFeasibleIff(model, lg, ss, name, y);
    ChosenCover(ss, n, y);
    assert Feasible(model, y) && Objective(model, y) == m as real;
    forall x | Feasible(model, x) ensures Better(model, m as real, Objective(model, x)) {
      SetCoveringFeasibleIff(model, lg, ss, name, x);
      ChosenCover(ss, n, x);
    }
  }

  // ---------------------------------------------------------------- colourings

  /** No subset holds both ends of an edge: every subset is an independent set. */
  predicate Independent(g: Graph, ss: seq<Subset>) {
    forall j, k :: 0 <= j < |ss| && 0 <= k < |g.edges| ==> !(g.edges[k].0 in ss[j] && g.edges[k].1 in ss[j])
  }

  /** A chosen subset holding v. */
  ghost function ClassOf(ss: seq<Subset>, x: seq<int>, v: nat): (j: nat)
    requires CoveredAt(ss, x, v)
    ensures 0 <= j < |x| && Kept(ss, j) && x[j] == 1 && v in ss[j]
  {
    var j :| 0 <= j < |x| && Kept(ss, j) && x[j] == 1 && v in ss[j]; j
  }

  /** Colouring each node by a chosen independent set that holds it is proper. */
  lemma CoverColouring(g: Graph, ss: seq<Subset>, x: seq<int>) returns (col: seq<nat>)
    requires IsGraph(g) && Independent(g, ss) && CoveredAll(ss, g.n, x)
    ensures Proper(g, col) && ToSet(col) <= OnesFrom(x, 0)
  {
    col := seq(g.n, v requires 0 <= v < g.n => ClassOf(ss, x, v));
    OnesMembers(x, 0);
    forall k | 0 <= k < |g.edges| ensures col[g.edges[k].0] != col[g.edges[k].1] {
      var e := g.edges[k];
      assert e.0 in ss[col[e.0]] && e.1 in ss[col[e.1]];
    }
  }

  /**
   * With independent subsets, every feasible choice pays at least the
   * chromatic number: the subsets it chooses colour the graph.
   */
  lemma SetCoveringAtLeastChromatic(model: Model, lg: Labelled<int>, ss: seq<Subset>, name: string,
                                    x: seq<int>, k: nat)
    requires IsSetCoveringModel(model, lg, ss, name) && Independent(Relabel(lg), ss)
    requires Feasible(model, x) && Chromatic(Relabel(lg), k)
    ensures k as real <= Objective(model, x)
  {
    var g := Relabel(lg);
    RelabelIsGraph(lg);
    SetCoveringFeasibleIff(model, lg, ss, name, x);
    var col := CoverColouring(g, ss, x);
    SubsetCard(ToSet(col), OnesFrom(x, 0));
  }
}
