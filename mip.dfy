/**
 * The mixed-integer program that every formulation builds, as a value: the
 * variables in creation order (a variable's handle is its creation index),
 * the handles removed with delVar, the linear constraints in creation order
 * and the objective sense. A constraint's left side is a map from handle to
 * coefficient, the way a pyscipopt expression maps terms to coefficients;
 * constants are moved to the right-hand side.
 *
 * The second half gives the model a meaning: when an integer assignment is
 * feasible, what objective value it attains, and what an optimum is. The
 * formulations' semantic lemmas are stated with these.
 */
module Mip {
  import opened Common
  import Naming

  datatype VarType = Binary | Integer

  datatype Var = Var(name: string, lb: real, ub: Option<real>, obj: real, vtype: VarType)

  /** addVar(vtype="B", lb=0, ub=1) */
  function BinaryVar(name: string, obj: real): Var {
    Var(name, 0.0, Some(1.0), obj, Binary)
  }

  /** addVar(vtype="I", lb=0, ub=None) */
  function IntegerVar(name: string, obj: real): Var {
    Var(name, 0.0, None, obj, Integer)
  }

  type Handle = nat
  type Expr = map<Handle, real>
  type Term = (Handle, real)

  datatype Rel = Le | Ge | Eq

  datatype Cons = Cons(expr: Expr, rel: Rel, rhs: real)

  datatype Sense = Minimize | Maximize

  datatype Model = Model(name: string, vars: seq<Var>, removed: set<Handle>, conss: seq<Cons>, sense: Sense)
  {
    /** SCIP's variable count: created minus deleted. */
    function NumVars(): int { |vars| - |removed| }

    function NumConss(): nat { |conss| }

    predicate IsLive(h: Handle) { h < |vars| && h !in removed }

    /** addVar; an empty name becomes "x<count+1>" as pyscipopt does. */
    function AddVar(v: Var): Model {
      var named := if v.name == "" then v.(name := "x" + Naming.IntToString(NumVars() + 1)) else v;
      this.(vars := vars + [named])
    }

    function AddCons(c: Cons): Model { this.(conss := conss + [c]) }

    function SetSense(s: Sense): Model { this.(sense := s) }

    function DelVar(h: Handle): Model { this.(removed := removed + {h}) }

    /** Every constraint mentions only variables that exist and were not deleted. */
    predicate WellFormed() {
      (forall h :: h in removed ==> h < |vars|) &&
      forall k, h :: 0 <= k < |conss| && h in conss[k].expr ==> IsLive(h)
    }
  }

  /** Model(name): SCIP starts out empty and minimising. */
  function NewModel(name: string): Model {
    Model(name, [], {}, [], Minimize)
  }

  // ---------------------------------------------------------------- expressions

  function Coef(e: Expr, h: Handle): real {
    if h in e then e[h] else 0.0
  }

  /** e + c*x_h, keeping a term whose coefficient cancels to zero. */
  function Plus(e: Expr, h: Handle, c: real): Expr {
    e[h := Coef(e, h) + c]
  }

  /** quicksum over terms, added left to right. */
  function Quicksum(ts: seq<Term>): Expr {
    if ts == [] then map[] else Plus(Quicksum(ts[..|ts| - 1]), ts[|ts| - 1].0, ts[|ts| - 1].1)
  }

  /** Σ x_h for h in s. */
  function Indicator(s: set<Handle>): Expr {
    map h | h in s :: 1.0
  }

  /** Σ x_h over a list of handles in which a handle may repeat. */
  function UnitSum(hs: multiset<Handle>): Expr {
    map h | h in hs :: hs[h] as real
  }

  /** The handles a term list mentions. */
  function TermHandles(ts: seq<Term>): set<Handle> {
    set k | 0 <= k < |ts| :: ts[k].0
  }

  /** The list of unit terms over hs. */
  function UnitTerms(hs: seq<Handle>): (ts: seq<Term>)
    ensures |ts| == |hs| && forall k :: 0 <= k < |hs| ==> ts[k] == (hs[k], 1.0)
  {
    seq(|hs|, k requires 0 <= k < |hs| => (hs[k], 1.0))
  }

  lemma {:induction false} QuicksumKeys(ts: seq<Term>)
    ensures Quicksum(ts).Keys == TermHandles(ts)
  {
    if ts != [] {
      var init := ts[..|ts| - 1];
      QuicksumKeys(init);
      assert TermHandles(ts) == TermHandles(init) + {ts[|ts| - 1].0} by {
        forall h | h in TermHandles(ts) ensures h in TermHandles(init) + {ts[|ts| - 1].0} {
          var k :| 0 <= k < |ts| && ts[k].0 == h;
          if k < |ts| - 1 { assert init[k] == ts[k]; }
        }
        forall h | h in TermHandles(init) ensures h in TermHandles(ts) {
          var k :| 0 <= k < |init| && init[k].0 == h;
          assert ts[k] == init[k];
        }
      }
    }
  }

  /** Adding unit terms one by one yields each handle with its multiplicity. */
  lemma {:induction false} QuicksumUnit(hs: seq<Handle>)
    ensures Quicksum(UnitTerms(hs)) == UnitSum(multiset(hs))
  {
    if hs != [] {
      var init := hs[..|hs| - 1];
      var last := hs[|hs| - 1];
      assert UnitTerms(hs)[..|hs| - 1] == UnitTerms(init);
      QuicksumUnit(init);
      assert hs == init + [last];
      assert multiset(hs) == multiset(init) + multiset{last};
    }
  }

  lemma UnitSumOfSet(s: seq<Handle>)
    requires Distinct(s)
    ensures UnitSum(multiset(s)) == Indicator(ToSet(s))
  {
    forall h | h in s ensures multiset(s)[h] == 1 {
      DistinctMultiplicity(s, h);
    }
  }

  lemma {:induction false} DistinctMultiplicity(s: seq<Handle>, h: Handle)
    requires Distinct(s) && h in s
    ensures multiset(s)[h] == 1
  {
    var init := s[..|s| - 1];
    assert s == init + [s[|s| - 1]];
    if s[|s| - 1] == h {
      assert h !in init;
      assert h !in multiset(init);
    } else {
      DistinctMultiplicity(init, h);
    }
  }

  // ---------------------------------------------------------------- semantics

  /** Σ_{i <= h < |x|} Coef(e, h) * x[h]. */
  function EvalFrom(e: Expr, x: seq<int>, i: nat): real
    decreases |x| - i
  {
    if i >= |x| then 0.0 else Coef(e, i) * (x[i] as real) + EvalFrom(e, x, i + 1)
  }

  /** The value of e under the assignment x (one integer per handle). */
  function Eval(e: Expr, x: seq<int>): real {
    EvalFrom(e, x, 0)
  }

  /** Σ c * x[h] over a term list, terms outside the assignment counting zero. */
  function TermsValue(ts: seq<Term>, x: seq<int>): real {
    if ts == [] then 0.0
    else TermsValue(ts[..|ts| - 1], x)
         + (if ts[|ts| - 1].0 < |x| then ts[|ts| - 1].1 * (x[ts[|ts| - 1].0] as real) else 0.0)
  }

  lemma {:induction false} EvalFromPlus(e: Expr, h: Handle, c: real, x: seq<int>, i: nat)
    ensures EvalFrom(Plus(e, h, c), x, i)
            == EvalFrom(e, x, i) + (if i <= h < |x| then c * (x[h] as real) else 0.0)
    decreases |x| - i
  {
    if i < |x| {
      EvalFromPlus(e, h, c, x, i + 1);
    }
  }

  lemma {:induction false} EvalFromEmpty(x: seq<int>, i: nat)
    ensures EvalFrom(map[], x, i) == 0.0
    decreases |x| - i
  {
    if i < |x| { EvalFromEmpty(x, i + 1); }
  }

  /** Evaluating a quicksum is summing its terms. */
  lemma {:induction false} EvalQuicksum(ts: seq<Term>, x: seq<int>)
    ensures Eval(Quicksum(ts), x) == TermsValue(ts, x)
  {
    if ts == [] {
      EvalFromEmpty(x, 0);
    } else {
      EvalQuicksum(ts[..|ts| - 1], x);
      EvalFromPlus(Quicksum(ts[..|ts| - 1]), ts[|ts| - 1].0, ts[|ts| - 1].1, x, 0);
    }
  }

  /** A quicksum with one more term, on a 0/1 entry of the assignment, gains c when that entry is one. */
  lemma EvalSnoc(ts: seq<Term>, h: Handle, c: real, x: seq<int>)
    requires h < |x| && (x[h] == 0 || x[h] == 1)
    ensures Eval(Quicksum(ts + [(h, c)]), x) == TermsValue(ts, x) + (if x[h] == 1 then c else 0.0)
  {
    EvalQuicksum(ts + [(h, c)], x);
    assert (ts + [(h, c)])[..|ts|] == ts;
  }

  /** The value of two term lists one after the other is the sum of their values. */
  lemma {:induction false} TermsValueConcat(a: seq<Term>, b: seq<Term>, x: seq<int>)
    ensures TermsValue(a + b, x) == TermsValue(a, x) + TermsValue(b, x)
    decreases |b|
  {
    if b == [] {
      assert a + b == a;
    } else {
      var n := |b| - 1;
      assert (a + b)[..|a| + n] == a + b[..n];
      TermsValueConcat(a, b[..n], x);
    }
  }

  predicate Binary01(x: seq<int>) {
    forall h :: 0 <= h < |x| ==> x[h] == 0 || x[h] == 1
  }

  /** The members of s that x sets to one. */
  function Chosen(s: set<Handle>, x: seq<int>): set<Handle> {
    set h | h in s && h < |x| && x[h] == 1
  }

  function ChosenFrom(s: set<Handle>, x: seq<int>, i: nat): set<Handle> {
    set h | h in s && i <= h < |x| && x[h] == 1
  }

  lemma {:induction false} EvalFromIndicator(s: set<Handle>, x: seq<int>, i: nat)
    requires Binary01(x)
    ensures EvalFrom(Indicator(s), x, i) == |ChosenFrom(s, x, i)| as real
    decreases |x| - i
  {
    if i >= |x| {
      assert ChosenFrom(s, x, i) == {};
    } else {
      EvalFromIndicator(s, x, i + 1);
      var here := if i in s && x[i] == 1 then {i} else {};
      assert ChosenFrom(s, x, i) == here + ChosenFrom(s, x, i + 1);
      assert here !! ChosenFrom(s, x, i + 1);
    }
  }

  /** For a 0/1 assignment, Σ_{h in s} x_h counts the chosen members of s. */
  lemma EvalIndicator(s: set<Handle>, x: seq<int>)
    requires Binary01(x)
    ensures Eval(Indicator(s), x) == |Chosen(s, x)| as real
  {
    EvalFromIndicator(s, x, 0);
    assert ChosenFrom(s, x, 0) == Chosen(s, x);
  }

  /** How many entries of hs (counted with repetition) x sets to one. */
  function Picks(hs: seq<Handle>, x: seq<int>): nat {
    if hs == [] then 0
    else Picks(hs[..|hs| - 1], x) + (if hs[|hs| - 1] < |x| && x[hs[|hs| - 1]] == 1 then 1 else 0)
  }

  /** When x sets no entry of hs to one, nothing is picked. */
  lemma {:induction false} PicksNone(hs: seq<Handle>, x: seq<int>)
    requires forall q :: 0 <= q < |hs| && hs[q] < |x| ==> x[hs[q]] != 1
    ensures Picks(hs, x) == 0
  {
    if hs != [] {
      var m := |hs| - 1;
      assert forall q :: 0 <= q < m ==> hs[..m][q] == hs[q];
      PicksNone(hs[..m], x);
    }
  }

  /** When x sets exactly the entry at position q of hs to one, one entry is picked. */
  lemma {:induction false} PicksOne(hs: seq<Handle>, x: seq<int>, q: nat)
    requires q < |hs| && hs[q] < |x| && x[hs[q]] == 1
    requires forall q' :: 0 <= q' < |hs| && q' != q && hs[q'] < |x| ==> x[hs[q']] != 1
    ensures Picks(hs, x) == 1
  {
    var m := |hs| - 1;
    assert forall q' :: 0 <= q' < m ==> hs[..m][q'] == hs[q'];
    if q == m {
      PicksNone(hs[..m], x);
    } else {
      PicksOne(hs[..m], x, q);
    }
  }

  /** For a 0/1 assignment, a quicksum of unit terms counts the picked entries. */
  lemma {:induction false} EvalUnitTerms(hs: seq<Handle>, x: seq<int>)
    requires Binary01(x)
    ensures Eval(Quicksum(UnitTerms(hs)), x) == Picks(hs, x) as real
  {
    TermsUnit(hs, x);
    EvalQuicksum(UnitTerms(hs), x);
  }

  lemma {:induction false} TermsUnit(hs: seq<Handle>, x: seq<int>)
    requires Binary01(x)
    ensures TermsValue(UnitTerms(hs), x) == Picks(hs, x) as real
  {
    if hs != [] {
      assert UnitTerms(hs)[..|hs| - 1] == UnitTerms(hs[..|hs| - 1]);
      TermsUnit(hs[..|hs| - 1], x);
    }
  }

  /** Terms of coefficient at most zero on a 0/1 assignment add up to at most zero. */
  lemma {:induction false} TermsNonPositive(ts: seq<Term>, x: seq<int>)
    requires Binary01(x) && forall q :: 0 <= q < |ts| ==> ts[q].1 <= 0.0
    ensures TermsValue(ts, x) <= 0.0
  {
    if ts != [] {
      TermsNonPositive(ts[..|ts| - 1], x);
    }
  }

  /** ... and to at most the coefficient of any one of them that x sets to one. */
  lemma {:induction false} TermsBelowPick(ts: seq<Term>, x: seq<int>, k: nat)
    requires Binary01(x) && forall q :: 0 <= q < |ts| ==> ts[q].1 <= 0.0
    requires k < |ts| && ts[k].0 < |x| && x[ts[k].0] == 1
    ensures TermsValue(ts, x) <= ts[k].1
  {
    var n := |ts| - 1;
    if k == n {
      TermsNonPositive(ts[..n], x);
    } else {
      TermsBelowPick(ts[..n], x, k);
    }
  }

  /** The list of terms c * x_h over hs. */
  function ScaledTerms(hs: seq<Handle>, c: real): (ts: seq<Term>)
    ensures |ts| == |hs| && forall k :: 0 <= k < |hs| ==> ts[k] == (hs[k], c)
  {
    seq(|hs|, k requires 0 <= k < |hs| => (hs[k], c))
  }

  /** c added n times: n * c without a product of two unknowns. */
  function Times(c: real, n: nat): real {
    if n == 0 then 0.0 else Times(c, n - 1) + c
  }

  /** For a 0/1 assignment, terms of one coefficient c add up to c once per picked entry. */
  lemma {:induction false} TermsScaled(hs: seq<Handle>, c: real, x: seq<int>)
    requires Binary01(x)
    ensures TermsValue(ScaledTerms(hs, c), x) == Times(c, Picks(hs, x))
  {
    if hs != [] {
      assert ScaledTerms(hs, c)[..|hs| - 1] == ScaledTerms(hs[..|hs| - 1], c);
      TermsScaled(hs[..|hs| - 1], c, x);
    }
  }

  /** The list of terms -x_h over hs. */
  function NegUnitTerms(hs: seq<Handle>): (ts: seq<Term>)
    ensures |ts| == |hs| && forall k :: 0 <= k < |hs| ==> ts[k] == (hs[k], -1.0)
  {
    seq(|hs|, k requires 0 <= k < |hs| => (hs[k], -1.0))
  }

  lemma {:induction false} TermsNegUnit(hs: seq<Handle>, x: seq<int>)
    requires Binary01(x)
    ensures TermsValue(NegUnitTerms(hs), x) == -(Picks(hs, x) as real)
  {
    if hs != [] {
      assert NegUnitTerms(hs)[..|hs| - 1] == NegUnitTerms(hs[..|hs| - 1]);
      TermsNegUnit(hs[..|hs| - 1], x);
    }
  }

  /** The terms cs[k] * x_{base + k}, for consecutive handles from base. */
  function LinearTerms(base: Handle, cs: seq<real>): (ts: seq<Term>)
    ensures |ts| == |cs| && forall k :: 0 <= k < |cs| ==> ts[k] == (base + k, cs[k])
  {
    seq(|cs|, k requires 0 <= k < |cs| => (base + k, cs[k]))
  }

  /** Σ_k cs[k] * x[base + k], entries outside the assignment counting zero. */
  function Dot(base: Handle, cs: seq<real>, x: seq<int>): real {
    if cs == [] then 0.0
    else Dot(base, cs[..|cs| - 1], x)
         + (if base + |cs| - 1 < |x| then cs[|cs| - 1] * (x[base + |cs| - 1] as real) else 0.0)
  }

  /** Evaluating the quicksum of consecutive terms is the dot product. */
  lemma {:induction false} EvalLinear(base: Handle, cs: seq<real>, x: seq<int>)
    ensures Eval(Quicksum(LinearTerms(base, cs)), x) == Dot(base, cs, x)
  {
    TermsLinear(base, cs, x);
    EvalQuicksum(LinearTerms(base, cs), x);
  }

  lemma {:induction false} TermsLinear(base: Handle, cs: seq<real>, x: seq<int>)
    ensures TermsValue(LinearTerms(base, cs), x) == Dot(base, cs, x)
  {
    if cs != [] {
      assert LinearTerms(base, cs)[..|cs| - 1] == LinearTerms(base, cs[..|cs| - 1]);
      TermsLinear(base, cs[..|cs| - 1], x);
    }
  }

  /** A linear sum mentions exactly the handles base .. base + |cs| - 1. */
  lemma LinearKeys(base: Handle, cs: seq<real>)
    ensures forall h :: h in Quicksum(LinearTerms(base, cs)) <==> base <= h < base + |cs|
  {
    QuicksumKeys(LinearTerms(base, cs));
    forall h | h in Quicksum(LinearTerms(base, cs)) ensures base <= h < base + |cs| {
      var k :| 0 <= k < |cs| && LinearTerms(base, cs)[k].0 == h;
    }
    forall h | base <= h < base + |cs| ensures h in TermHandles(LinearTerms(base, cs)) {
      assert LinearTerms(base, cs)[h - base].0 == h;
    }
  }

  /** quicksum(cs[k] * vars[base + k] for k ...), built term by term. */
  method LinearSum(base: Handle, cs: seq<real>) returns (e: Expr)
    ensures e == Quicksum(LinearTerms(base, cs))
  {
    e := map[];
    var k := 0;
    while k < |cs|
      invariant 0 <= k <= |cs|
      invariant e == Quicksum(LinearTerms(base, cs[..k]))
    {
      assert LinearTerms(base, cs[..k + 1])[..k] == LinearTerms(base, cs[..k]);
      e := Plus(e, base + k, cs[k]);
      k := k + 1;
    }
    assert cs[..k] == cs;
  }

  /** model.addVar for each variable of vs in turn; every name is given, so none is renamed. */
  method AddVars(m0: Model, vs: seq<Var>) returns (model: Model)
    requires forall k :: 0 <= k < |vs| ==> vs[k].name != ""
    ensures model == m0.(vars := m0.vars + vs)
  {
    model := m0;
    for k := 0 to |vs|
      invariant model == m0.(vars := m0.vars + vs[..k])
    {
      model := model.AddVar(vs[k]);
      assert m0.vars + vs[..k + 1] == (m0.vars + vs[..k]) + [vs[k]];
    }
    assert vs[..|vs|] == vs;
  }

  /** model.addCons for each constraint of cs in turn. */
  method AddConss(m0: Model, cs: seq<Cons>) returns (model: Model)
    ensures model == m0.(conss := m0.conss + cs)
  {
    model := m0;
    for k := 0 to |cs|
      invariant model == m0.(conss := m0.conss + cs[..k])
    {
      model := model.AddCons(cs[k]);
      assert m0.conss + cs[..k + 1] == (m0.conss + cs[..k]) + [cs[k]];
    }
    assert cs[..|cs|] == cs;
  }

  /** A nested loop of addCons calls: block after block. */
  method AddBlocks(m0: Model, bs: seq<seq<Cons>>) returns (model: Model)
    ensures model == m0.(conss := m0.conss + Flatten(bs))
  {
    model := m0;
    for k := 0 to |bs|
      invariant model == m0.(conss := m0.conss + Flatten(bs[..k]))
    {
      var next := AddConss(model, bs[k]);
      BlockAppended(m0, model, next, bs, k);
      model := next;
    }
    assert bs[..|bs|] == bs;
  }

  // Short explicit term lists: their handles and their values.

  lemma KeysOfTriple(a: Handle, b: Handle, c: Handle, ca: real, cb: real, cc: real)
    ensures Quicksum([(a, ca), (b, cb), (c, cc)]).Keys == {a, b, c}
  {
    QuicksumKeys([(a, ca), (b, cb), (c, cc)]);
    assert TermHandles([(a, ca), (b, cb), (c, cc)]) == {a, b, c} by {
      var ts: seq<Term> := [(a, ca), (b, cb), (c, cc)];
      assert ts[0].0 == a && ts[1].0 == b && ts[2].0 == c;
    }
  }

  lemma KeysOfPair(a: Handle, b: Handle, ca: real, cb: real)
    ensures Quicksum([(a, ca), (b, cb)]).Keys == {a, b}
  {
    QuicksumKeys([(a, ca), (b, cb)]);
    assert TermHandles([(a, ca), (b, cb)]) == {a, b} by {
      var ts: seq<Term> := [(a, ca), (b, cb)];
      assert ts[0].0 == a && ts[1].0 == b;
    }
  }

  lemma KeysOfSingle(a: Handle, ca: real)
    ensures Quicksum([(a, ca)]).Keys == {a}
  {
    QuicksumKeys([(a, ca)]);
    assert TermHandles([(a, ca)]) == {a} by {
      assert [(a, ca)][0].0 == a;
    }
  }

  lemma KeysOfQuad(a: Handle, b: Handle, c: Handle, d: Handle)
    ensures Quicksum([(a, 1.0), (b, 1.0), (c, 1.0), (d, 1.0)]).Keys == {a, b, c, d}
  {
    var ts: seq<Term> := [(a, 1.0), (b, 1.0), (c, 1.0), (d, 1.0)];
    QuicksumKeys(ts);
    assert TermHandles(ts) == {a, b, c, d} by {
      assert ts[0].0 == a && ts[1].0 == b && ts[2].0 == c && ts[3].0 == d;
    }
  }

  /** Four unit terms add up their entries, whether or not two of them share a handle. */
  lemma EvalQuad(a: Handle, b: Handle, c: Handle, d: Handle, x: seq<int>)
    requires a < |x| && b < |x| && c < |x| && d < |x|
    ensures Eval(Quicksum([(a, 1.0), (b, 1.0), (c, 1.0), (d, 1.0)]), x)
            == (x[a] + x[b] + x[c] + x[d]) as real
  {
    var ts: seq<Term> := [(a, 1.0), (b, 1.0), (c, 1.0), (d, 1.0)];
    EvalQuicksum(ts, x);
    assert ts[..3] == [(a, 1.0), (b, 1.0), (c, 1.0)] && ts[..3][..2] == [(a, 1.0), (b, 1.0)];
    assert ts[..3][..2][..1] == [(a, 1.0)] && ts[..3][..2][..1][..0] == [];
    assert TermsValue(ts[..3][..2][..1], x) == x[a] as real;
    assert TermsValue(ts[..3][..2], x) == (x[a] + x[b]) as real;
    assert TermsValue(ts[..3], x) == (x[a] + x[b] + x[c]) as real;
  }

  lemma EvalTriple(a: Handle, b: Handle, c: Handle, ca: real, cb: real, cc: real, x: seq<int>)
    requires a < |x| && b < |x| && c < |x|
    ensures Eval(Quicksum([(a, ca), (b, cb), (c, cc)]), x)
            == ca * (x[a] as real) + cb * (x[b] as real) + cc * (x[c] as real)
  {
    var ts: seq<Term> := [(a, ca), (b, cb), (c, cc)];
    EvalQuicksum(ts, x);
    assert ts[..2] == [(a, ca), (b, cb)] && ts[..2][..1] == [(a, ca)] && ts[..2][..1][..0] == [];
    assert TermsValue(ts[..2][..1], x) == ca * (x[a] as real);
    assert TermsValue(ts[..2], x) == ca * (x[a] as real) + cb * (x[b] as real);
  }

  lemma EvalPair(a: Handle, b: Handle, ca: real, cb: real, x: seq<int>)
    requires a < |x| && b < |x|
    ensures Eval(Quicksum([(a, ca), (b, cb)]), x) == ca * (x[a] as real) + cb * (x[b] as real)
  {
    var ts: seq<Term> := [(a, ca), (b, cb)];
    EvalQuicksum(ts, x);
    assert ts[..1] == [(a, ca)] && ts[..1][..0] == [];
    assert TermsValue(ts[..1], x) == ca * (x[a] as real);
  }

  lemma EvalSingle(a: Handle, ca: real, x: seq<int>)
    requires a < |x|
    ensures Eval(Quicksum([(a, ca)]), x) == ca * (x[a] as real)
  {
    EvalQuicksum([(a, ca)], x);
    assert |[(a, ca)][..0]| == 0;
  }

  predicate Satisfies(c: Cons, x: seq<int>) {
    var lhs := Eval(c.expr, x);
    match c.rel
    case Le => lhs <= c.rhs
    case Ge => lhs >= c.rhs
    case Eq => lhs == c.rhs
  }

  /** x meets each constraint of cs. */
  predicate SatisfiesAll(cs: seq<Cons>, x: seq<int>) {
    forall k :: 0 <= k < |cs| ==> Satisfies(cs[k], x)
  }

  lemma SatisfiesOne(c: Cons, x: seq<int>)
    ensures SatisfiesAll([c], x) <==> Satisfies(c, x)
  {
    assert [c][0] == c;
  }

  /** Meeting a concatenation of constraint lists is meeting both lists. */
  lemma SatisfiesAllAppend(a: seq<Cons>, b: seq<Cons>, x: seq<int>)
    ensures SatisfiesAll(a + b, x) <==> SatisfiesAll(a, x) && SatisfiesAll(b, x)
  {
    if SatisfiesAll(a, x) && SatisfiesAll(b, x) {
      forall k | 0 <= k < |a + b| ensures Satisfies((a + b)[k], x) {
        if k >= |a| { assert (a + b)[k] == b[k - |a|]; }
      }
    }
    if SatisfiesAll(a + b, x) {
      forall k | 0 <= k < |a| ensures Satisfies(a[k], x) {
        assert (a + b)[k] == a[k];
      }
      forall k | 0 <= k < |b| ensures Satisfies(b[k], x) {
        assert (a + b)[|a| + k] == b[k];
      }
    }
  }

  /** Constraint blocks added one after another. */
  function Flatten(bs: seq<seq<Cons>>): seq<Cons> {
    if bs == [] then [] else Flatten(bs[..|bs| - 1]) + bs[|bs| - 1]
  }

  /** Constraint blocks flattened are the blocks joined. */
  lemma {:induction false} FlattenIsJoin(bs: seq<seq<Cons>>)
    ensures Flatten(bs) == Join(bs)
  {
    if bs != [] {
      FlattenIsJoin(bs[..|bs| - 1]);
    }
  }

  /** One more block extends the run by that block. */
  lemma FlattenStep(bs: seq<seq<Cons>>, k: nat)
    requires k < |bs|
    ensures Flatten(bs[..k + 1]) == Flatten(bs[..k]) + bs[k]
  {
    assert bs[..k + 1][..k] == bs[..k];
  }

  /** A model that has the first k blocks and then gets block k has the first k + 1. */
  lemma BlockAppended(m0: Model, before: Model, after: Model, bs: seq<seq<Cons>>, k: nat)
    requires k < |bs| && before == m0.(conss := m0.conss + Flatten(bs[..k]))
    requires after == before.(conss := before.conss + bs[k])
    ensures after == m0.(conss := m0.conss + Flatten(bs[..k + 1]))
  {
    FlattenStep(bs, k);
    assert m0.conss + Flatten(bs[..k + 1]) == (m0.conss + Flatten(bs[..k])) + bs[k];
  }

  /** Meeting a run of blocks is meeting every block. */
  lemma {:induction false} SatisfiesFlatten(bs: seq<seq<Cons>>, x: seq<int>)
    ensures SatisfiesAll(Flatten(bs), x) <==> forall k :: 0 <= k < |bs| ==> SatisfiesAll(bs[k], x)
  {
    if bs != [] {
      var init := bs[..|bs| - 1];
      SatisfiesFlatten(init, x);
      SatisfiesAllAppend(Flatten(init), bs[|bs| - 1], x);
      assert forall k :: 0 <= k < |init| ==> init[k] == bs[k];
    }
  }

  /** Blocks of c constraints each give c constraints per block. */
  lemma {:induction false} FlattenSize(bs: seq<seq<Cons>>, c: nat)
    requires forall k :: 0 <= k < |bs| ==> |bs[k]| == c
    ensures |Flatten(bs)| == c * |bs|
  {
    if bs != [] {
      FlattenSize(bs[..|bs| - 1], c);
    }
  }

  /** A handle every block keeps below bound stays below bound in the run. */
  lemma {:induction false} FlattenBounded(bs: seq<seq<Cons>>, bound: nat)
    requires forall k, j, h :: 0 <= k < |bs| && 0 <= j < |bs[k]| && h in bs[k][j].expr ==> h < bound
    ensures forall j, h :: 0 <= j < |Flatten(bs)| && h in Flatten(bs)[j].expr ==> h < bound
  {
    if bs != [] {
      var init := bs[..|bs| - 1];
      FlattenBounded(init, bound);
      forall j, h | 0 <= j < |Flatten(bs)| && h in Flatten(bs)[j].expr ensures h < bound {
        if j >= |Flatten(init)| {
          assert Flatten(bs)[j] == bs[|bs| - 1][j - |Flatten(init)|];
        } else {
          assert Flatten(bs)[j] == Flatten(init)[j];
        }
      }
    }
  }

  predicate InBounds(v: Var, value: int) {
    v.lb <= value as real && (v.ub.Some? ==> value as real <= v.ub.value)
  }

  /**
   * x gives every live variable an integer value within its bounds and meets
   * every constraint. (Every variable of every formulation here is binary or
   * integer, so integer assignments are all the solutions there are.)
   */
  predicate Feasible(m: Model, x: seq<int>) {
    |x| == |m.vars| &&
    (forall h :: 0 <= h < |x| && h !in m.removed ==> InBounds(m.vars[h], x[h])) &&
    forall k :: 0 <= k < |m.conss| ==> Satisfies(m.conss[k], x)
  }

  function ObjectiveFrom(m: Model, x: seq<int>, i: nat): real
    decreases |x| - i
  {
    if i >= |x| || i >= |m.vars| then 0.0
    else (if i in m.removed then 0.0 else m.vars[i].obj * (x[i] as real)) + ObjectiveFrom(m, x, i + 1)
  }

  function Objective(m: Model, x: seq<int>): real {
    ObjectiveFrom(m, x, 0)
  }

  predicate Better(m: Model, a: real, b: real) {
    if m.sense == Maximize then a >= b else a <= b
  }

  /** The objective reads only the variables, not the constraints. */
  lemma {:induction false} ObjectiveOfVars(m: Model, m2: Model, x: seq<int>, i: nat)
    requires m.vars == m2.vars && m.removed == m2.removed
    ensures ObjectiveFrom(m, x, i) == ObjectiveFrom(m2, x, i)
    decreases |x| - i
  {
    if i < |x| {
      ObjectiveOfVars(m, m2, x, i + 1);
    }
  }

  /** v is attained by a feasible assignment and no feasible assignment does better. */
  ghost predicate IsOptimum(m: Model, v: real) {
    (exists x :: Feasible(m, x) && Objective(m, x) == v) &&
    forall x :: Feasible(m, x) ==> Better(m, v, Objective(m, x))
  }

  /** A model has at most one optimal value. */
  lemma OptimumUnique(m: Model, a: real, b: real)
    requires IsOptimum(m, a) && IsOptimum(m, b)
    ensures a == b
  {
    var x :| Feasible(m, x) && Objective(m, x) == a;
    var y :| Feasible(m, y) && Objective(m, y) == b;
    assert Better(m, a, Objective(m, y)) && Better(m, b, Objective(m, x));
  }

  lemma BinaryBounds(name: string, obj: real, value: int)
    ensures InBounds(BinaryVar(name, obj), value) <==> value == 0 || value == 1
  {
  }
}
