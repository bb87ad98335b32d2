/**
 * geco/mips/set_cover/sun.py: set cover parameters after Sun et al. Every
 * element is put into two distinct sets picked at random and then into each
 * set with probability 0.05. Expanding a backbone instance keeps its costs,
 * appends fresh ones, and grows the backbone's own set objects in place.
 *
 * A Python set is an object here (PySet): the list that _sun_sets returns
 * for a backbone is a new list holding the backbone's objects, so elements
 * added to it are visible through the caller's list as well.
 */
module SetCoverSun {
  import opened Common
  import opened Mip
  import opened Rand
  import SetCover

  /** A Python set of element indices, updated in place by add. */
  class PySet {
    var elems: set<nat>

    constructor ()
      ensures elems == {}
    {
      elems := {};
    }

    method Add(e: nat)
      modifies this
      ensures elems == old(elems) + {e}
    {
      elems := elems + {e};
    }
  }

  /** The probability with which an element joins each set. */
  const P: real := 0.05

  /** The draws made for one element: the two-set sample, then one random() per set. */
  datatype Round = Round(picked: seq<nat>, units: seq<real>)

  /** Position j receives the element of round r: it was picked, or its random() fell below P. */
  predicate Hit(r: Round, j: nat) {
    j in r.picked || (j < |r.units| && r.units[j] < P)
  }

  /** Round r adds its element to the object at position i: it hits a position holding that object. */
  predicate Reaches(sets: seq<PySet>, r: Round, i: nat) {
    i < |sets| && exists j :: 0 <= j < |sets| && sets[j] == sets[i] && Hit(r, j)
  }

  /** The elements that reach the object at position i over all rounds (round e adds element e). */
  function Added(sets: seq<PySet>, rounds: seq<Round>, i: nat): set<nat> {
    set e | 0 <= e < |rounds| && Reaches(sets, rounds[e], i)
  }

  /** Element e is held by two different positions. */
  predicate InTwo(contents: seq<set<nat>>, e: nat) {
    exists i, j :: 0 <= i < j < |contents| && e in contents[i] && e in contents[j]
  }

  function Units(us: seq<real>): (ds: seq<Draw>)
    ensures |ds| == |us|
  {
    if us == [] then [] else Units(us[..|us| - 1]) + [RandomDraw(us[|us| - 1])]
  }

  /** The draws of one element's round, in the order the loops make them. */
  function RoundDraws(m: nat, r: Round): seq<Draw> {
    [SampleDraw(m, 2, r.picked)] + Units(r.units)
  }

  function SunDraws(m: nat, rounds: seq<Round>): seq<Draw> {
    if rounds == [] then [] else SunDraws(m, rounds[..|rounds| - 1]) + RoundDraws(m, rounds[|rounds| - 1])
  }

  /** A round as random.sample(range(m), 2) and one random() per each of l sets produce it. */
  predicate WellDrawn(r: Round, m: nat, l: nat) {
    |r.picked| == 2 && r.picked[0] != r.picked[1] && r.picked[0] < m && r.picked[1] < m && |r.units| == l
  }

  /** The element contents of the sets, position by position. */
  function Contents(sets: seq<PySet>): (c: seq<set<nat>>)
    reads sets
    ensures |c| == |sets| && forall i :: 0 <= i < |sets| ==> c[i] == sets[i].elems
  {
    if sets == [] then [] else Contents(sets[..|sets| - 1]) + [sets[|sets| - 1].elems]
  }

  /** Appending a round adds its element exactly to the objects it reaches. */
  lemma AddedSnoc(sets: seq<PySet>, rounds: seq<Round>, r: Round, i: nat)
    ensures Added(sets, rounds + [r], i)
            == Added(sets, rounds, i) + (if Reaches(sets, r, i) then {|rounds|} else {})
  {
    var rs := rounds + [r];
    assert forall e :: 0 <= e < |rounds| ==> rs[e] == rounds[e];
    assert rs[|rounds|] == r;
  }

  /** The draws of one more round follow those of the rounds before it. */
  lemma SunDrawsSnoc(m: nat, rounds: seq<Round>, r: Round, start: seq<Draw>, mid: seq<Draw>, now: seq<Draw>)
    requires mid == start + SunDraws(m, rounds) && now == mid + RoundDraws(m, r)
    ensures now == start + SunDraws(m, rounds + [r])
  {
    assert (rounds + [r])[..|rounds|] == rounds;
  }

  /** Before any random() of its round, an element reaches exactly the two picked objects. */
  lemma ReachesPicked(sets: seq<PySet>, picked: seq<nat>, i: nat)
    requires i < |sets| && |picked| == 2 && picked[0] < |sets| && picked[1] < |sets|
    ensures Reaches(sets, Round(picked, []), i) <==> sets[i] == sets[picked[0]] || sets[i] == sets[picked[1]]
  {
    if sets[i] == sets[picked[0]] {
      assert Hit(Round(picked, []), picked[0]);
    } else if sets[i] == sets[picked[1]] {
      assert Hit(Round(picked, []), picked[1]);
    }
  }

  /** One more random() (for position |units|) reaches that position's object when it falls below P. */
  lemma ReachesMoreUnits(sets: seq<PySet>, picked: seq<nat>, units: seq<real>, u: real, i: nat)
    requires i < |sets| && |units| < |sets|
    ensures Reaches(sets, Round(picked, units + [u]), i)
            <==> (Reaches(sets, Round(picked, units), i) || (u < P && sets[i] == sets[|units|]))
  {
    var r, r' := Round(picked, units), Round(picked, units + [u]);
    forall j | 0 <= j < |sets| ensures Hit(r', j) <==> (Hit(r, j) || (j == |units| && u < P)) {
      if j < |units| { assert (units + [u])[j] == units[j]; }
    }
    if u < P && sets[i] == sets[|units|] {
      assert Hit(r', |units|);
    }
  }

  /**
   * Every element of a round is held by two different positions: the two the
   * sample picked for it.
   */
  lemma CoveredTwice(sets: seq<PySet>, before: seq<set<nat>>, after: seq<set<nat>>, rounds: seq<Round>, m: nat)
    requires |before| == |sets| == |after| && m <= |sets|
    requires forall i :: 0 <= i < |sets| ==> after[i] == before[i] + Added(sets, rounds, i)
    requires forall e :: 0 <= e < |rounds| ==> WellDrawn(rounds[e], m, |sets|)
    ensures forall e :: 0 <= e < |rounds| ==> InTwo(after, e)
  {
    forall e | 0 <= e < |rounds| ensures InTwo(after, e) {
      var a, b := rounds[e].picked[0], rounds[e].picked[1];
      assert Hit(rounds[e], a) && Hit(rounds[e], b);
      assert Reaches(sets, rounds[e], a) && Reaches(sets, rounds[e], b);
      assert e in Added(sets, rounds, a) && e in Added(sets, rounds, b);
      if a < b {
        assert e in after[a] && e in after[b];
      } else {
        assert e in after[b] && e in after[a];
      }
    }
  }

  /** Only elements of the rounds, all below their number, are ever added. */
  lemma AddedBelow(sets: seq<PySet>, rounds: seq<Round>, i: nat)
    ensures forall e :: e in Added(sets, rounds, i) ==> e < |rounds|
  {
  }

  /** _sun_costs: n costs, each drawn with randint(1, 100). */
  method SunCosts(n: nat, s: Sampler) returns (costs: seq<int>, ghost draws: seq<Draw>)
    requires s.Valid()
    modifies s
    ensures s.Valid() && s.log == old(s.log) + draws && IntsDrawn(draws, 1, 100, costs)
    ensures |costs| == n && forall i :: 0 <= i < n ==> 1 <= costs[i] <= 100
  {
    costs, draws := [], [];
    while |costs| < n
      invariant |costs| <= n
      invariant s.Valid() && s.log == old(s.log) + draws && IntsDrawn(draws, 1, 100, costs)
      invariant forall i :: 0 <= i < |costs| ==> 1 <= costs[i] <= 100
    {
      var c := s.RandInt(1, 100);
      costs, draws := costs + [c], draws + [IntDraw(1, 100, c)];
    }
  }

  /** The new list of m empty sets that _sun_sets starts from without a backbone. */
  method EmptySets(m: nat) returns (sets: seq<PySet>)
    ensures |sets| == m
    ensures forall i :: 0 <= i < m ==> fresh(sets[i]) && sets[i].elems == {}
    ensures forall i, j :: 0 <= i < j < m ==> sets[i] != sets[j]
  {
    sets := [];
    while |sets| < m
      invariant |sets| <= m
      invariant forall i :: 0 <= i < |sets| ==> fresh(sets[i]) && sets[i].elems == {}
      invariant forall i, j :: 0 <= i < j < |sets| ==> sets[i] != sets[j]
    {
      var t := new PySet();
      sets := sets + [t];
    }
  }

  /**
   * The random() per set of one element e's round: a set receives e when its
   * draw is below P. The two picked sets already hold e.
   */
  method RandomJoins(e: nat, sets: seq<PySet>, s: Sampler, picked: seq<nat>) returns (ghost units: seq<real>)
    requires s.Valid()
    requires forall i :: 0 <= i < |sets| && Reaches(sets, Round(picked, []), i) ==> e in sets[i].elems
    modifies s, sets
    ensures s.Valid() && s.log == old(s.log) + Units(units) && |units| == |sets|
    ensures forall i :: 0 <= i < |sets| ==>
      sets[i].elems == old(sets[i].elems) + (if Reaches(sets, Round(picked, units), i) then {e} else {})
  {
    ghost var before := Contents(sets);
    units := [];
    var t := 0;
    while t < |sets|
      invariant 0 <= t <= |sets| && |units| == t
      invariant s.Valid() && s.log == old(s.log) + Units(units)
      invariant forall i :: 0 <= i < |sets| ==>
        sets[i].elems == before[i] + (if Reaches(sets, Round(picked, units), i) then {e} else {})
    {
      ghost var mid := Contents(sets);
      var u := s.Random();
      if u < P {
        sets[t].Add(e);
      }
      ghost var now := Contents(sets);
      assert forall i :: 0 <= i < |sets| ==> now[i] == mid[i] + (if u < P && sets[i] == sets[t] then {e} else {});
      JoinStep(sets, picked, units, u, e, before, mid, now);
      UnitsSnoc(units, u);
      units := units + [u];
      t := t + 1;
    }
  }

  /** One random() of a round: the contents after it are those of the longer round. */
  lemma JoinStep(sets: seq<PySet>, picked: seq<nat>, units: seq<real>, u: real, e: nat,
                 before: seq<set<nat>>, mid: seq<set<nat>>, now: seq<set<nat>>)
    requires |units| < |sets| == |before| == |mid| == |now|
    requires forall i :: 0 <= i < |sets| ==> mid[i] == before[i] + (if Reaches(sets, Round(picked, units), i) then {e} else {})
    requires forall i :: 0 <= i < |sets| ==> now[i] == mid[i] + (if u < P && sets[i] == sets[|units|] then {e} else {})
    ensures forall i :: 0 <= i < |sets| ==> now[i] == before[i] + (if Reaches(sets, Round(picked, units + [u]), i) then {e} else {})
  {
    forall i | 0 <= i < |sets|
      ensures now[i] == before[i] + (if Reaches(sets, Round(picked, units + [u]), i) then {e} else {})
    {
      ReachesMoreUnits(sets, picked, units, u, i);
    }
  }

  lemma UnitsSnoc(units: seq<real>, u: real)
    ensures Units(units + [u]) == Units(units) + [RandomDraw(u)]
  {
    assert (units + [u])[..|units|] == units;
  }

  /** random.sample(range(m), k=2), and both picked sets receive e. */
  method PickTwo(e: nat, m: nat, sets: seq<PySet>, s: Sampler) returns (picked: seq<nat>)
    requires s.Valid() && 2 <= m <= |sets|
    modifies s, sets
    ensures s.Valid() && s.log == old(s.log) + [SampleDraw(m, 2, picked)]
    ensures |picked| == 2 && picked[0] != picked[1] && picked[0] < m && picked[1] < m
    ensures forall i :: 0 <= i < |sets| ==>
      sets[i].elems == old(sets[i].elems) + (if Reaches(sets, Round(picked, []), i) then {e} else {})
  {
    picked := s.Sample(m, 2);
    ghost var before := Contents(sets);
    sets[picked[0]].Add(e);
    sets[picked[1]].Add(e);
    forall i | 0 <= i < |sets|
      ensures sets[i].elems == before[i] + (if Reaches(sets, Round(picked, []), i) then {e} else {})
    {
      ReachesPicked(sets, picked, i);
    }
  }

  /** Whatever the picks reach, the whole round reaches. */
  lemma PickedReach(sets: seq<PySet>, picked: seq<nat>, units: seq<real>, i: nat)
    requires Reaches(sets, Round(picked, []), i)
    ensures Reaches(sets, Round(picked, units), i)
  {
    var j :| 0 <= j < |sets| && sets[j] == sets[i] && Hit(Round(picked, []), j);
    assert Hit(Round(picked, units), j);
  }

  /** The draws of one element e: PickTwo, then RandomJoins. */
  method AddElement(e: nat, m: nat, sets: seq<PySet>, s: Sampler) returns (ghost r: Round)
    requires s.Valid() && 2 <= m <= |sets|
    modifies s, sets
    ensures s.Valid() && s.log == old(s.log) + RoundDraws(m, r) && WellDrawn(r, m, |sets|)
    ensures forall i :: 0 <= i < |sets| ==>
      sets[i].elems == old(sets[i].elems) + (if Reaches(sets, r, i) then {e} else {})
  {
    ghost var start := s.log;
    ghost var before := Contents(sets);
    var picked := PickTwo(e, m, sets, s);
    ghost var afterPick := s.log;
    ghost var mid := Contents(sets);
    ghost var units := RandomJoins(e, sets, s, picked);
    r := Round(picked, units);
    assert s.log == start + RoundDraws(m, r) by {
      assert afterPick == start + [SampleDraw(m, 2, picked)];
      assert s.log == afterPick + Units(units);
    }
    forall i | 0 <= i < |sets| ensures sets[i].elems == before[i] + (if Reaches(sets, r, i) then {e} else {}) {
      if Reaches(sets, Round(picked, []), i) {
        PickedReach(sets, picked, units, i);
      }
    }
  }

  /**
   * _sun_sets: with no backbone, m new empty sets; with one, a new list of
   * the backbone's own objects. Every element below n then goes through
   * AddElement, in ascending order.
   */
  method SunSets(n: nat, m: nat, s: Sampler, initial: seq<PySet>) returns (sets: seq<PySet>, ghost rounds: seq<Round>)
    requires s.Valid() && (n == 0 || m >= 2) && (initial == [] || m <= |initial|)
    modifies s, initial
    ensures initial != [] ==> sets == initial
    ensures initial == [] ==> |sets| == m && forall i :: 0 <= i < m ==> fresh(sets[i])
    ensures initial == [] ==> forall i, j :: 0 <= i < j < m ==> sets[i] != sets[j]
    ensures s.Valid() && s.log == old(s.log) + SunDraws(m, rounds)
    ensures |rounds| == n && forall e :: 0 <= e < n ==> WellDrawn(rounds[e], m, |sets|)
    ensures initial != [] ==>
      forall i :: 0 <= i < |sets| ==> sets[i].elems == old(sets[i].elems) + Added(sets, rounds, i)
    ensures initial == [] ==>
      forall i :: 0 <= i < |sets| ==> sets[i].elems == Added(sets, rounds, i)
  {
    if initial == [] {
      sets := EmptySets(m);
      ghost var empty := Contents(sets);
      rounds := AddElements(n, m, sets, s);
      forall i | 0 <= i < |sets| ensures sets[i].elems == Added(sets, rounds, i) {
        assert empty[i] == {};
      }
    } else {
      sets := initial;
      rounds := AddElements(n, m, sets, s);
    }
  }

  /** The loop of _sun_sets over the elements 0 .. n-1, one AddElement each. */
  method AddElements(n: nat, m: nat, sets: seq<PySet>, s: Sampler) returns (ghost rounds: seq<Round>)
    requires s.Valid() && (n == 0 || 2 <= m) && m <= |sets|
    modifies s, sets
    ensures s.Valid() && s.log == old(s.log) + SunDraws(m, rounds)
    ensures |rounds| == n && forall e :: 0 <= e < n ==> WellDrawn(rounds[e], m, |sets|)
    ensures forall i :: 0 <= i < |sets| ==> sets[i].elems == old(sets[i].elems) + Added(sets, rounds, i)
  {
    ghost var before := Contents(sets);
    rounds := [];
    var e := 0;
    while e < n
      invariant 0 <= e <= n && |rounds| == e
      invariant s.Valid() && s.log == old(s.log) + SunDraws(m, rounds)
      invariant forall k :: 0 <= k < e ==> WellDrawn(rounds[k], m, |sets|)
      invariant forall i :: 0 <= i < |sets| ==> sets[i].elems == before[i] + Added(sets, rounds, i)
    {
      ghost var logBefore := s.log;
      var r := AddElement(e, m, sets, s);
      forall i | 0 <= i < |sets| ensures sets[i].elems == before[i] + Added(sets, rounds + [r], i) {
        AddedSnoc(sets, rounds, r, i);
      }
      SunDrawsSnoc(m, rounds, r, old(s.log), logBefore, s.log);
      rounds := rounds + [r];
      e := e + 1;
    }
  }

  /** sun_params: the costs, then the sets, from one sampler. */
  method SunParams(n: nat, m: nat, s: Sampler) returns (costs: seq<int>, sets: seq<PySet>)
    requires s.Valid() && (n == 0 || m >= 2)
    modifies s
    ensures s.Valid()
    ensures |costs| == n && forall i :: 0 <= i < n ==> 1 <= costs[i] <= 100
    ensures |sets| == m && SetCover.ElementsInRange(n, Contents(sets))
    ensures forall e :: 0 <= e < n ==> InTwo(Contents(sets), e)
  {
    ghost var rounds, draws;
    costs, draws := SunCosts(n, s);
    sets, rounds := SunSets(n, m, s, []);
    CoveredTwice(sets, seq(m, i => {}), Contents(sets), rounds, m);
    forall k, e | 0 <= k < m && e in Contents(sets)[k] ensures e < n {
      AddedBelow(sets, rounds, k);
    }
  }

  /** sun_instance: the set cover model of freshly drawn Sun parameters. */
  method SunInstance(n: nat, m: nat, s: Sampler)
    returns (model: Model, ghost costs: seq<int>, ghost sets: seq<set<nat>>)
    requires s.Valid() && (n == 0 || m >= 2)
    modifies s
    ensures s.Valid()
    ensures model.NumVars() == n && model.NumConss() == m && model.sense == Minimize
    ensures |costs| == n && (forall i :: 0 <= i < n ==> 1 <= costs[i] <= 100)
    ensures |sets| == m && SetCover.ElementsInRange(n, sets)
    ensures forall e :: 0 <= e < n ==> InTwo(sets, e)
    ensures SetCover.IsSetCoverModel(model, ToReals(costs), sets)
  {
    var c, objs := SunParams(n, m, s);
    costs, sets := c, Contents(objs);
    model := SetCover.SetCover(ToReals(c), Contents(objs));
  }

  datatype ExpandError = BackboneNotSmaller

  /**
   * expand_sun_params: the asserted n > len(base_costs); the backbone costs
   * followed by n - len(base_costs) new ones; and the backbone's set objects,
   * grown in place, as the new sets (so the caller's backbone changes too).
   */
  method ExpandSunParams(n: nat, baseCosts: seq<int>, baseSets: seq<PySet>, s: Sampler)
    returns (res: Result<(seq<int>, seq<PySet>), ExpandError>)
    requires s.Valid() && (n <= |baseCosts| || |baseSets| >= 2)
    modifies s, baseSets
    ensures s.Valid()
    ensures res.Failure? <==> n <= |baseCosts|
    ensures res.Failure? ==> s.log == old(s.log) && forall i :: 0 <= i < |baseSets| ==> baseSets[i].elems == old(baseSets[i].elems)
    ensures res.Success? ==>
      var (costs, sets) := res.value;
      |costs| == n && costs[..|baseCosts|] == baseCosts &&
      (forall i :: |baseCosts| <= i < n ==> 1 <= costs[i] <= 100) &&
      sets == baseSets &&
      (forall i :: 0 <= i < |sets| ==> old(baseSets[i].elems) <= sets[i].elems) &&
      (forall i, e :: 0 <= i < |sets| && e in sets[i].elems - old(baseSets[i].elems) ==> e < n) &&
      forall e :: 0 <= e < n ==> InTwo(Contents(sets), e)
  {
    if n <= |baseCosts| {
      return Failure(BackboneNotSmaller);
    }
    var extra, _ := SunCosts(n - |baseCosts|, s);
    var costs := baseCosts + extra;
    ghost var before := Contents(baseSets);
    var sets, rounds := SunSets(n, |baseSets|, s, baseSets);
    CoveredTwice(sets, before, Contents(sets), rounds, |baseSets|);
    forall i, e | 0 <= i < |sets| && e in Added(sets, rounds, i) ensures e < n {
      AddedBelow(sets, rounds, i);
    }
    res := Success((costs, sets));
  }
}
