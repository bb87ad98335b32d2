/**
 * geco/mips/combinatorial_auction/generic.py: the combinatorial auction
 * formulation. A bid is a bundle of items with a price; one binary variable
 * x_{i+1} per bid, valued by its price; for every item that occurs in some
 * bundle, the bids naming it may be accepted at most once in total;
 * maximise. The item table has n_items + n_dummy_items slots.
 */
module CombinatorialAuction {
  import opened Common
  import opened Mip
  import Naming

  type Bid = (seq<nat>, real)

  /** f"x_{i + 1}" */
  function BidName(i: nat): string {
    "x_" + Naming.NatToString(i + 1)
  }

  /** Every bundle item indexes into the slots of bids_per_item. */
  predicate BundlesFit(bids: seq<Bid>, slots: nat) {
    forall i, j :: 0 <= i < |bids| && 0 <= j < |bids[i].0| ==> bids[i].0[j] < slots
  }

  /** v, n times. */
  function Repeat(v: nat, n: nat): (r: seq<nat>)
    ensures |r| == n && forall k :: 0 <= k < n ==> r[k] == v
  {
    seq(n, k => v)
  }

  /**
   * bids_per_item[t] once the bids have been read: the index of every bid,
   * in bid order, once for each time its bundle names t.
   */
  function ItemBids(bids: seq<Bid>, t: nat): seq<nat> {
    if bids == [] then []
    else ItemBids(bids[..|bids| - 1], t) + Repeat(|bids| - 1, Count(bids[|bids| - 1].0, t))
  }

  /** The constraints for items 0 .. n-1: one per item some bid names, none for the others. */
  function ItemConss(bids: seq<Bid>, n: nat): seq<Cons> {
    if n == 0 then []
    else
      var l := ItemBids(bids, n - 1);
      ItemConss(bids, n - 1) + (if l == [] then [] else [Cons(UnitSum(multiset(l)), Le, 1.0)])
  }

  /** The model combinatorial_auction(bids, n_dummy_items, n_items, name) builds. */
  ghost predicate IsAuctionModel(model: Model, bids: seq<Bid>, slots: nat, name: string) {
    model.name == name && model.removed == {} && model.sense == Maximize &&
    |model.vars| == |bids| &&
    (forall i :: 0 <= i < |bids| ==> model.vars[i] == BinaryVar(BidName(i), bids[i].1)) &&
    model.conss == ItemConss(bids, slots)
  }

  /** quicksum(x[i] for i in item_bids), a term per entry. */
  method SumOf(list: seq<nat>) returns (e: Expr)
    ensures e == UnitSum(multiset(list))
  {
    e := map[];
    var j := 0;
    while j < |list|
      invariant 0 <= j <= |list|
      invariant e == Quicksum(UnitTerms(list[..j]))
    {
      assert UnitTerms(list[..j + 1])[..j] == UnitTerms(list[..j]);
      e := Plus(e, list[j], 1.0);
      j := j + 1;
    }
    assert list[..j] == list;
    QuicksumUnit(list);
  }

  lemma CountSnoc(bundle: seq<nat>, j: nat, t: nat)
    requires j < |bundle|
    ensures Count(bundle[..j + 1], t) == Count(bundle[..j], t) + (if bundle[j] == t then 1 else 0)
  {
    assert bundle[..j + 1][..j] == bundle[..j];
  }

  lemma RepeatSnoc(before: seq<nat>, v: nat, n: nat)
    ensures before + Repeat(v, n + 1) == before + Repeat(v, n) + [v]
  {
    assert Repeat(v, n + 1) == Repeat(v, n) + [v];
  }

  lemma InRepeat(before: seq<nat>, v: nat, n: nat, i: nat)
    ensures i in before + Repeat(v, n) <==> i in before || (n > 0 && i == v)
  {
    if n > 0 { assert Repeat(v, n)[0] == v; }
  }

  method CombinatorialAuction(bids: seq<Bid>, dummies: nat, items: nat, name: string) returns (model: Model)
    requires BundlesFit(bids, items + dummies)
    ensures IsAuctionModel(model, bids, items + dummies, name) && model.WellFormed()
  {
    var slots := items + dummies;
    var perItem;
    model, perItem := ReadBids(bids, slots, name);
    model := AddItemConss(model, bids, perItem);
    model := model.SetSense(Maximize);
    WellFormedAuction(model, bids, slots, name);
  }

  /** The loop over the bids: a variable per bid, and each bid's index appended to item_bids of its items. */
  method ReadBids(bids: seq<Bid>, slots: nat, name: string) returns (model: Model, perItem: seq<seq<nat>>)
    requires BundlesFit(bids, slots)
    ensures model.name == name && model.removed == {} && model.sense == Minimize && model.conss == []
    ensures |model.vars| == |bids| && forall k :: 0 <= k < |bids| ==> model.vars[k] == BinaryVar(BidName(k), bids[k].1)
    ensures |perItem| == slots && forall t :: 0 <= t < slots ==> perItem[t] == ItemBids(bids, t)
  {
    model := NewModel(name);
    perItem := seq(slots, t => []);
    var i: nat := 0;
    while i < |bids|
      invariant 0 <= i <= |bids|
      invariant model.name == name && model.removed == {} && model.sense == Minimize && model.conss == []
      invariant |model.vars| == i
      invariant forall k :: 0 <= k < i ==> model.vars[k] == BinaryVar(BidName(k), bids[k].1)
      invariant |perItem| == slots && forall t :: 0 <= t < slots ==> perItem[t] == ItemBids(bids[..i], t)
    {
      model := model.AddVar(BinaryVar(BidName(i), bids[i].1));
      ghost var before := perItem;
      perItem := AddBundle(perItem, bids[i].0, i);
      forall u | 0 <= u < slots ensures perItem[u] == ItemBids(bids[..i + 1], u) {
        assert before[u] == ItemBids(bids[..i], u);
        ItemBidsSnoc(bids, i, u);
      }
      i := i + 1;
    }
    assert bids[..i] == bids;
  }

  /** for item in bundle: item_bids[item].append(i) */
  method AddBundle(perItem: seq<seq<nat>>, bundle: seq<nat>, i: nat) returns (next: seq<seq<nat>>)
    requires forall j :: 0 <= j < |bundle| ==> bundle[j] < |perItem|
    ensures |next| == |perItem|
    ensures forall t: nat :: t < |perItem| ==> next[t] == perItem[t] + Repeat(i, Count(bundle, t))
  {
    next := perItem;
    var j: nat := 0;
    while j < |bundle|
      invariant 0 <= j <= |bundle| && |next| == |perItem|
      invariant forall t: nat :: t < |perItem| ==> next[t] == perItem[t] + Repeat(i, Count(bundle[..j], t))
    {
      var item := bundle[j];
      forall t: nat | t < |perItem|
        ensures perItem[t] + Repeat(i, Count(bundle[..j + 1], t)) == if t == item then next[t] + [i] else next[t]
      {
        CountSnoc(bundle, j, t);
        if t == item {
          RepeatSnoc(perItem[t], i, Count(bundle[..j], t));
        }
      }
      next := next[item := next[item] + [i]];
      j := j + 1;
    }
    assert bundle[..j] == bundle;
  }

  /** for item_bids of each item, in item order: one constraint when some bid names the item. */
  method AddItemConss(model0: Model, bids: seq<Bid>, perItem: seq<seq<nat>>) returns (model: Model)
    requires model0.conss == []
    requires forall t :: 0 <= t < |perItem| ==> perItem[t] == ItemBids(bids, t)
    ensures model == model0.(conss := ItemConss(bids, |perItem|))
  {
    model := model0;
    var t := 0;
    while t < |perItem|
      invariant 0 <= t <= |perItem|
      invariant model == model0.(conss := ItemConss(bids, t))
    {
      ItemConssSnoc(bids, t, perItem[t]);
      if perItem[t] != [] {
        var e := SumOf(perItem[t]);
        model := model.AddCons(Cons(e, Le, 1.0));
      }
      t := t + 1;
    }
  }

  lemma ItemConssSnoc(bids: seq<Bid>, t: nat, l: seq<nat>)
    requires l == ItemBids(bids, t)
    ensures ItemConss(bids, t + 1) == ItemConss(bids, t) + (if l == [] then [] else [Cons(UnitSum(multiset(l)), Le, 1.0)])
  {
  }

  lemma ItemBidsSnoc(bids: seq<Bid>, i: nat, t: nat)
    requires i < |bids|
    ensures ItemBids(bids[..i + 1], t) == ItemBids(bids[..i], t) + Repeat(i, Count(bids[i].0, t))
  {
    var next := bids[..i + 1];
    assert next[..|next| - 1] == bids[..i];
  }

  /** item_bids holds exactly the bids whose bundle names the item. */
  lemma {:induction false} ItemBidsMembers(bids: seq<Bid>, t: nat, i: nat)
    ensures i in ItemBids(bids, t) <==> i < |bids| && t in bids[i].0
  {
    if bids != [] {
      var init, last := bids[..|bids| - 1], bids[|bids| - 1];
      ItemBidsMembers(init, t, i);
      CountPositive(last.0, t);
      InRepeat(ItemBids(init, t), |init|, Count(last.0, t), i);
      if i < |init| { assert bids[i] == init[i]; }
    }
  }

  lemma {:induction false} CountPositive(s: seq<nat>, t: nat)
    ensures Count(s, t) > 0 <==> t in s
  {
    if s != [] {
      CountPositive(s[..|s| - 1], t);
      assert s == s[..|s| - 1] + [s[|s| - 1]];
    }
  }

  lemma ItemBidsBelow(bids: seq<Bid>, t: nat)
    ensures forall k :: 0 <= k < |ItemBids(bids, t)| ==> ItemBids(bids, t)[k] < |bids|
  {
    forall k | 0 <= k < |ItemBids(bids, t)| ensures ItemBids(bids, t)[k] < |bids| {
      ItemBidsMembers(bids, t, ItemBids(bids, t)[k]);
    }
  }

  lemma {:induction false} ItemConssWellFormed(bids: seq<Bid>, n: nat)
    ensures forall k, h :: 0 <= k < |ItemConss(bids, n)| && h in ItemConss(bids, n)[k].expr ==> h < |bids|
  {
    if n > 0 {
      ItemConssWellFormed(bids, n - 1);
      ItemBidsBelow(bids, n - 1);
    }
  }

  lemma WellFormedAuction(model: Model, bids: seq<Bid>, slots: nat, name: string)
    requires IsAuctionModel(model, bids, slots, name)
    ensures model.WellFormed()
  {
    ItemConssWellFormed(bids, slots);
  }

  /** Σ over accepted bids of how often their bundles name t: how often t is sold. */
  function Sold(bids: seq<Bid>, t: nat, x: seq<int>): nat {
    if bids == [] then 0
    else Sold(bids[..|bids| - 1], t, x)
         + (if |bids| - 1 < |x| && x[|bids| - 1] == 1 then Count(bids[|bids| - 1].0, t) else 0)
  }

  /** No item below n is sold more than once. */
  ghost predicate SoldAtMostOnce(bids: seq<Bid>, n: nat, x: seq<int>) {
    forall t :: 0 <= t < n ==> Sold(bids, t, x) <= 1
  }

  lemma {:induction false} PicksAppend(a: seq<Handle>, b: seq<Handle>, x: seq<int>)
    ensures Picks(a + b, x) == Picks(a, x) + Picks(b, x)
    decreases |b|
  {
    if b != [] {
      assert (a + b)[..|a + b| - 1] == a + b[..|b| - 1];
      var last := b[|b| - 1];
      assert (a + b)[|a + b| - 1] == last;
      assert Picks(a + b, x) == Picks(a + b[..|b| - 1], x) + (if last < |x| && x[last] == 1 then 1 else 0);
      PicksAppend(a, b[..|b| - 1], x);
    } else {
      assert a + b == a;
    }
  }

  lemma {:induction false} PicksRepeat(i: nat, n: nat, x: seq<int>)
    ensures Picks(Repeat(i, n), x) == if i < |x| && x[i] == 1 then n else 0
  {
    if n > 0 {
      assert Repeat(i, n)[..n - 1] == Repeat(i, n - 1);
      PicksRepeat(i, n - 1, x);
    }
  }

  /** A quicksum over item_bids counts how often x sells the item. */
  lemma {:induction false} PicksItemBids(bids: seq<Bid>, t: nat, x: seq<int>)
    ensures Picks(ItemBids(bids, t), x) == Sold(bids, t, x)
  {
    if bids != [] {
      var init := bids[..|bids| - 1];
      PicksItemBids(init, t, x);
      PicksAppend(ItemBids(init, t), Repeat(|bids| - 1, Count(bids[|bids| - 1].0, t)), x);
      PicksRepeat(|bids| - 1, Count(bids[|bids| - 1].0, t), x);
    }
  }

  /** x meets every constraint of cs. */
  predicate AllSatisfied(cs: seq<Cons>, x: seq<int>) {
    forall k :: 0 <= k < |cs| ==> Satisfies(cs[k], x)
  }

  lemma AllSatisfiedSnoc(cs: seq<Cons>, extra: seq<Cons>, x: seq<int>)
    requires |extra| <= 1
    ensures AllSatisfied(cs + extra, x) <==> AllSatisfied(cs, x) && (extra == [] || Satisfies(extra[0], x))
  {
    if AllSatisfied(cs + extra, x) {
      forall k | 0 <= k < |cs| ensures Satisfies(cs[k], x) {
        assert (cs + extra)[k] == cs[k];
      }
      if extra != [] { assert (cs + extra)[|cs|] == extra[0]; }
    }
  }

  /** The constraint of one item holds exactly when the item is sold at most once. */
  lemma ItemConsMeaning(bids: seq<Bid>, t: nat, x: seq<int>)
    requires Binary01(x) && ItemBids(bids, t) != []
    ensures Satisfies(Cons(UnitSum(multiset(ItemBids(bids, t))), Le, 1.0), x) <==> Sold(bids, t, x) <= 1
  {
    var l := ItemBids(bids, t);
    PicksItemBids(bids, t, x);
    QuicksumUnit(l);
    EvalUnitTerms(l, x);
  }

  lemma {:induction false} ItemConssMeaning(bids: seq<Bid>, n: nat, x: seq<int>)
    requires Binary01(x)
    ensures AllSatisfied(ItemConss(bids, n), x) <==> SoldAtMostOnce(bids, n, x)
  {
    if n > 0 {
      ItemConssMeaning(bids, n - 1, x);
      ItemConssStep(bids, n, x);
      AllSoldStep(bids, n, x);
    }
  }


  /** Item n - 1 adds its constraint, or none when no bid names it. */
  lemma ItemConssStep(bids: seq<Bid>, n: nat, x: seq<int>)
    requires Binary01(x) && n > 0
    ensures AllSatisfied(ItemConss(bids, n), x) <==> AllSatisfied(ItemConss(bids, n - 1), x) && Sold(bids, n - 1, x) <= 1
  {
    var l := ItemBids(bids, n - 1);
    var c := Cons(UnitSum(multiset(l)), Le, 1.0);
    var extra := if l == [] then [] else [c];
    ItemConssSnoc(bids, n - 1, l);
    AllSatisfiedSnoc(ItemConss(bids, n - 1), extra, x);
    if l != [] {
      ItemConsMeaning(bids, n - 1, x);
    } else {
      UnbidItemUnsold(bids, n - 1, x);
    }
  }

  lemma UnbidItemUnsold(bids: seq<Bid>, t: nat, x: seq<int>)
    requires ItemBids(bids, t) == []
    ensures Sold(bids, t, x) == 0
  {
    PicksItemBids(bids, t, x);
  }

  lemma AllSoldStep(bids: seq<Bid>, n: nat, x: seq<int>)
    requires n > 0
    ensures SoldAtMostOnce(bids, n, x) <==> SoldAtMostOnce(bids, n - 1, x) && Sold(bids, n - 1, x) <= 1
  {
  }

  /**
   * The meaning of the formulation: an assignment is feasible exactly when it
   * accepts or rejects every bid and sells no item more than once.
   */
  lemma FeasibleIffNoItemSoldTwice(model: Model, bids: seq<Bid>, slots: nat, name: string, x: seq<int>)
    requires IsAuctionModel(model, bids, slots, name)
    ensures Feasible(model, x) <==> |x| == |bids| && Binary01(x) && SoldAtMostOnce(bids, slots, x)
  {
    FeasibleIsBinary(model, bids, slots, name, x);
    if |x| == |bids| && Binary01(x) {
      ItemConssMeaning(bids, slots, x);
    }
  }

  lemma FeasibleIsBinary(model: Model, bids: seq<Bid>, slots: nat, name: string, x: seq<int>)
    requires IsAuctionModel(model, bids, slots, name)
    ensures Feasible(model, x) ==> |x| == |bids| && Binary01(x)
  {
    if Feasible(model, x) {
      forall h | 0 <= h < |x| ensures x[h] == 0 || x[h] == 1 {
        BinaryBounds(BidName(h), bids[h].1, x[h]);
      }
    }
  }

  /** combinatorial_auction([([0], 2)], 0, 1): one variable, one constraint, optimum 2. */
  lemma SingleBidOptimum(model: Model, name: string)
    requires IsAuctionModel(model, [([0], 2.0)], 1, name)
    ensures model.NumVars() == 1 && model.NumConss() == 1
    ensures IsOptimum(model, 2.0)
  {
    var bids: seq<Bid> := [([0], 2.0)];
    assert bids[..0] == [];
    assert [0][..0] == [];
    assert ItemBids(bids, 0) == [0];
    var one := [1];
    FeasibleIffNoItemSoldTwice(model, bids, 1, name, one);
    assert Sold(bids, 0, one) == 1;
    assert Objective(model, one) == 2.0;
    forall x | Feasible(model, x) ensures Better(model, 2.0, Objective(model, x)) {
      FeasibleIffNoItemSoldTwice(model, bids, 1, name, x);
      assert x[0] == 0 || x[0] == 1;
      assert Objective(model, x) == 2.0 * (x[0] as real) + ObjectiveFrom(model, x, 1);
    }
  }
}
