/**
 * itertools.combinations(range(n), 2) and itertools.combinations(range(n), 3)
 * as sequences in the order the iterator yields them (lexicographic on
 * positions), with their sizes C(n, 2) and C(n, 3), their members, and for
 * pairs the position at which each one is yielded.
 */
module Combinations {

  type Pair = (nat, nat)
  type Triple = (nat, nat, nat)

  /** The pairs that start at i: (i, i+1), ..., (i, n-1). */
  function Row(i: nat, n: nat): (r: seq<Pair>)
    ensures |r| == (if i < n then n - 1 - i else 0)
    ensures forall k :: 0 <= k < |r| ==> r[k] == (i, i + 1 + k)
  {
    if i < n then seq(n - 1 - i, k => (i, i + 1 + k)) else []
  }

  /** The pairs whose first member is at least i, in iteration order. */
  function PairsFrom(i: nat, n: nat): (r: seq<Pair>)
    ensures forall k :: 0 <= k < |r| ==> i <= r[k].0 < r[k].1 < n
    decreases n - i
  {
    if i >= n then [] else Row(i, n) + PairsFrom(i + 1, n)
  }

  /** combinations(range(n), 2) */
  function Pairs(n: nat): (r: seq<Pair>)
    ensures forall k :: 0 <= k < |r| ==> r[k].0 < r[k].1 < n
  {
    PairsFrom(0, n)
  }

  /** The triples whose first member is i, in iteration order. */
  function Lift(i: nat, ps: seq<Pair>): (r: seq<Triple>)
    ensures |r| == |ps| && forall k :: 0 <= k < |ps| ==> r[k] == (i, ps[k].0, ps[k].1)
  {
    seq(|ps|, k requires 0 <= k < |ps| => (i, ps[k].0, ps[k].1))
  }

  function TriplesFrom(i: nat, n: nat): (r: seq<Triple>)
    ensures forall k :: 0 <= k < |r| ==> i <= r[k].0 < r[k].1 < r[k].2 < n
    decreases n - i
  {
    if i >= n then [] else Lift(i, PairsFrom(i + 1, n)) + TriplesFrom(i + 1, n)
  }

  /** combinations(range(n), 3) */
  function Triples(n: nat): (r: seq<Triple>)
    ensures forall k :: 0 <= k < |r| ==> r[k].0 < r[k].1 < r[k].2 < n
  {
    TriplesFrom(0, n)
  }

  lemma {:induction false} PairsFromCount(i: nat, n: nat)
    requires i <= n
    ensures 2 * |PairsFrom(i, n)| == (n - i) * (n - i - 1)
    decreases n - i
  {
    if i < n {
      PairsFromCount(i + 1, n);
      var m := n - i;
      assert 2 * (m - 1) + (m - 1) * (m - 2) == m * (m - 1);
    }
  }

  /** combinations(range(n), 2) yields C(n, 2) = n(n-1)/2 pairs. */
  lemma PairsCount(n: nat)
    ensures 2 * |Pairs(n)| == n * (n - 1)
  {
    PairsFromCount(0, n);
  }

  lemma {:induction false} PairsFromMembers(i: nat, n: nat, p: Pair)
    ensures p in PairsFrom(i, n) <==> i <= p.0 < p.1 < n
    decreases n - i
  {
    if i < n {
      PairsFromMembers(i + 1, n, p);
      if p.0 == i && p.0 < p.1 < n {
        assert Row(i, n)[p.1 - i - 1] == p;
      }
    }
  }

  /** combinations(range(n), 2) yields exactly the pairs a < b < n. */
  lemma PairsMembers(n: nat, p: Pair)
    ensures p in Pairs(n) <==> p.0 < p.1 < n
  {
    PairsFromMembers(0, n, p);
  }

  /** The position at which (a, b) is yielded, counting from the first pair starting at i. */
  function PairIndexFrom(i: nat, n: nat, a: nat, b: nat): nat
    requires i <= a < b < n
    decreases a - i
  {
    if a == i then b - a - 1 else |Row(i, n)| + PairIndexFrom(i + 1, n, a, b)
  }

  /** The handle order of the pair variables of a triangle formulation. */
  function PairIndex(n: nat, a: nat, b: nat): nat
    requires a < b < n
  {
    PairIndexFrom(0, n, a, b)
  }

  lemma {:induction false} PairIndexFromCorrect(i: nat, n: nat, a: nat, b: nat)
    requires i <= a < b < n
    ensures PairIndexFrom(i, n, a, b) < |PairsFrom(i, n)|
    ensures PairsFrom(i, n)[PairIndexFrom(i, n, a, b)] == (a, b)
    decreases a - i
  {
    if a > i {
      PairIndexFromCorrect(i + 1, n, a, b);
    }
  }

  lemma {:induction false} PairIndexFromOf(i: nat, n: nat, k: nat)
    requires k < |PairsFrom(i, n)|
    ensures i <= PairsFrom(i, n)[k].0 < PairsFrom(i, n)[k].1 < n
    ensures PairIndexFrom(i, n, PairsFrom(i, n)[k].0, PairsFrom(i, n)[k].1) == k
    decreases n - i
  {
    if k >= |Row(i, n)| {
      PairIndexFromOf(i + 1, n, k - |Row(i, n)|);
    }
  }

  /**
   * PairIndex and indexing into Pairs(n) are inverse bijections between the
   * pairs a < b < n and the positions below C(n, 2).
   */
  lemma PairIndexCorrect(n: nat, a: nat, b: nat)
    requires a < b < n
    ensures PairIndex(n, a, b) < |Pairs(n)| && Pairs(n)[PairIndex(n, a, b)] == (a, b)
  {
    PairIndexFromCorrect(0, n, a, b);
  }

  lemma PairIndexOf(n: nat, k: nat)
    requires k < |Pairs(n)|
    ensures Pairs(n)[k].0 < Pairs(n)[k].1 < n
    ensures PairIndex(n, Pairs(n)[k].0, Pairs(n)[k].1) == k
  {
    PairIndexFromOf(0, n, k);
  }

  lemma {:induction false} TriplesFromCount(i: nat, n: nat)
    requires i <= n
    ensures 6 * |TriplesFrom(i, n)| == (n - i) * (n - i - 1) * (n - i - 2)
    decreases n - i
  {
    if i < n {
      TriplesFromCount(i + 1, n);
      PairsFromCount(i + 1, n);
      var m := n - i;
      assert 3 * ((m - 1) * (m - 2)) + (m - 1) * (m - 2) * (m - 3) == m * (m - 1) * (m - 2);
    }
  }

  /** combinations(range(n), 3) yields C(n, 3) = n(n-1)(n-2)/6 triples. */
  lemma TriplesCount(n: nat)
    ensures 6 * |Triples(n)| == n * (n - 1) * (n - 2)
  {
    TriplesFromCount(0, n);
  }

  lemma LiftMembers(i: nat, ps: seq<Pair>, t: Triple)
    ensures t in Lift(i, ps) <==> t.0 == i && (t.1, t.2) in ps
  {
    if t.0 == i && (t.1, t.2) in ps {
      var k :| 0 <= k < |ps| && ps[k] == (t.1, t.2);
      assert Lift(i, ps)[k] == t;
    }
  }

  lemma {:induction false} TriplesFromHas(i: nat, n: nat, t: Triple)
    requires i <= t.0 < t.1 < t.2 < n
    ensures t in TriplesFrom(i, n)
    decreases n - i
  {
    if t.0 == i {
      PairsFromMembers(i + 1, n, (t.1, t.2));
      LiftMembers(i, PairsFrom(i + 1, n), t);
    } else {
      TriplesFromHas(i + 1, n, t);
    }
  }

  lemma TriplesFromMembers(i: nat, n: nat, t: Triple)
    ensures t in TriplesFrom(i, n) <==> i <= t.0 < t.1 < t.2 < n
  {
    var r := TriplesFrom(i, n);
    if t in r {
      var k :| 0 <= k < |r| && r[k] == t;
    }
    if i <= t.0 < t.1 < t.2 < n {
      TriplesFromHas(i, n, t);
    }
  }

  /** combinations(range(n), 3) yields exactly the triples a < b < c < n. */
  lemma TriplesMembers(n: nat, t: Triple)
    ensures t in Triples(n) <==> t.0 < t.1 < t.2 < n
  {
    TriplesFromMembers(0, n, t);
  }
}
