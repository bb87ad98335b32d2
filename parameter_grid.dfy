/**
 * The parameter-grid combinators: itertools.product over candidate lists,
 * expand_parameters (utilities/generic.py), which calls a function once per
 * combination with each parameter bound by name, and the instance streams
 * generate and generate_n (generator.py), which call one generating function
 * again and again on the same, shared random state.
 */
module ParameterGrid {
  import opened Common

  // ---------------------------------------------------------------- itertools.product

  /** [[v] + w for w in rest] */
  function Prepend<V>(v: V, rest: seq<seq<V>>): (r: seq<seq<V>>)
    ensures |r| == |rest| && forall k :: 0 <= k < |rest| ==> r[k] == [v] + rest[k]
  {
    seq(|rest|, k requires 0 <= k < |rest| => [v] + rest[k])
  }

  /** [[v] + w for v in vs for w in rest] */
  function Prefixed<V>(vs: seq<V>, rest: seq<seq<V>>): seq<seq<V>>
    decreases |vs|
  {
    if vs == [] then [] else Prefixed(vs[..|vs| - 1], rest) + Prepend(vs[|vs| - 1], rest)
  }

  /** itertools.product(*lists): the first list varies slowest, the last fastest. */
  function Product<V>(lists: seq<seq<V>>): seq<seq<V>>
    decreases |lists|
  {
    if lists == [] then [[]] else Prefixed(lists[0], Product(lists[1..]))
  }

  /** The product of the list lengths. */
  function Size<V>(lists: seq<seq<V>>): nat
    decreases |lists|
  {
    if lists == [] then 1 else |lists[0]| * Size(lists[1..])
  }

  /** Entry (a, r) of Prefixed(vs, rest) is vs[a] followed by rest[r]. */
  lemma {:induction false} PrefixedAt<V>(vs: seq<V>, rest: seq<seq<V>>)
    ensures |Prefixed(vs, rest)| == Offset(|vs|, |rest|)
    ensures forall a, r :: 0 <= a < |vs| && 0 <= r < |rest| ==>
              Prefixed(vs, rest)[Entry(a, r, |rest|, |vs|)] == [vs[a]] + rest[r]
    decreases |vs|
  {
    if vs != [] {
      var init := vs[..|vs| - 1];
      PrefixedAt(init, rest);
      var p, q := Prefixed(init, rest), Prepend(vs[|vs| - 1], rest);
      assert Prefixed(vs, rest) == p + q;
      forall a, r | 0 <= a < |vs| && 0 <= r < |rest|
        ensures (p + q)[Entry(a, r, |rest|, |vs|)] == [vs[a]] + rest[r]
      {
        if a < |vs| - 1 {
          assert init[a] == vs[a];
          assert Entry(a, r, |rest|, |vs|) == Entry(a, r, |rest|, |init|);
          assert (p + q)[Entry(a, r, |rest|, |init|)] == p[Entry(a, r, |rest|, |init|)];
        } else {
          assert Entry(a, r, |rest|, |vs|) == |p| + r;
          assert (p + q)[|p| + r] == q[r];
        }
      }
    }
  }

  /** Every entry of Prefixed(vs, rest) is one vs[a] followed by one rest[r]. */
  lemma PrefixedEntry<V>(vs: seq<V>, rest: seq<seq<V>>, q: nat) returns (a: nat, r: nat)
    requires q < |Prefixed(vs, rest)|
    ensures a < |vs| && r < |rest| && q == Offset(a, |rest|) + r
    ensures Prefixed(vs, rest)[q] == [vs[a]] + rest[r]
  {
    PrefixedAt(vs, rest);
    a, r := CellOf(q, |vs|, |rest|);
    assert q == Entry(a, r, |rest|, |vs|);
  }

  /**
   * Entry (a, r) of product(lists) is lists[0][a] followed by entry r of
   * the product of the other lists; so
   * the order is lexicographic in the positions, the last list fastest.
   */
  lemma ProductOrder<V>(lists: seq<seq<V>>)
    requires lists != []
    ensures var rest := Product(lists[1..]);
            |Product(lists)| == Offset(|lists[0]|, |rest|) &&
            forall a, r :: 0 <= a < |lists[0]| && 0 <= r < |rest| ==>
              Product(lists)[Entry(a, r, |rest|, |lists[0]|)] == [lists[0][a]] + rest[r]
  {
    PrefixedAt(lists[0], Product(lists[1..]));
  }

  lemma {:induction false} ProductSize<V>(lists: seq<seq<V>>)
    ensures |Product(lists)| == Size(lists)
    decreases |lists|
  {
    if lists != [] {
      ProductSize(lists[1..]);
      ProductOrder(lists);
      OffsetIsProduct(|lists[0]|, Size(lists[1..]));
    }
  }

  /** Every combination takes one value from each list, at its own position. */
  lemma {:induction false} ProductMembers<V>(lists: seq<seq<V>>)
    ensures forall w :: w in Product(lists) ==> |w| == |lists| && forall i :: 0 <= i < |w| ==> w[i] in lists[i]
    decreases |lists|
  {
    if lists != [] {
      ProductMembers(lists[1..]);
      forall w | w in Product(lists) ensures |w| == |lists| && forall i :: 0 <= i < |w| ==> w[i] in lists[i] {
        var q :| 0 <= q < |Product(lists)| && Product(lists)[q] == w;
        var a, r := PrefixedEntry(lists[0], Product(lists[1..]), q);
        var tail := Product(lists[1..])[r];
        assert tail in Product(lists[1..]);
        forall i | 0 <= i < |w| ensures w[i] in lists[i] {
          if i > 0 { assert w[i] == tail[i - 1] && lists[1..][i - 1] == lists[i]; }
        }
      }
    }
  }

  /** And every combination appears. */
  lemma {:induction false} ProductComplete<V>(lists: seq<seq<V>>, w: seq<V>)
    requires |w| == |lists| && forall i :: 0 <= i < |w| ==> w[i] in lists[i]
    ensures w in Product(lists)
    decreases |lists|
  {
    if lists != [] {
      var rest, tail := lists[1..], w[1..];
      forall i | 0 <= i < |tail| ensures tail[i] in rest[i] {
        assert tail[i] == w[i + 1] && rest[i] == lists[i + 1];
      }
      ProductComplete(rest, tail);
      var ps := Product(rest);
      var r :| 0 <= r < |ps| && ps[r] == tail;
      var a :| 0 <= a < |lists[0]| && lists[0][a] == w[0];
      PrefixedAt(lists[0], ps);
      assert w == [w[0]] + tail;
      assert Prefixed(lists[0], ps)[Entry(a, r, |ps|, |lists[0]|)] == w;
    }
  }

  /** One empty candidate list leaves no combination at all. */
  lemma {:induction false} ProductEmpty<V>(lists: seq<seq<V>>, i: nat)
    requires i < |lists| && lists[i] == []
    ensures Product(lists) == []
    decreases |lists|
  {
    if i > 0 {
      assert lists[1..][i - 1] == lists[i];
      ProductEmpty(lists[1..], i - 1);
      PrefixedNothing(lists[0], Product(lists[1..]));
    }
  }

  lemma {:induction false} PrefixedNothing<V>(vs: seq<V>, rest: seq<seq<V>>)
    requires rest == []
    ensures Prefixed(vs, rest) == []
    decreases |vs|
  {
    if vs != [] { PrefixedNothing(vs[..|vs| - 1], rest); }
  }

  // ---------------------------------------------------------------- expand_parameters

  /** {name: val for name, val in zip(names, values)} */
  function Bind<V>(names: seq<string>, values: seq<V>): (b: map<string, V>)
    requires |names| == |values| && Distinct(names)
    ensures b.Keys == ToSet(names)
    ensures forall i :: 0 <= i < |names| ==> b[names[i]] == values[i]
  {
    var b := map i | 0 <= i < |names| :: names[i] := values[i];
    assert forall n :: n in ToSet(names) ==> n in b by {
      forall n | n in ToSet(names) ensures n in b {
        var i :| 0 <= i < |names| && names[i] == n;
      }
    }
    forall i | 0 <= i < |names| ensures b[names[i]] == values[i] {
      forall j | 0 <= j < |names| && names[j] == names[i] ensures j == i {
        DistinctsDiffer(names, i, j);
      }
    }
    b
  }

  lemma DistinctsDiffer<T>(s: seq<T>, i: nat, j: nat)
    requires Distinct(s) && i < |s| && j < |s| && s[i] == s[j]
    ensures i == j
  {
  }

  /**
   * expand_parameters(function, **parameter_lists): the results of calling
   * function once per combination of candidate values, in product order, each
   * parameter passed by its name. The dictionary's keys are names, in order,
   * with their lists alongside.
   */
  function ExpandParameters<V, R>(f: map<string, V> -> R, names: seq<string>, lists: seq<seq<V>>): (rs: seq<R>)
    requires |names| == |lists| && Distinct(names)
    ensures |rs| == |Product(lists)| == Size(lists)
    ensures forall q :: 0 <= q < |rs| ==> |Product(lists)[q]| == |names| && rs[q] == f(Bind(names, Product(lists)[q]))
  {
    var ps := Product(lists);
    ProductSize(lists);
    ProductMembers(lists);
    assert forall q :: 0 <= q < |ps| ==> ps[q] in ps;
    seq(|ps|, q requires 0 <= q < |ps| => f(Bind(names, ps[q])))
  }

  /**
   * Each call binds exactly the given names, each to a value from its own
   * list; and every such binding is used by some call.
   */
  lemma ExpandBindings<V, R>(f: map<string, V> -> R, names: seq<string>, lists: seq<seq<V>>)
    requires |names| == |lists| && Distinct(names)
    ensures forall q :: 0 <= q < |Product(lists)| ==>
              |Product(lists)[q]| == |names| &&
              (var b := Bind(names, Product(lists)[q]);
               b.Keys == ToSet(names) && forall i :: 0 <= i < |names| ==> b[names[i]] in lists[i])
    ensures forall w :: |w| == |lists| && (forall i :: 0 <= i < |w| ==> w[i] in lists[i]) ==>
              exists q :: 0 <= q < |Product(lists)| && Product(lists)[q] == w
  {
    ProductMembers(lists);
    forall q | 0 <= q < |Product(lists)|
      ensures |Product(lists)[q]| == |names|
      ensures var b := Bind(names, Product(lists)[q]);
              b.Keys == ToSet(names) && forall i :: 0 <= i < |names| ==> b[names[i]] in lists[i]
    {
      assert Product(lists)[q] in Product(lists);
    }
    forall w | |w| == |lists| && (forall i :: 0 <= i < |w| ==> w[i] in lists[i])
      ensures exists q :: 0 <= q < |Product(lists)| && Product(lists)[q] == w
    {
      ProductComplete(lists, w);
    }
  }

  /** With one empty candidate list, expand_parameters yields nothing. */
  lemma ExpandEmpty<V, R>(f: map<string, V> -> R, names: seq<string>, lists: seq<seq<V>>, i: nat)
    requires |names| == |lists| && Distinct(names) && i < |lists| && lists[i] == []
    ensures ExpandParameters(f, names, lists) == []
  {
    ProductEmpty(lists, i);
  }

  // ---------------------------------------------------------------- generate / generate_n

  /**
   * A generating function is seen from the random state it is handed: it
   * returns the instance it builds and the state it leaves behind.
   * StateAfter is the state after k calls, each starting where the previous
   * one stopped.
   */
  function StateAfter<S, I>(gen: S -> (I, S), s: S, k: nat): S {
    if k == 0 then s else gen(StateAfter(gen, s, k - 1)).1
  }

  /** The k-th instance of the stream generate(gen, seed) yields (counting from 0). */
  function Generated<S, I>(gen: S -> (I, S), s: S, k: nat): I {
    gen(StateAfter(gen, s, k)).0
  }

  /**
   * generate(generating_function, seed) runs forever; its first count
   * instances, taken with next() count times. The stream itself does not end.
   */
  method Generate<S, I>(gen: S -> (I, S), s0: S, count: nat) returns (instances: seq<I>, s: S)
    ensures |instances| == count && s == StateAfter(gen, s0, count)
    ensures forall k :: 0 <= k < count ==> instances[k] == Generated(gen, s0, k)
  {
    instances, s := [], s0;
    var k := 0;
    while k < count
      invariant 0 <= k <= count && |instances| == k && s == StateAfter(gen, s0, k)
      invariant forall j :: 0 <= j < k ==> instances[j] == Generated(gen, s0, j)
    {
      var next := gen(s);
      instances, s := instances + [next.0], next.1;
      k := k + 1;
    }
  }

  /**
   * generate_n(generating_function, n, seed): exactly n pairs (i, instance)
   * with i = 0, ..., n - 1, every call handed the state the previous call
   * left, so they are the first n instances of generate with the same seed.
   */
  method GenerateN<S, I>(gen: S -> (I, S), n: nat, s0: S) returns (pairs: seq<(nat, I)>, s: S)
    ensures |pairs| == n && s == StateAfter(gen, s0, n)
    ensures forall i :: 0 <= i < n ==> pairs[i] == (i, Generated(gen, s0, i))
  {
    pairs, s := [], s0;
    for i := 0 to n
      invariant |pairs| == i && s == StateAfter(gen, s0, i)
      invariant forall j :: 0 <= j < i ==> pairs[j] == (j, Generated(gen, s0, j))
    {
      var next := gen(s);
      pairs, s := pairs + [(i, next.0)], next.1;
    }
  }

  /** Calls of the generating function compose: k more calls after j calls are j + k calls. */
  lemma {:induction false} StateAfterAdd<S, I>(gen: S -> (I, S), s: S, j: nat, k: nat)
    ensures StateAfter(gen, StateAfter(gen, s, j), k) == StateAfter(gen, s, j + k)
    decreases k
  {
    if k > 0 { StateAfterAdd(gen, s, j, k - 1); }
  }

  /** After generate_n(n), a new stream from the left state goes on with instance n, n + 1, ... */
  lemma GeneratedAfter<S, I>(gen: S -> (I, S), s: S, n: nat, k: nat)
    ensures Generated(gen, StateAfter(gen, s, n), k) == Generated(gen, s, n + k)
  {
    StateAfterAdd(gen, s, n, k);
  }
}
