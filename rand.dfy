/**
 * The random number generator that the generators thread through their
 * draws: one object (a Python random.Random or a numpy RandomState, after
 * the py_random_state / np_random_state decorators have turned the seed
 * argument into one) whose state every draw advances.
 *
 * The Mersenne Twister itself is not modelled. A sampler owns a fixed
 * stream of raw numbers, one infinite row per draw, from which each draw
 * computes its value with a deterministic function of the request; the ghost
 * log records every draw in order. Valid() ties the log to the stream, so a
 * draw's value is fixed by the seed and by the draws that came before it,
 * and two samplers with the same stream and position agree on every draw.
 */
module Rand {
  import opened Common

  /** The raw numbers behind one draw. */
  type Raw = nat -> nat

  datatype Draw =
    | IntDraw(lo: int, hi: int, value: int)                          // random.randint(lo, hi)
    | SampleDraw(population: nat, k: nat, picked: seq<nat>)          // random.sample(range(population), k)
    | RandomDraw(unit: real)                                         // random.random()
    | UniformDraw(a: real, b: real, u: real)                         // random.uniform(a, b)
    | ChoiceDraw(options: seq<int>, chosen: int)                     // random.choice(options)
    | SignDraw(plus: nat, minus: nat, sign: int)                     // random.choices([1, -1], weights=[plus, minus])
    | NpChoicesDraw(n: nat, size: nat, values: seq<nat>)             // RandomState.choice(n, size)
    | NpDistinctDraw(pool: seq<nat>, size: nat, distinct: seq<nat>)  // RandomState.choice(pool, size, replace=False)
    | NpPermutationDraw(length: nat, perm: seq<nat>)                 // RandomState.permutation(n)
    | NpRandIntsDraw(high: nat, count: nat, ints: seq<nat>)          // RandomState.randint(high, size)

  /** The rows of raw numbers a seed stands for (an arbitrary fixed mixing function). */
  function SeedStream(seed: int): nat -> Raw {
    (k: nat) => (j: nat) => var h := seed * 1000003 + k * 7919 + j * 104729; if h < 0 then -h else h
  }

  function RandIntOf(lo: int, hi: int, raw: Raw): (v: int)
    requires lo <= hi
    ensures lo <= v <= hi
  {
    lo + raw(0) % (hi - lo + 1)
  }

  function RandomOf(raw: Raw): (r: real)
    ensures 0.0 <= r < 1.0
  {
    (raw(0) as real) / ((raw(0) + 1) as real)
  }

  lemma ScaledUnit(d: real, r: real)
    requires 0.0 <= r < 1.0
    ensures d >= 0.0 ==> 0.0 <= d * r <= d
    ensures d <= 0.0 ==> d <= d * r <= 0.0
  {
  }

  /** random.uniform(a, b) is a + (b - a) * random(). */
  function UniformOf(a: real, b: real, raw: Raw): (u: real)
    ensures a <= b ==> a <= u <= b
    ensures b <= a ==> b <= u <= a
  {
    ScaledUnit(b - a, RandomOf(raw));
    a + (b - a) * RandomOf(raw)
  }

  /** k picks without replacement from pool, using raw(j), raw(j+1), ... */
  function PickFrom(pool: seq<nat>, k: nat, raw: Raw, j: nat): (r: seq<nat>)
    requires k <= |pool|
    ensures |r| == k
    ensures multiset(r) <= multiset(pool)
    decreases k
  {
    if k == 0 then []
    else
      var i := raw(j) % |pool|;
      var rest := pool[..i] + pool[i + 1..];
      assert pool == pool[..i] + [pool[i]] + pool[i + 1..];
      [pool[i]] + PickFrom(rest, k - 1, raw, j + 1)
  }

  lemma {:induction false} SubMultisetDistinct(r: seq<nat>, pool: seq<nat>)
    requires multiset(r) <= multiset(pool) && Distinct(pool)
    ensures Distinct(r)
  {
    forall i, j | 0 <= i < j < |r| ensures r[i] != r[j] {
      if r[i] == r[j] {
        var v := r[i];
        assert r == r[..i] + [v] + r[i + 1..j] + [v] + r[j + 1..];
        assert multiset(r)[v] >= 2;
        NaturalsMultiplicity(pool, v);
      }
    }
  }

  lemma NaturalsMultiplicity(pool: seq<nat>, v: nat)
    requires Distinct(pool)
    ensures multiset(pool)[v] <= 1
  {
    if v in pool {
      var i :| 0 <= i < |pool| && pool[i] == v;
      assert pool == pool[..i] + [v] + pool[i + 1..];
      assert v !in pool[..i] && v !in pool[i + 1..];
      assert multiset(pool[..i])[v] == 0 && multiset(pool[i + 1..])[v] == 0;
    }
  }

  /** random.sample(range(n), k): k distinct values below n. */
  function SampleOf(n: nat, k: nat, raw: Raw): (r: seq<nat>)
    requires k <= n
    ensures |r| == k && Distinct(r)
    ensures forall i :: 0 <= i < k ==> r[i] < n
  {
    var r := PickFrom(Naturals(n), k, raw, 0);
    NaturalsDistinct(n);
    SubMultisetDistinct(r, Naturals(n));
    assert forall i :: 0 <= i < k ==> r[i] in multiset(Naturals(n));
    r
  }

  function ChoiceOf(options: seq<int>, raw: Raw): (v: int)
    requires |options| > 0
    ensures v in options
  {
    options[raw(0) % |options|]
  }

  /**
   * random.choices([1, -1], weights=[plus, minus]): +1 with weight plus, -1
   * with weight minus; an option of weight zero is never returned.
   */
  function SignOf(plus: nat, minus: nat, raw: Raw): (s: int)
    requires plus + minus > 0
    ensures s == 1 || s == -1
    ensures plus == 0 ==> s == -1
    ensures minus == 0 ==> s == 1
  {
    if raw(0) % (plus + minus) < plus then 1 else -1
  }

  function NpChoicesOf(n: nat, size: nat, raw: Raw): (r: seq<nat>)
    requires n > 0 || size == 0
    ensures |r| == size && forall i :: 0 <= i < size ==> r[i] < n
  {
    seq(size, j requires 0 <= j < size => raw(j) % n)
  }

  function NpRandIntsOf(high: nat, size: nat, raw: Raw): (r: seq<nat>)
    requires high > 0
    ensures |r| == size && forall i :: 0 <= i < size ==> r[i] < high
  {
    seq(size, j requires 0 <= j < size => raw(j) % high)
  }

  /** The draw's value is the one its raw row yields for its request. */
  predicate Explains(d: Draw, raw: Raw) {
    match d
    case IntDraw(lo, hi, v) => lo <= hi && v == RandIntOf(lo, hi, raw)
    case SampleDraw(n, k, picked) => k <= n && picked == SampleOf(n, k, raw)
    case RandomDraw(r) => r == RandomOf(raw)
    case UniformDraw(a, b, u) => u == UniformOf(a, b, raw)
    case ChoiceDraw(options, v) => |options| > 0 && v == ChoiceOf(options, raw)
    case SignDraw(p, q, s) => p + q > 0 && s == SignOf(p, q, raw)
    case NpChoicesDraw(n, size, vs) => (n > 0 || size == 0) && vs == NpChoicesOf(n, size, raw)
    case NpDistinctDraw(pool, size, vs) => size <= |pool| && vs == PickFrom(pool, size, raw, 0)
    case NpPermutationDraw(n, perm) => perm == SampleOf(n, n, raw)
    case NpRandIntsDraw(high, size, vs) => high > 0 && vs == NpRandIntsOf(high, size, raw)
  }

  /** Two draws asked the same question of the generator. */
  predicate SameRequest(d1: Draw, d2: Draw) {
    match (d1, d2)
    case (IntDraw(lo1, hi1, _), IntDraw(lo2, hi2, _)) => lo1 == lo2 && hi1 == hi2
    case (SampleDraw(n1, k1, _), SampleDraw(n2, k2, _)) => n1 == n2 && k1 == k2
    case (RandomDraw(_), RandomDraw(_)) => true
    case (UniformDraw(a1, b1, _), UniformDraw(a2, b2, _)) => a1 == a2 && b1 == b2
    case (ChoiceDraw(o1, _), ChoiceDraw(o2, _)) => o1 == o2
    case (SignDraw(p1, q1, _), SignDraw(p2, q2, _)) => p1 == p2 && q1 == q2
    case (NpChoicesDraw(n1, z1, _), NpChoicesDraw(n2, z2, _)) => n1 == n2 && z1 == z2
    case (NpDistinctDraw(o1, z1, _), NpDistinctDraw(o2, z2, _)) => o1 == o2 && z1 == z2
    case (NpPermutationDraw(n1, _), NpPermutationDraw(n2, _)) => n1 == n2
    case (NpRandIntsDraw(h1, z1, _), NpRandIntsDraw(h2, z2, _)) => h1 == h2 && z1 == z2
    case _ => false
  }

  /** The same request answered from the same raw row gives the same answer. */
  lemma SameRawSameDraw(d1: Draw, d2: Draw, raw: Raw)
    requires Explains(d1, raw) && Explains(d2, raw) && SameRequest(d1, d2)
    ensures d1 == d2
  {
  }

  /** draws are randint(lo, hi) calls, one per value of vs, in order. */
  ghost predicate IntsDrawn(draws: seq<Draw>, lo: int, hi: int, vs: seq<int>) {
    |draws| == |vs| && forall i :: 0 <= i < |vs| ==> draws[i] == IntDraw(lo, hi, vs[i])
  }

  /** Each of draws is answered from the raw row at its position, counted from b. */
  ghost predicate ExplainedFrom(stream: nat -> Raw, b: nat, draws: seq<Draw>) {
    forall k :: 0 <= k < |draws| ==> Explains(draws[k], stream(b + k))
  }

  /** The draws a valid sampler appended to its log are answered from its own stream. */
  lemma NewDrawsExplained(stream: nat -> Raw, start: seq<Draw>, draws: seq<Draw>)
    requires forall k :: 0 <= k < |start + draws| ==> Explains((start + draws)[k], stream(k))
    ensures ExplainedFrom(stream, |start|, draws)
  {
    forall k | 0 <= k < |draws| ensures Explains(draws[k], stream(|start| + k)) {
      assert (start + draws)[|start| + k] == draws[k];
    }
  }

  /** randint calls with the same bounds answered from the same rows return the same values. */
  lemma IntsDeterministic(stream: nat -> Raw, b: nat, lo: int, hi: int,
                          d1: seq<Draw>, v1: seq<int>, d2: seq<Draw>, v2: seq<int>)
    requires IntsDrawn(d1, lo, hi, v1) && IntsDrawn(d2, lo, hi, v2) && |v1| == |v2|
    requires ExplainedFrom(stream, b, d1) && ExplainedFrom(stream, b, d2)
    ensures v1 == v2
  {
    forall i | 0 <= i < |v1| ensures v1[i] == v2[i] {
      SameRawSameDraw(d1[i], d2[i], stream(b + i));
    }
  }

  lemma ExplainedSplit(stream: nat -> Raw, b: nat, draws: seq<Draw>, n: nat)
    requires ExplainedFrom(stream, b, draws) && n <= |draws|
    ensures ExplainedFrom(stream, b, draws[..n]) && ExplainedFrom(stream, b + n, draws[n..])
  {
    forall k | 0 <= k < |draws| - n ensures Explains(draws[n..][k], stream(b + n + k)) {
      assert draws[n..][k] == draws[n + k];
    }
  }

  class Sampler {
    const stream: nat -> Raw
    var pos: nat
    ghost var log: seq<Draw>

    ghost predicate Valid()
      reads this
    {
      pos == |log| && forall k :: 0 <= k < |log| ==> Explains(log[k], stream(k))
    }

    /** random.Random(seed) / numpy.random.RandomState(seed) */
    constructor FromSeed(seed: int)
      ensures Valid() && log == [] && stream == SeedStream(seed)
    {
      stream := SeedStream(seed);
      pos := 0;
      log := [];
    }

    method RandInt(lo: int, hi: int) returns (v: int)
      requires Valid() && lo <= hi
      modifies this
      ensures Valid() && log == old(log) + [IntDraw(lo, hi, v)]
      ensures lo <= v <= hi
    {
      v := RandIntOf(lo, hi, stream(pos));
      log := log + [IntDraw(lo, hi, v)];
      pos := pos + 1;
    }

    method Sample(n: nat, k: nat) returns (picked: seq<nat>)
      requires Valid() && k <= n
      modifies this
      ensures Valid() && log == old(log) + [SampleDraw(n, k, picked)]
      ensures |picked| == k && Distinct(picked) && forall i :: 0 <= i < k ==> picked[i] < n
    {
      picked := SampleOf(n, k, stream(pos));
      log := log + [SampleDraw(n, k, picked)];
      pos := pos + 1;
    }

    method Random() returns (r: real)
      requires Valid()
      modifies this
      ensures Valid() && log == old(log) + [RandomDraw(r)]
      ensures 0.0 <= r < 1.0
    {
      r := RandomOf(stream(pos));
      log := log + [RandomDraw(r)];
      pos := pos + 1;
    }

    method Uniform(a: real, b: real) returns (u: real)
      requires Valid()
      modifies this
      ensures Valid() && log == old(log) + [UniformDraw(a, b, u)]
      ensures a <= b ==> a <= u <= b
      ensures b <= a ==> b <= u <= a
    {
      u := UniformOf(a, b, stream(pos));
      log := log + [UniformDraw(a, b, u)];
      pos := pos + 1;
    }

    method Choice(options: seq<int>) returns (v: int)
      requires Valid() && |options| > 0
      modifies this
      ensures Valid() && log == old(log) + [ChoiceDraw(options, v)]
      ensures v in options
    {
      v := ChoiceOf(options, stream(pos));
      log := log + [ChoiceDraw(options, v)];
      pos := pos + 1;
    }

    method WeightedSign(plus: nat, minus: nat) returns (s: int)
      requires Valid() && plus + minus > 0
      modifies this
      ensures Valid() && log == old(log) + [SignDraw(plus, minus, s)]
      ensures s == 1 || s == -1
      ensures plus == 0 ==> s == -1
      ensures minus == 0 ==> s == 1
    {
      s := SignOf(plus, minus, stream(pos));
      log := log + [SignDraw(plus, minus, s)];
      pos := pos + 1;
    }

    method NpChoices(n: nat, size: nat) returns (vs: seq<nat>)
      requires Valid() && (n > 0 || size == 0)
      modifies this
      ensures Valid() && log == old(log) + [NpChoicesDraw(n, size, vs)]
      ensures |vs| == size && forall i :: 0 <= i < size ==> vs[i] < n
    {
      vs := NpChoicesOf(n, size, stream(pos));
      log := log + [NpChoicesDraw(n, size, vs)];
      pos := pos + 1;
    }

    method NpChoiceDistinct(pool: seq<nat>, size: nat) returns (vs: seq<nat>)
      requires Valid() && size <= |pool|
      modifies this
      ensures Valid() && log == old(log) + [NpDistinctDraw(pool, size, vs)]
      ensures |vs| == size && multiset(vs) <= multiset(pool)
    {
      vs := PickFrom(pool, size, stream(pos), 0);
      log := log + [NpDistinctDraw(pool, size, vs)];
      pos := pos + 1;
    }

    method NpPermutation(n: nat) returns (perm: seq<nat>)
      requires Valid()
      modifies this
      ensures Valid() && log == old(log) + [NpPermutationDraw(n, perm)]
      ensures |perm| == n && Distinct(perm) && forall i :: 0 <= i < n ==> perm[i] < n
    {
      perm := SampleOf(n, n, stream(pos));
      log := log + [NpPermutationDraw(n, perm)];
      pos := pos + 1;
    }

    method NpRandInts(high: nat, size: nat) returns (vs: seq<nat>)
      requires Valid() && high > 0
      modifies this
      ensures Valid() && log == old(log) + [NpRandIntsDraw(high, size, vs)]
      ensures |vs| == size && forall i :: 0 <= i < size ==> vs[i] < high
    {
      vs := NpRandIntsOf(high, size, stream(pos));
      log := log + [NpRandIntsDraw(high, size, vs)];
      pos := pos + 1;
    }
  }

  /** [seed.randint(lo, hi) for _ in range(count)]: no draw at all when count is zero. */
  method RandInts(s: Sampler, lo: int, hi: int, count: nat) returns (vs: seq<int>, ghost draws: seq<Draw>)
    requires s.Valid() && (count == 0 || lo <= hi)
    modifies s
    ensures s.Valid() && s.log == old(s.log) + draws
    ensures IntsDrawn(draws, lo, hi, vs) && |vs| == count
    ensures forall i :: 0 <= i < count ==> lo <= vs[i] <= hi
  {
    vs, draws := [], [];
    var i := 0;
    while i < count
      invariant 0 <= i <= count && |vs| == i
      invariant s.Valid() && s.log == old(s.log) + draws && IntsDrawn(draws, lo, hi, vs)
      invariant forall j :: 0 <= j < i ==> lo <= vs[j] <= hi
    {
      var v := s.RandInt(lo, hi);
      vs, draws := vs + [v], draws + [IntDraw(lo, hi, v)];
      i := i + 1;
    }
  }

  /** draws are random() calls, one per value of rs, in order. */
  ghost predicate RandomsDrawn(draws: seq<Draw>, rs: seq<real>) {
    |draws| == |rs| && forall i :: 0 <= i < |rs| ==> draws[i] == RandomDraw(rs[i])
  }

  /** random() calls answered from the same rows return the same values. */
  lemma RandomsDeterministic(stream: nat -> Raw, b: nat, d1: seq<Draw>, r1: seq<real>, d2: seq<Draw>, r2: seq<real>)
    requires RandomsDrawn(d1, r1) && RandomsDrawn(d2, r2) && |r1| == |r2|
    requires ExplainedFrom(stream, b, d1) && ExplainedFrom(stream, b, d2)
    ensures r1 == r2
  {
    forall i | 0 <= i < |r1| ensures r1[i] == r2[i] {
      SameRawSameDraw(d1[i], d2[i], stream(b + i));
    }
  }

  /** [seed.random() for _ in range(count)] */
  method Randoms(s: Sampler, count: nat) returns (rs: seq<real>, ghost draws: seq<Draw>)
    requires s.Valid()
    modifies s
    ensures s.Valid() && s.log == old(s.log) + draws
    ensures RandomsDrawn(draws, rs) && |rs| == count
    ensures forall i :: 0 <= i < count ==> 0.0 <= rs[i] < 1.0
  {
    rs, draws := [], [];
    var i := 0;
    while i < count
      invariant 0 <= i <= count && |rs| == i
      invariant s.Valid() && s.log == old(s.log) + draws && RandomsDrawn(draws, rs)
      invariant forall j :: 0 <= j < i ==> 0.0 <= rs[j] < 1.0
    {
      var r := s.Random();
      rs, draws := rs + [r], draws + [RandomDraw(r)];
      i := i + 1;
    }
  }

  /** The log entries of randint(lo, hi) calls returning vs, in order. */
  function IntDraws(lo: int, hi: int, vs: seq<int>): (ds: seq<Draw>)
    ensures IntsDrawn(ds, lo, hi, vs)
  {
    seq(|vs|, i requires 0 <= i < |vs| => IntDraw(lo, hi, vs[i]))
  }

  /** The log entries of random() calls returning rs, in order. */
  function RandomDraws(rs: seq<real>): (ds: seq<Draw>)
    ensures RandomsDrawn(ds, rs)
  {
    seq(|rs|, i requires 0 <= i < |rs| => RandomDraw(rs[i]))
  }

  lemma IntsDrawnIs(draws: seq<Draw>, lo: int, hi: int, vs: seq<int>)
    requires IntsDrawn(draws, lo, hi, vs)
    ensures draws == IntDraws(lo, hi, vs)
  {
  }

  lemma RandomsDrawnIs(draws: seq<Draw>, rs: seq<real>)
    requires RandomsDrawn(draws, rs)
    ensures draws == RandomDraws(rs)
  {
  }

  /** A run of draws explained from row b splits into its two parts. */
  lemma ExplainedConcat(stream: nat -> Raw, b: nat, d1: seq<Draw>, d2: seq<Draw>)
    requires ExplainedFrom(stream, b, d1 + d2)
    ensures ExplainedFrom(stream, b, d1) && ExplainedFrom(stream, b + |d1|, d2)
  {
    forall k | 0 <= k < |d1| ensures Explains(d1[k], stream(b + k)) {
      assert (d1 + d2)[k] == d1[k];
    }
    forall k | 0 <= k < |d2| ensures Explains(d2[k], stream(b + |d1| + k)) {
      assert (d1 + d2)[|d1| + k] == d2[k];
    }
  }

  /** Four runs of draws explained together are explained one after the other. */
  lemma ExplainedParts(stream: nat -> Raw, b: nat, d0: seq<Draw>, d1: seq<Draw>, d2: seq<Draw>, d3: seq<Draw>)
    requires ExplainedFrom(stream, b, d0 + d1 + d2 + d3)
    ensures ExplainedFrom(stream, b, d0) && ExplainedFrom(stream, b + |d0|, d1)
    ensures ExplainedFrom(stream, b + |d0| + |d1|, d2) && ExplainedFrom(stream, b + |d0| + |d1| + |d2|, d3)
  {
    ExplainedConcat(stream, b, d0 + d1 + d2, d3);
    ExplainedConcat(stream, b, d0 + d1, d2);
    ExplainedConcat(stream, b, d0, d1);
  }

  /** Slicing a concatenation of four parts gives the parts back. */
  lemma Parts4<T>(a: seq<T>, b: seq<T>, c: seq<T>, d: seq<T>)
    ensures var s := a + b + c + d;
            s[..|a|] == a && s[|a|..|a| + |b|] == b &&
            s[|a| + |b|..|a| + |b| + |c|] == c && s[|a| + |b| + |c|..] == d
  {
    var s := a + b + c + d;
    assert s[..|a|] == a;
    assert s[|a|..|a| + |b|] == b;
    assert s[|a| + |b|..|a| + |b| + |c|] == c;
    assert s[|a| + |b| + |c|..] == d;
  }

  /** draws are randint(lo, hi) calls filling rows of the given width, row after row. */
  ghost predicate RowsDrawn(draws: seq<Draw>, lo: int, hi: int, width: nat, rows: seq<seq<int>>)
    decreases |rows|
  {
    if rows == [] then draws == []
    else
      |draws| >= width &&
      RowsDrawn(draws[..|draws| - width], lo, hi, width, rows[..|rows| - 1]) &&
      IntsDrawn(draws[|draws| - width..], lo, hi, rows[|rows| - 1])
  }

  lemma {:induction false} RowsDrawnShape(draws: seq<Draw>, lo: int, hi: int, width: nat, rows: seq<seq<int>>)
    requires RowsDrawn(draws, lo, hi, width, rows)
    ensures |draws| == width * |rows| && forall i :: 0 <= i < |rows| ==> |rows[i]| == width
    decreases |rows|
  {
    if rows != [] {
      RowsDrawnShape(draws[..|draws| - width], lo, hi, width, rows[..|rows| - 1]);
      assert forall i :: 0 <= i < |rows| - 1 ==> rows[i] == rows[..|rows| - 1][i];
    }
  }

  /** Rows of randint draws answered from the same raw rows are the same. */
  lemma {:induction false} RowsDeterministic(stream: nat -> Raw, b: nat, lo: int, hi: int, width: nat,
                                             d1: seq<Draw>, t1: seq<seq<int>>, d2: seq<Draw>, t2: seq<seq<int>>)
    requires RowsDrawn(d1, lo, hi, width, t1) && RowsDrawn(d2, lo, hi, width, t2) && |t1| == |t2|
    requires ExplainedFrom(stream, b, d1) && ExplainedFrom(stream, b, d2)
    ensures t1 == t2
    decreases |t1|
  {
    if t1 != [] {
      RowsDrawnShape(d1, lo, hi, width, t1);
      RowsDrawnShape(d2, lo, hi, width, t2);
      var k := |d1| - width;
      ExplainedSplit(stream, b, d1, k);
      ExplainedSplit(stream, b, d2, k);
      RowsDeterministic(stream, b, lo, hi, width, d1[..k], t1[..|t1| - 1], d2[..k], t2[..|t2| - 1]);
      IntsDeterministic(stream, b + k, lo, hi, d1[k..], t1[|t1| - 1], d2[k..], t2[|t2| - 1]);
      assert t1 == t1[..|t1| - 1] + [t1[|t1| - 1]];
      assert t2 == t2[..|t2| - 1] + [t2[|t2| - 1]];
    }
  }

  /** [[seed.randint(lo, hi) for _ in range(width)] for _ in range(count)] */
  method RandRows(s: Sampler, lo: int, hi: int, width: nat, count: nat)
    returns (rows: seq<seq<int>>, ghost draws: seq<Draw>)
    requires s.Valid() && (width == 0 || count == 0 || lo <= hi)
    modifies s
    ensures s.Valid() && s.log == old(s.log) + draws
    ensures RowsDrawn(draws, lo, hi, width, rows) && |rows| == count
    ensures forall i, j :: 0 <= i < count && 0 <= j < |rows[i]| ==> lo <= rows[i][j] <= hi
  {
    rows, draws := [], [];
    var i := 0;
    while i < count
      invariant 0 <= i <= count && |rows| == i
      invariant s.Valid() && s.log == old(s.log) + draws && RowsDrawn(draws, lo, hi, width, rows)
      invariant forall k, j :: 0 <= k < i && 0 <= j < |rows[k]| ==> lo <= rows[k][j] <= hi
    {
      var row, rowDraws := RandInts(s, lo, hi, width);
      assert (draws + rowDraws)[..|draws + rowDraws| - width] == draws;
      assert (draws + rowDraws)[|draws + rowDraws| - width..] == rowDraws;
      assert (rows + [row])[..|rows + [row]| - 1] == rows;
      rows, draws := rows + [row], draws + rowDraws;
      i := i + 1;
    }
  }

  /** A distinct sequence of n values below n holds every value below n. */
  lemma PermutationCovers(perm: seq<nat>, n: nat)
    requires |perm| == n && Distinct(perm) && forall i :: 0 <= i < n ==> perm[i] < n
    ensures forall v :: 0 <= v < n ==> v in perm
  {
    var below: set<nat> := ToSet<nat>(Naturals(n));
    DistinctCard(perm);
    NaturalsDistinct(n);
    DistinctCard(Naturals(n));
    forall w | w in ToSet(perm) ensures w in below {
      assert Naturals(n)[w] == w;
    }
    forall v | 0 <= v < n ensures v in perm {
      if v !in perm {
        assert Naturals(n)[v] == v;
        assert v in below;
        assert |below| == n;
        assert below == (below - {v}) + {v};
        assert |below - {v}| == n - 1;
        assert ToSet(perm) <= below - {v};
        SubsetCard(ToSet(perm), below - {v});
      }
    }
  }
}
