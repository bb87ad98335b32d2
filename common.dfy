/**
 * Small shared vocabulary: optional values, results with an error, and the
 * sequence helpers the generators and formulations are specified with.
 */
module Common {

  datatype Option<T> = None | Some(value: T)

  /** The outcome of an operation whose source code raises on some inputs. */
  datatype Result<T, E> = Success(value: T) | Failure(error: E)
  {
    predicate IsFailure() { Failure? }
  }

  /** No element occurs twice. */
  predicate Distinct<T(==)>(s: seq<T>) {
    forall i, j :: 0 <= i < j < |s| ==> s[i] != s[j]
  }

  /** A value that occurs at most once does not sit at two positions. */
  lemma PositionsDiffer<T>(s: seq<T>, i: nat, j: nat)
    requires i < j < |s| && multiset(s)[s[i]] <= 1
    ensures s[i] != s[j]
  {
    assert s == s[..j] + s[j..];
    assert s[..j][i] == s[i] && s[j..][0] == s[j];
    assert multiset(s)[s[i]] == multiset(s[..j])[s[i]] + multiset(s[j..])[s[i]];
  }

  lemma {:induction false} DistinctOnce<T>(s: seq<T>, v: T)
    requires Distinct(s)
    ensures multiset(s)[v] <= 1
  {
    if s != [] {
      var init := s[..|s| - 1];
      assert s == init + [s[|s| - 1]];
      assert Distinct(init) by {
        forall i, j | 0 <= i < j < |init| ensures init[i] != init[j] {
          assert init[i] == s[i] && init[j] == s[j];
        }
      }
      DistinctOnce(init, v);
      if s[|s| - 1] == v {
        forall i | 0 <= i < |init| ensures init[i] != v {
          assert init[i] == s[i];
        }
        assert v !in multiset(init);
      }
    }
  }

  /** A rearrangement of a sequence without repeats has no repeats. */
  lemma PermutationDistinct<T>(a: seq<T>, b: seq<T>)
    requires Distinct(a) && multiset(a) == multiset(b)
    ensures Distinct(b)
  {
    forall i, j | 0 <= i < j < |b| ensures b[i] != b[j] {
      DistinctOnce(a, b[i]);
      PositionsDiffer(b, i, j);
    }
  }

  /** Python's range(lo, hi): lo, lo+1, ..., hi-1 (empty when hi <= lo). */
  function Range(lo: int, hi: int): (r: seq<int>)
    ensures |r| == if hi <= lo then 0 else hi - lo
    ensures forall k :: 0 <= k < |r| ==> r[k] == lo + k
    decreases hi - lo
  {
    if hi <= lo then [] else [lo] + Range(lo + 1, hi)
  }

  lemma RangeDistinct(lo: int, hi: int)
    ensures Distinct(Range(lo, hi))
  {
  }

  lemma InRange(lo: int, hi: int, v: int)
    ensures v in Range(lo, hi) <==> lo <= v < hi
  {
    if lo <= v < hi { assert Range(lo, hi)[v - lo] == v; }
  }

  /** The values 0..n-1 as natural numbers. */
  function Naturals(n: nat): (r: seq<nat>)
    ensures |r| == n
    ensures forall k :: 0 <= k < n ==> r[k] == k
  {
    if n == 0 then [] else Naturals(n - 1) + [n - 1]
  }

  lemma NaturalsDistinct(n: nat)
    ensures Distinct(Naturals(n))
  {
  }

  lemma InNaturals(n: nat, v: int)
    ensures v in Naturals(n) <==> 0 <= v < n
  {
    if 0 <= v < n { assert Naturals(n)[v] == v; }
  }

  /** The position of x in s (its first one). */
  function Position<T(==)>(s: seq<T>, x: T): (k: nat)
    requires x in s
    ensures k < |s| && s[k] == x && forall j :: 0 <= j < k ==> s[j] != x
  {
    if s[0] == x then 0 else 1 + Position(s[1..], x)
  }

  function ToSet<T(==)>(s: seq<T>): set<T> {
    set x | x in s
  }

  /** A sequence holds at most as many different values as it has entries. */
  lemma {:induction false} ToSetCard<T>(s: seq<T>)
    ensures |ToSet(s)| <= |s|
  {
    if s != [] {
      var init := s[..|s| - 1];
      ToSetCard(init);
      assert ToSet(s) == ToSet(init) + {s[|s| - 1]} by {
        assert s == init + [s[|s| - 1]];
      }
    }
  }

  /** A sequence without repeats holds exactly as many different values as it has entries. */
  lemma {:induction false} DistinctCard<T>(s: seq<T>)
    requires Distinct(s)
    ensures |ToSet(s)| == |s|
  {
    if s != [] {
      var init := s[..|s| - 1];
      DistinctCard(init);
      assert ToSet(s) == ToSet(init) + {s[|s| - 1]} by {
        assert s == init + [s[|s| - 1]];
      }
      assert s[|s| - 1] !in ToSet(init);
    }
  }

  /** A subset is no larger than its superset. */
  lemma SubsetCard<T>(a: set<T>, b: set<T>)
    requires a <= b
    ensures |a| <= |b|
  {
    assert b == a + (b - a);
  }

  /** A set holding three different values has at least three elements. */
  lemma ThreeCard<T>(a: T, b: T, c: T, s: set<T>)
    requires a != b && a != c && b != c && a in s && b in s && c in s
    ensures 3 <= |s|
  {
    SubsetCard({a, b, c}, s);
  }

  /** A map that is one-to-one on s has an image as large as s. */
  lemma {:induction false} InjectiveCard(s: set<nat>, f: seq<nat>)
    requires forall a :: a in s ==> a < |f|
    requires forall a, b :: a in s && b in s && f[a] == f[b] ==> a == b
    ensures |set a | a in s :: f[a]| == |s|
    decreases |s|
  {
    if s != {} {
      var a :| a in s;
      var rest := s - {a};
      InjectiveCard(rest, f);
      assert (set b | b in s :: f[b]) == (set b | b in rest :: f[b]) + {f[a]};
      assert f[a] !in (set b | b in rest :: f[b]);
    }
  }

  /** Two sequences without repeats and without a common element concatenate to one without repeats. */
  lemma DistinctConcat<T>(a: seq<T>, b: seq<T>)
    requires Distinct(a) && Distinct(b) && forall i, j :: 0 <= i < |a| && 0 <= j < |b| ==> a[i] != b[j]
    ensures Distinct(a + b)
  {
    forall i, j | 0 <= i < j < |a + b| ensures (a + b)[i] != (a + b)[j] {
      if j < |a| {
        assert (a + b)[i] == a[i] && (a + b)[j] == a[j];
      } else if i < |a| {
        assert (a + b)[i] == a[i] && (a + b)[j] == b[j - |a|];
      } else {
        assert (a + b)[i] == b[i - |a|] && (a + b)[j] == b[j - |a|];
      }
    }
  }

  /** Appending to nothing; stated generically so that large concrete sequences are not unfolded. */
  lemma EmptyConcat<T>(s: seq<T>)
    ensures [] + s == s
  {
  }

  function Sum(s: seq<int>): int {
    if s == [] then 0 else Sum(s[..|s| - 1]) + s[|s| - 1]
  }

  /** Sum is monotone, and strictly so when one entry strictly grows. */
  lemma {:induction false} SumMono(a: seq<int>, b: seq<int>, i: nat)
    requires |a| == |b| && forall k :: 0 <= k < |a| ==> a[k] <= b[k]
    ensures Sum(a) <= Sum(b)
    ensures i < |a| && a[i] < b[i] ==> Sum(a) < Sum(b)
  {
    if a != [] {
      var m := |a| - 1;
      SumMono(a[..m], b[..m], i);
    }
  }

  function SumReals(s: seq<real>): real {
    if s == [] then 0.0 else SumReals(s[..|s| - 1]) + s[|s| - 1]
  }

  /** Number of positions of s holding x. */
  function Count<T(==)>(s: seq<T>, x: T): nat {
    if s == [] then 0 else Count(s[..|s| - 1], x) + (if s[|s| - 1] == x then 1 else 0)
  }

  function ToReals(s: seq<int>): (r: seq<real>)
    ensures |r| == |s| && forall k :: 0 <= k < |s| ==> r[k] == s[k] as real
  {
    seq(|s|, k requires 0 <= k < |s| => s[k] as real)
  }

  function Min(a: int, b: int): int { if a <= b then a else b }

  /** Python's min over a non-empty list: a member that no member is below. */
  function MinOf(s: seq<int>): (m: int)
    requires s != []
    ensures (forall k :: 0 <= k < |s| ==> m <= s[k]) && exists k :: 0 <= k < |s| && s[k] == m
  {
    if |s| == 1 then s[0] else Min(MinOf(s[..|s| - 1]), s[|s| - 1])
  }

  /** Python's max over a non-empty list of floats: a member that no member is above. */
  function MaxOf(s: seq<real>): (m: real)
    requires s != []
    ensures (forall k :: 0 <= k < |s| ==> s[k] <= m) && exists k :: 0 <= k < |s| && s[k] == m
  {
    if |s| == 1 then s[0] else MaxReal(MaxOf(s[..|s| - 1]), s[|s| - 1])
  }
  function Max(a: int, b: int): int { if a <= b then b else a }
  function MaxReal(a: real, b: real): real { if a <= b then b else a }

  /** Python's int() on a float and numpy's astype(int): truncation toward zero. */
  function Trunc(x: real): int {
    if x >= 0.0 then x.Floor else -((-x).Floor)
  }

  /** math.ceil */
  function Ceil(x: real): int {
    -((-x).Floor)
  }

  /** Truncation keeps order. */
  lemma TruncMono(a: real, b: real)
    requires a <= b
    ensures Trunc(a) <= Trunc(b)
  {
  }

  /** An integer below the truncation of x lies below x. */
  lemma TruncBelow(x: real, t: int)
    requires t < Trunc(x)
    ensures (t as real) < x
  {
  }

  lemma {:induction false} SumNonNegative(s: seq<int>)
    requires forall k :: 0 <= k < |s| ==> s[k] >= 0
    ensures Sum(s) >= 0
  {
    if s != [] { SumNonNegative(s[..|s| - 1]); }
  }

  /**
   * Row-major grids: Offset(i, f) is the first cell of row i when every row
   * holds f cells. It is i * f (OffsetIsProduct), written as a recursion so
   * that the solver reasons about grid cells without nonlinear arithmetic.
   */
  function Offset(i: nat, f: nat): nat {
    if i == 0 then 0 else Offset(i - 1, f) + f
  }

  lemma {:induction false} OffsetIsProduct(i: nat, f: nat)
    ensures Offset(i, f) == i * f
  {
    if i > 0 {
      OffsetIsProduct(i - 1, f);
      assert (i - 1) * f + f == i * f;
    }
  }

  lemma {:induction false} OffsetMono(a: nat, b: nat, f: nat)
    requires a <= b
    ensures Offset(a, f) <= Offset(b, f)
    decreases b
  {
    if a < b { OffsetMono(a, b - 1, f); }
  }

  /** Cell (i, j) of a c x f grid lies below Offset(c, f), and after the cells of earlier rows. */
  lemma {:induction false} CellBounds(i: nat, j: nat, c: nat, f: nat)
    requires i < c && j < f
    ensures Offset(i, f) + j < Offset(c, f)
    decreases c
  {
    if i + 1 < c { CellBounds(i, j, c - 1, f); }
  }

  /** Every index below Offset(c, f) is exactly one cell (i, j). */
  lemma {:induction false} CellOf(k: nat, c: nat, f: nat) returns (i: nat, j: nat)
    requires k < Offset(c, f)
    ensures i < c && j < f && k == Offset(i, f) + j
    decreases c
  {
    if k < Offset(c - 1, f) {
      i, j := CellOf(k, c - 1, f);
    } else {
      i, j := c - 1, k - Offset(c - 1, f);
    }
  }

  /** The position of cell (a, r) when every a is followed by w values of r. */
  function Entry(a: nat, r: nat, w: nat, h: nat): (k: nat)
    requires a < h && r < w
    ensures k < Offset(h, w)
  {
    CellBounds(a, r, h, w);
    Offset(a, w) + r
  }

  /** The rows of a grid laid end to end, the way nested loops append them. */
  function Join<T>(rows: seq<seq<T>>): seq<T> {
    if rows == [] then [] else Join(rows[..|rows| - 1]) + rows[|rows| - 1]
  }

  /** One more row extends the joined prefix by that row. */
  lemma JoinSnoc<T>(rows: seq<seq<T>>, n: nat)
    requires n < |rows|
    ensures Join(rows[..n + 1]) == Join(rows[..n]) + rows[n]
  {
    assert rows[..n + 1][..n] == rows[..n];
  }

  /** One more element of row extends the prefix p + row[..r] by that element. */
  lemma PrefixSnoc<T>(p: seq<T>, row: seq<T>, r: nat)
    requires r < |row|
    ensures p + row[..r + 1] == p + row[..r] + [row[r]]
  {
    assert row[..r + 1] == row[..r] + [row[r]];
  }

  /** Moving the next element x from the front of the rest to the end of the done part. */
  lemma ShiftOne<T>(done: seq<T>, x: T, rest: seq<T>)
    ensures done + ([x] + rest) == (done + [x]) + rest
  {
  }

  /** The same, after a fixed prefix. */
  lemma JoinSnocAfter<T>(p: seq<T>, rows: seq<seq<T>>, n: nat)
    requires n < |rows|
    ensures p + Join(rows[..n + 1]) == p + Join(rows[..n]) + rows[n]
  {
    JoinSnoc(rows, n);
  }

  /** Rows without repeats, each of whose values names its row, join to a sequence without repeats. */
  lemma JoinDistinctBy<T>(rows: seq<seq<T>>, key: T -> int)
    requires forall a :: 0 <= a < |rows| ==> Distinct(rows[a])
    requires forall a, v :: 0 <= a < |rows| && v in rows[a] ==> key(v) == a
    ensures Distinct(Join(rows))
  {
    forall a, b, v | 0 <= a < b < |rows| && v in rows[a] ensures v !in rows[b] {
      assert key(v) == a;
    }
    JoinDistinct(rows);
  }

  /**
   * Rows of width w without repeats, each of whose values names its row by
   * key: their join has Offset(|rows|, w) entries, no repeats, and holds a
   * value exactly when the row the value names holds it.
   */
  lemma JoinLevel<T>(rows: seq<seq<T>>, w: nat, key: T -> int)
    requires forall a :: 0 <= a < |rows| ==> |rows[a]| == w && Distinct(rows[a])
    requires forall a, v :: 0 <= a < |rows| && v in rows[a] ==> key(v) == a
    ensures |Join(rows)| == Offset(|rows|, w) && Distinct(Join(rows))
    ensures forall v :: v in Join(rows) <==> 0 <= key(v) < |rows| && v in rows[key(v)]
  {
    JoinAt(rows, w);
    JoinDistinctBy(rows, key);
    forall v ensures v in Join(rows) <==> 0 <= key(v) < |rows| && v in rows[key(v)] {
      JoinContains(rows, v);
    }
  }

  /** A grid of a blocks of b rows of c cells has b * a * c cells. */
  lemma GridOfGrids(a: nat, b: nat, c: nat)
    ensures Offset(a, Offset(b, c)) == b * a * c
  {
    OffsetIsProduct(b, c);
    OffsetIsProduct(a, b * c);
    assert a * (b * c) == b * a * c;
  }

  /** In a grid of rows of width w, entry (a, r) of the joined rows is rows[a][r]. */
  lemma {:induction false} JoinAt<T>(rows: seq<seq<T>>, w: nat)
    requires forall a :: 0 <= a < |rows| ==> |rows[a]| == w
    ensures |Join(rows)| == Offset(|rows|, w)
    ensures forall a, r :: 0 <= a < |rows| && 0 <= r < w ==> Join(rows)[Entry(a, r, w, |rows|)] == rows[a][r]
    decreases |rows|
  {
    if rows != [] {
      var n := |rows| - 1;
      var init := rows[..n];
      JoinAt(init, w);
      var p, q := Join(init), rows[n];
      assert Join(rows) == p + q;
      forall a, r | 0 <= a < |rows| && 0 <= r < w
        ensures (p + q)[Entry(a, r, w, |rows|)] == rows[a][r]
      {
        if a < n {
          assert init[a] == rows[a];
          assert Entry(a, r, w, |rows|) == Entry(a, r, w, n);
          assert (p + q)[Entry(a, r, w, n)] == p[Entry(a, r, w, n)];
        } else {
          assert Entry(a, r, w, |rows|) == |p| + r;
          assert (p + q)[|p| + r] == q[r];
        }
      }
    }
  }

  /** Cell (a, r) of joined rows of width w. */
  lemma JoinCell<T>(rows: seq<seq<T>>, w: nat, a: nat, r: nat)
    requires forall a :: 0 <= a < |rows| ==> |rows[a]| == w
    requires a < |rows| && r < w
    ensures Entry(a, r, w, |rows|) < |Join(rows)| && Join(rows)[Entry(a, r, w, |rows|)] == rows[a][r]
  {
    JoinAt(rows, w);
  }

  /** An entry of the second of four runs laid end to end sits |a| further on. */
  lemma ConcatAt<T>(a: seq<T>, b: seq<T>, c: seq<T>, e: seq<T>, i: nat)
    requires i < |b|
    ensures |a| + i < |a + b + c + e| && (a + b + c + e)[|a| + i] == b[i]
  {
    assert a + b + c + e == a + (b + c + e);
  }

  /** Every entry of the joined rows is some rows[a][r]. */
  lemma JoinEntry<T>(rows: seq<seq<T>>, w: nat, k: nat) returns (a: nat, r: nat)
    requires forall a :: 0 <= a < |rows| ==> |rows[a]| == w
    requires k < |Join(rows)|
    ensures a < |rows| && r < w && k == Entry(a, r, w, |rows|) && Join(rows)[k] == rows[a][r]
  {
    JoinAt(rows, w);
    a, r := CellOf(k, |rows|, w);
  }

  /** Every entry of joined rows of any widths comes from one row, at a position inside it. */
  lemma {:induction false} JoinMember<T>(rows: seq<seq<T>>, k: nat) returns (a: nat, r: nat)
    requires k < |Join(rows)|
    ensures a < |rows| && r < |rows[a]| && Join(rows)[k] == rows[a][r]
    decreases |rows|
  {
    var n := |rows| - 1;
    var p := Join(rows[..n]);
    assert Join(rows) == p + rows[n];
    if k < |p| {
      a, r := JoinMember(rows[..n], k);
      assert rows[..n][a] == rows[a];
    } else {
      a, r := n, k - |p|;
    }
  }

  /** A value is in the joined rows exactly when it is in one of them. */
  lemma {:induction false} JoinContains<T>(rows: seq<seq<T>>, v: T)
    ensures v in Join(rows) <==> exists a :: 0 <= a < |rows| && v in rows[a]
    decreases |rows|
  {
    if rows != [] {
      var n := |rows| - 1;
      JoinContains(rows[..n], v);
      assert Join(rows) == Join(rows[..n]) + rows[n];
      if exists a :: 0 <= a < |rows| && v in rows[a] {
        var a :| 0 <= a < |rows| && v in rows[a];
        if a < n { assert rows[..n][a] == rows[a]; }
      }
      if exists a :: 0 <= a < n && v in rows[..n][a] {
        var a :| 0 <= a < n && v in rows[..n][a];
        assert rows[..n][a] == rows[a];
      }
    }
  }

  /** Rows without repeats that share no value join to a sequence without repeats. */
  lemma {:induction false} JoinDistinct<T>(rows: seq<seq<T>>)
    requires forall a :: 0 <= a < |rows| ==> Distinct(rows[a])
    requires forall a, b, v :: 0 <= a < b < |rows| && v in rows[a] ==> v !in rows[b]
    ensures Distinct(Join(rows))
    decreases |rows|
  {
    if rows != [] {
      var n := |rows| - 1;
      var init := rows[..n];
      forall a | 0 <= a < |init| ensures Distinct(init[a]) {
        assert init[a] == rows[a];
      }
      forall a, b, v | 0 <= a < b < |init| && v in init[a] ensures v !in init[b] {
        assert init[a] == rows[a] && init[b] == rows[b];
      }
      JoinDistinct(init);
      var p := Join(init);
      forall i, j | 0 <= i < |p| && 0 <= j < |rows[n]| ensures p[i] != rows[n][j] {
        JoinContains(init, p[i]);
        var a :| 0 <= a < n && p[i] in init[a];
        assert init[a] == rows[a];
      }
      DistinctConcat(p, rows[n]);
    }
  }

  /** Rows of at most w entries join to at most Offset(|rows|, w) entries. */
  lemma {:induction false} JoinAtMost<T>(rows: seq<seq<T>>, w: nat)
    requires forall a :: 0 <= a < |rows| ==> |rows[a]| <= w
    ensures |Join(rows)| <= Offset(|rows|, w)
    decreases |rows|
  {
    if rows != [] {
      JoinAtMost(rows[..|rows| - 1], w);
    }
  }

  /** Distinct cells have distinct indices. */
  lemma {:induction false} CellInjective(i1: nat, j1: nat, i2: nat, j2: nat, f: nat)
    requires j1 < f && j2 < f && Offset(i1, f) + j1 == Offset(i2, f) + j2
    ensures i1 == i2 && j1 == j2
    decreases i1 + i2
  {
    if i1 > 0 && i2 > 0 {
      CellInjective(i1 - 1, j1, i2 - 1, j2, f);
    } else if i1 > 0 {
      CellBounds(i2, j2, i1, f);
    } else if i2 > 0 {
      CellBounds(i1, j1, i2, f);
    }
  }
}
