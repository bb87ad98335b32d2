/**
 * geco/mips/set_cover/gasse.py: set cover parameters after Balas and Ho, as
 * generated in learn2branch. The numpy array of row indices is filled in
 * place, column by column, as the compressed sparse column (CSC) layout of
 * a 0/1 matrix; the matrix is then read back row by row (CSR), each row
 * becoming the list of columns that cover it.
 */
module SetCoverGasse {
  import opened Common
  import opened Rand

  datatype GasseError =
    | FewerNonzerosThanRows       // assert nnzrs >= nrows
    | FewerNonzerosThanTwiceCols  // assert nnzrs >= 2 * ncols
    | ColumnLongerThanRows        // choice(..., replace=False) asked for more rows than there are

  /** int(nrows * ncols * density) */
  function Nonzeros(nrows: nat, ncols: nat, density: real): int {
    Trunc((nrows * ncols) as real * density)
  }

  // ------------------------------------------------------------ counting

  lemma {:induction false} CountOne<T>(a: seq<T>, x: T, i: nat)
    requires i < |a| && a[i] == x
    ensures Count(a, x) >= 1
  {
    if i < |a| - 1 {
      assert a[..|a| - 1][i] == x;
      CountOne(a[..|a| - 1], x, i);
    }
  }

  lemma {:induction false} CountTwo<T>(a: seq<T>, x: T, i: nat, j: nat)
    requires i < j < |a| && a[i] == x && a[j] == x
    ensures Count(a, x) >= 2
  {
    var init := a[..|a| - 1];
    if j == |a| - 1 {
      assert init[i] == x;
      CountOne(init, x, i);
    } else {
      assert init[i] == x && init[j] == x;
      CountTwo(init, x, i, j);
    }
  }

  /** np.unique(indices, return_counts=True)[1] when every column 0..ncols-1 occurs. */
  function Counts(a: seq<nat>, ncols: nat): (r: seq<nat>)
    ensures |r| == ncols && forall c :: 0 <= c < ncols ==> r[c] == Count(a, c)
  {
    seq(ncols, c requires 0 <= c < ncols => Count(a, c))
  }

  lemma {:induction false} SumBump(s: seq<nat>, x: nat)
    requires x < |s|
    ensures Sum(s[x := s[x] + 1]) == Sum(s) + 1
  {
    var t := s[x := s[x] + 1];
    if x < |s| - 1 {
      assert t[..|t| - 1] == s[..|s| - 1][x := s[x] + 1];
      SumBump(s[..|s| - 1], x);
    } else {
      assert t[..|t| - 1] == s[..|s| - 1];
    }
  }

  /** The counts of values below ncols add up to the number of slots. */
  lemma {:induction false} CountsSum(a: seq<nat>, ncols: nat)
    requires forall k :: 0 <= k < |a| ==> a[k] < ncols
    ensures Sum(Counts(a, ncols)) == |a|
  {
    if a == [] {
      SumZeros(Counts(a, ncols));
    } else {
      var init, x := a[..|a| - 1], a[|a| - 1];
      CountsSum(init, ncols);
      assert Counts(a, ncols) == Counts(init, ncols)[x := Counts(init, ncols)[x] + 1];
      SumBump(Counts(init, ncols), x);
    }
  }

  lemma {:induction false} SumZeros(s: seq<nat>)
    requires forall k :: 0 <= k < |s| ==> s[k] == 0
    ensures Sum(s) == 0
  {
    if s != [] { SumZeros(s[..|s| - 1]); }
  }

  /** After indices[:2*ncols] = repeat(arange(ncols), 2), every column is counted at least twice. */
  lemma CountsAtLeastTwo(a: seq<nat>, ncols: nat)
    requires 2 * ncols <= |a| && forall k :: 0 <= k < 2 * ncols ==> a[k] == k / 2
    ensures forall c :: 0 <= c < ncols ==> Counts(a, ncols)[c] >= 2
  {
    forall c | 0 <= c < ncols ensures Count(a, c) >= 2 {
      assert a[2 * c] == c && a[2 * c + 1] == c;
      CountTwo(a, c, 2 * c, 2 * c + 1);
    }
  }

  // ------------------------------------------------------------ layout

  /** The column pointer for counts: starts at 0, grows by each count, ends at their sum. */
  predicate IsIndptr(p: seq<nat>, counts: seq<nat>) {
    |p| == |counts| + 1 && p[0] == 0 && p[|counts|] == Sum(counts) &&
    (forall c :: 0 <= c < |counts| ==> p[c] + counts[c] == p[c + 1]) &&
    (forall c :: 0 <= c <= |counts| ==> p[c] <= Sum(counts))
  }

  lemma SumSnoc(s: seq<nat>, c: nat)
    requires c < |s|
    ensures Sum(s[..c + 1]) == Sum(s[..c]) + s[c]
  {
    assert s[..c + 1][..c] == s[..c];
  }

  lemma SumAppend(s: seq<nat>, x: nat)
    ensures Sum(s + [x]) == Sum(s) + x
  {
    assert (s + [x])[..|s|] == s;
  }

  lemma {:induction false} SumPrefixLe(s: seq<nat>, c: nat)
    requires c <= |s|
    ensures Sum(s[..c]) <= Sum(s)
    decreases |s| - c
  {
    if c < |s| {
      SumSnoc(s, c);
      SumPrefixLe(s, c + 1);
    } else {
      assert s[..c] == s;
    }
  }

  /** indptr.append(i) after i += n keeps the pointer in step with the counts. */
  lemma IndptrSnoc(p: seq<nat>, counts: seq<nat>, x: nat)
    requires IsIndptr(p, counts)
    ensures IsIndptr(p + [Sum(counts) + x], counts + [x])
  {
    SumAppend(counts, x);
    var p', counts' := p + [Sum(counts) + x], counts + [x];
    forall c | 0 <= c < |counts'| ensures p'[c] + counts'[c] == p'[c + 1] {
      if c < |counts| { assert p'[c] == p[c] && counts'[c] == counts[c]; }
    }
  }

  /** A column's rows are distinct rows of the matrix. */
  predicate RowsOk(seg: seq<nat>, nrows: nat) {
    Distinct(seg) && forall k :: 0 <= k < |seg| ==> seg[k] < nrows
  }

  /** The values 0..n-1, each once, in some order (numpy's permutation(n)). */
  predicate IsPermutation(s: seq<nat>, n: nat) {
    |s| == n && RowsOk(s, n)
  }

  // ------------------------------------------------------------ remaining rows

  /** np.setdiff1d(np.arange(n), excl): the rows below n outside excl, ascending. */
  function RowsOutside(n: nat, excl: set<nat>): (r: seq<nat>)
    ensures forall k :: 0 <= k < |r| ==> r[k] < n && r[k] !in excl
    ensures forall p, q :: 0 <= p < q < |r| ==> r[p] < r[q]
  {
    if n == 0 then [] else RowsOutside(n - 1, excl) + (if n - 1 in excl then [] else [n - 1])
  }

  lemma RowsOutsideDistinct(n: nat, excl: set<nat>)
    ensures Distinct(RowsOutside(n, excl))
  {
  }

  function ExcludedBelow(excl: set<nat>, n: nat): set<nat> {
    set v | v in excl && v < n
  }

  /** There are as many remaining rows as rows not excluded. */
  lemma {:induction false} RowsOutsideCount(n: nat, excl: set<nat>)
    ensures |RowsOutside(n, excl)| + |ExcludedBelow(excl, n)| == n
  {
    if n > 0 {
      RowsOutsideCount(n - 1, excl);
      var below, below1 := ExcludedBelow(excl, n), ExcludedBelow(excl, n - 1);
      if n - 1 in excl {
        assert below == below1 + {n - 1};
      } else {
        assert below == below1;
      }
    }
  }

  /** Excluding the rows of a slice of a permutation from i to n leaves exactly i rows. */
  lemma RemainingCount(slice: seq<nat>, n: nat, i: nat)
    requires RowsOk(slice, n) && |slice| == n - i && i <= n
    ensures |RowsOutside(n, ToSet(slice))| == i
  {
    RowsOutsideCount(n, ToSet(slice));
    DistinctCard(slice);
    assert ExcludedBelow(ToSet(slice), n) == ToSet(slice);
    assert |ToSet(slice)| == n - i;
  }

  // ------------------------------------------------------------ in-place fills

  /** indices[lo : lo + len(vals)] = vals */
  method AssignSlice(a: array<nat>, lo: nat, vals: seq<nat>)
    requires lo + |vals| <= a.Length
    modifies a
    ensures a[..] == old(a[..lo]) + vals + old(a[lo + |vals|..])
  {
    var k := 0;
    while k < |vals|
      invariant 0 <= k <= |vals|
      invariant forall j :: 0 <= j < a.Length ==> a[j] == (if lo <= j < lo + k then vals[j - lo] else old(a[j]))
    {
      a[lo + k] := vals[k];
      k := k + 1;
    }
  }

  /** indices[: 2 * ncols] = np.repeat(np.arange(ncols), 2) */
  method ForceTwoPerColumn(a: array<nat>, ncols: nat)
    requires 2 * ncols <= a.Length
    modifies a
    ensures forall k :: 0 <= k < 2 * ncols ==> a[k] == k / 2
    ensures forall k :: 2 * ncols <= k < a.Length ==> a[k] == old(a[k])
  {
    var k := 0;
    while k < 2 * ncols
      invariant 0 <= k <= 2 * ncols
      invariant forall j :: 0 <= j < k ==> a[j] == j / 2
      invariant forall j :: k <= j < a.Length ==> a[j] == old(a[j])
    {
      a[k] := k / 2;
      k := k + 1;
    }
  }

  /** seed.choice(nrows, size=n, replace=False) for a column past the permutation prefix. */
  method FillPastPrefix(a: array<nat>, i: nat, n: nat, nrows: nat, s: Sampler) returns (ok: bool)
    requires s.Valid() && nrows <= i && i + n <= a.Length
    modifies a, s
    ensures s.Valid()
    ensures ok <==> n <= nrows
    ensures a[..i] == old(a[..i])
    ensures ok ==> RowsOk(a[i..i + n], nrows)
  {
    if n > nrows { return false; }
    var rows := s.NpChoiceDistinct(Naturals(nrows), n);
    NaturalsDistinct(nrows);
    SubMultisetDistinct(rows, Naturals(nrows));
    forall k | 0 <= k < n ensures rows[k] < nrows {
      assert rows[k] in multiset(Naturals(nrows));
    }
    AssignSlice(a, i, rows);
    assert a[i..i + n] == rows;
    assert a[..i] == old(a[..i]);
    ok := true;
  }

  /**
   * A column straddling the end of the prefix keeps its prefix rows and is
   * completed with rows drawn from the setdiff of all rows and those.
   */
  method FillStraddling(a: array<nat>, i: nat, n: nat, nrows: nat, s: Sampler) returns (ok: bool)
    requires s.Valid() && i < nrows < i + n <= a.Length
    requires RowsOk(a[..nrows], nrows)
    modifies a, s
    ensures s.Valid()
    ensures ok <==> n <= nrows
    ensures a[..nrows] == old(a[..nrows])
    ensures ok ==> RowsOk(a[i..i + n], nrows)
  {
    ghost var prefix := a[..nrows];
    var slice := a[i..nrows];
    var remaining := RowsOutside(nrows, ToSet(slice));
    KeptRows(prefix, slice, i, nrows);
    if i + n - nrows > |remaining| { return false; }
    var rows := s.NpChoiceDistinct(remaining, i + n - nrows);
    DrawnRows(rows, remaining);
    ghost var rest := a[nrows + |rows|..];
    AssignSlice(a, nrows, rows);
    SplitSlices(prefix, rows, rest, i, a[..]);
    JoinedRowsOk(slice, rows, nrows);
    ok := true;
  }

  /** The prefix rows kept by a straddling column, and how many rows remain outside them. */
  lemma KeptRows(prefix: seq<nat>, slice: seq<nat>, i: nat, nrows: nat)
    requires |prefix| == nrows && i < nrows && RowsOk(prefix, nrows) && slice == prefix[i..]
    ensures RowsOk(slice, nrows)
    ensures |RowsOutside(nrows, ToSet(slice))| == i
  {
    RemainingCount(slice, nrows, i);
  }

  /** A draw without replacement from distinct rows yields distinct rows of the pool. */
  lemma DrawnRows(rows: seq<nat>, pool: seq<nat>)
    requires Distinct(pool) && multiset(rows) <= multiset(pool)
    ensures Distinct(rows) && forall k :: 0 <= k < |rows| ==> rows[k] in pool
  {
    SubMultisetDistinct(rows, pool);
    forall k | 0 <= k < |rows| ensures rows[k] in pool {
      assert rows[k] in multiset(pool);
    }
  }

  lemma SplitSlices(prefix: seq<nat>, rows: seq<nat>, rest: seq<nat>, i: nat, now: seq<nat>)
    requires i <= |prefix| && now == prefix + rows + rest
    ensures now[..|prefix|] == prefix
    ensures now[i..|prefix| + |rows|] == prefix[i..] + rows
  {
    assert now[..|prefix| + |rows|] == prefix + rows;
  }

  /** The kept prefix rows and distinct rows drawn outside them are distinct rows together. */
  lemma JoinedRowsOk(slice: seq<nat>, rows: seq<nat>, nrows: nat)
    requires RowsOk(slice, nrows) && Distinct(rows)
    requires forall k :: 0 <= k < |rows| ==> rows[k] in RowsOutside(nrows, ToSet(slice))
    ensures RowsOk(slice + rows, nrows)
  {
    var seg := slice + rows;
    forall k | 0 <= k < |seg| ensures seg[k] < nrows {
      if k >= |slice| { assert seg[k] == rows[k - |slice|]; }
    }
    forall p, q | 0 <= p < q < |seg| ensures seg[p] != seg[q] {
      if q >= |slice| && p < |slice| {
        assert seg[q] == rows[q - |slice|] && rows[q - |slice|] !in ToSet(slice);
      } else if p >= |slice| {
        assert seg[p] == rows[p - |slice|] && seg[q] == rows[q - |slice|];
      }
    }
  }

  /**
   * Column c, starting at slot i, gets its rows: a column wholly inside the
   * permutation prefix keeps its slots, the others are filled by a draw
   * without replacement, which fails when the column is longer than there
   * are rows.
   */
  method FillColumn(a: array<nat>, i: nat, n: nat, nrows: nat, s: Sampler) returns (ok: bool)
    requires s.Valid() && i + n <= a.Length && nrows <= a.Length
    requires RowsOk(a[..nrows], nrows)
    modifies a, s
    ensures s.Valid()
    ensures ok <==> n <= nrows
    ensures a[..nrows] == old(a[..nrows]) && a[..i] == old(a[..i])
    ensures ok ==> RowsOk(a[i..i + n], nrows)
  {
    if i >= nrows {
      ok := FillPastPrefix(a, i, n, nrows, s);
      assert a[..nrows] == a[..i][..nrows];
      assert old(a[..nrows]) == old(a[..i])[..nrows];
    } else if i + n > nrows {
      ok := FillStraddling(a, i, n, nrows, s);
      assert a[..i] == a[..nrows][..i];
      assert old(a[..i]) == old(a[..nrows])[..i];
    } else {
      assert a[i..i + n] == a[..nrows][i..i + n];
      ok := true;
    }
  }

  /** The first c columns of the pointer p lie inside x and hold distinct rows. */
  predicate Filled(x: seq<nat>, p: seq<nat>, c: nat, nrows: nat) {
    c < |p| && forall d :: 0 <= d < c ==> ColumnOk(x, p, d, nrows)
  }

  /** Column d's slots lie inside x and hold distinct rows. */
  predicate ColumnOk(x: seq<nat>, p: seq<nat>, d: nat, nrows: nat) {
    d + 1 < |p| && p[d] <= p[d + 1] <= |x| && RowsOk(x[p[d]..p[d + 1]], nrows)
  }

  /** One pass of the loop over col_nrows: fill column c and append to indptr. */
  method FillNext(a: array<nat>, counts: seq<nat>, c: nat, indptr: seq<nat>, nrows: nat, s: Sampler)
    returns (ok: bool, next: seq<nat>)
    requires s.Valid() && c < |counts| && Sum(counts) == a.Length && nrows <= a.Length
    requires RowsOk(a[..nrows], nrows)
    requires IsIndptr(indptr, counts[..c]) && Filled(a[..], indptr, c, nrows)
    modifies a, s
    ensures s.Valid()
    ensures ok <==> counts[c] <= nrows
    ensures a[..nrows] == old(a[..nrows])
    ensures ok ==> IsIndptr(next, counts[..c + 1]) && Filled(a[..], next, c + 1, nrows)
  {
    var n, i := counts[c], indptr[c];
    assert counts[..c + 1] == counts[..c] + [n];
    SumSnoc(counts, c);
    SumPrefixLe(counts, c + 1);
    ghost var before := a[..];
    ok := FillColumn(a, i, n, nrows, s);
    if !ok { return ok, indptr; }
    IndptrSnoc(indptr, counts[..c], n);
    next := indptr + [i + n];
    forall d | 0 <= d < c + 1 ensures ColumnOk(a[..], next, d, nrows) {
      assert ColumnOk(before, indptr, d, nrows) || d == c;
      if d < c {
        assert next[d] == indptr[d] && next[d + 1] == indptr[d + 1];
        assert a[..][indptr[d]..indptr[d + 1]] == a[..i][indptr[d]..indptr[d + 1]];
        assert before[indptr[d]..indptr[d + 1]] == before[..i][indptr[d]..indptr[d + 1]];
      } else {
        assert a[..][next[d]..next[d + 1]] == a[i..i + n];
      }
    }
  }

  /**
   * The loop over col_nrows: the running offset i and the indptr list grow as
   * each column is filled. It stops at the first column longer than nrows.
   */
  method FillColumns(a: array<nat>, counts: seq<nat>, nrows: nat, s: Sampler) returns (res: Result<seq<nat>, GasseError>)
    requires s.Valid() && Sum(counts) == a.Length && nrows <= a.Length
    requires RowsOk(a[..nrows], nrows)
    modifies a, s
    ensures s.Valid()
    ensures res.Failure? <==> exists c :: 0 <= c < |counts| && counts[c] > nrows
    ensures res.Failure? ==> res.error == ColumnLongerThanRows
    ensures res.Success? ==>
      IsIndptr(res.value, counts) && a[..nrows] == old(a[..nrows]) && Filled(a[..], res.value, |counts|, nrows)
  {
    var indptr: seq<nat> := [0];
    var c := 0;
    while c < |counts|
      invariant 0 <= c <= |counts| && IsIndptr(indptr, counts[..c]) && Filled(a[..], indptr, c, nrows)
      invariant s.Valid() && a[..nrows] == old(a[..nrows])
      invariant forall d :: 0 <= d < c ==> counts[d] <= nrows
    {
      var ok;
      ok, indptr := FillNext(a, counts, c, indptr, nrows, s);
      if !ok {
        return Failure(ColumnLongerThanRows);
      }
      c := c + 1;
    }
    assert counts[..c] == counts;
    res := Success(indptr);
  }

  // ------------------------------------------------------------ CSC to CSR

  /** The CSC arrays describe ncols columns over the slots of indices. */
  predicate Csc(indices: seq<nat>, indptr: seq<nat>, ncols: nat) {
    |indptr| == ncols + 1 &&
    (forall c :: 0 <= c < ncols ==> indptr[c] <= indptr[c + 1]) &&
    forall c :: 0 <= c <= ncols ==> indptr[c] <= |indices|
  }

  lemma IndptrCsc(indices: seq<nat>, indptr: seq<nat>, counts: seq<nat>)
    requires IsIndptr(indptr, counts) && Sum(counts) == |indices|
    ensures Csc(indices, indptr, |counts|)
  {
  }

  function Column(indices: seq<nat>, indptr: seq<nat>, ncols: nat, c: nat): seq<nat>
    requires Csc(indices, indptr, ncols) && c < ncols
  {
    indices[indptr[c]..indptr[c + 1]]
  }

  /** The columns below c whose rows include r, ascending. */
  function ColumnsHolding(indices: seq<nat>, indptr: seq<nat>, ncols: nat, r: nat, c: nat): (cs: seq<nat>)
    requires Csc(indices, indptr, ncols) && c <= ncols
    ensures forall p :: 0 <= p < |cs| ==> cs[p] < c && r in Column(indices, indptr, ncols, cs[p])
    ensures forall p, q :: 0 <= p < q < |cs| ==> cs[p] < cs[q]
  {
    if c == 0 then []
    else
      ColumnsHolding(indices, indptr, ncols, r, c - 1)
      + (if r in Column(indices, indptr, ncols, c - 1) then [c - 1] else [])
  }

  /** Every column below c holding r is listed. */
  lemma {:induction false} ColumnsHoldingAll(indices: seq<nat>, indptr: seq<nat>, ncols: nat, r: nat, c: nat, x: nat)
    requires Csc(indices, indptr, ncols) && c <= ncols
    requires x < c && r in Column(indices, indptr, ncols, x)
    ensures x in ColumnsHolding(indices, indptr, ncols, r, c)
  {
    if x < c - 1 {
      ColumnsHoldingAll(indices, indptr, ncols, r, c - 1, x);
    }
  }

  /** .tocsr(), then sets[r] = list(indices[indptr[r]:indptr[r + 1]]) for each row r. */
  function CsrRows(indices: seq<nat>, indptr: seq<nat>, nrows: nat, ncols: nat): (sets: seq<seq<nat>>)
    requires Csc(indices, indptr, ncols)
    ensures |sets| == nrows
    ensures forall r, k :: 0 <= r < nrows && 0 <= k < |sets[r]| ==>
      sets[r][k] < ncols && r in Column(indices, indptr, ncols, sets[r][k])
    ensures forall r, p, q :: 0 <= r < nrows && 0 <= p < q < |sets[r]| ==> sets[r][p] < sets[r][q]
  {
    seq(nrows, r requires 0 <= r < nrows => ColumnsHolding(indices, indptr, ncols, r, ncols))
  }

  /** Row r of the CSR view lists column c exactly when column c holds row r. */
  lemma CsrRowsComplete(indices: seq<nat>, indptr: seq<nat>, nrows: nat, ncols: nat, r: nat, c: nat)
    requires Csc(indices, indptr, ncols) && r < nrows && c < ncols
    ensures c in CsrRows(indices, indptr, nrows, ncols)[r] <==> r in Column(indices, indptr, ncols, c)
  {
    if r in Column(indices, indptr, ncols, c) {
      ColumnsHoldingAll(indices, indptr, ncols, r, ncols, c);
    }
  }

  /** Column c covers at least two different rows. */
  predicate CoversTwoRows(sets: seq<seq<nat>>, c: nat) {
    exists r1, r2 :: 0 <= r1 < r2 < |sets| && c in sets[r1] && c in sets[r2]
  }

  /** Some column's slots hold slot k. */
  lemma {:induction false} SlotInColumn(indptr: seq<nat>, counts: seq<nat>, k: nat)
    requires IsIndptr(indptr, counts) && k < Sum(counts)
    ensures exists c :: 0 <= c < |counts| && indptr[c] <= k < indptr[c + 1]
  {
    var c := 0;
    while indptr[c + 1] <= k
      invariant 0 <= c < |counts| && indptr[c] <= k
      decreases |counts| - c
    {
      c := c + 1;
    }
  }

  /** Every row is covered: the permutation prefix puts each row into some column. */
  lemma RowsCovered(indices: seq<nat>, indptr: seq<nat>, counts: seq<nat>, nrows: nat)
    requires IsIndptr(indptr, counts) && Sum(counts) == |indices| && nrows <= |indices|
    requires IsPermutation(indices[..nrows], nrows)
    ensures Csc(indices, indptr, |counts|)
    ensures forall r :: 0 <= r < nrows ==> CsrRows(indices, indptr, nrows, |counts|)[r] != []
  {
    var ncols := |counts|;
    IndptrCsc(indices, indptr, counts);
    var sets := CsrRows(indices, indptr, nrows, ncols);
    PermutationCovers(indices[..nrows], nrows);
    forall r | 0 <= r < nrows ensures sets[r] != [] {
      assert r in indices[..nrows];
      var k :| 0 <= k < nrows && indices[..nrows][k] == r;
      SlotInColumn(indptr, counts, k);
      var c :| 0 <= c < ncols && indptr[c] <= k < indptr[c + 1];
      assert Column(indices, indptr, ncols, c)[k - indptr[c]] == r;
      CsrRowsComplete(indices, indptr, nrows, ncols, r, c);
    }
  }

  /** Every column covers two rows: it has at least two slots, holding distinct rows. */
  lemma ColumnsCoverTwo(indices: seq<nat>, indptr: seq<nat>, counts: seq<nat>, nrows: nat)
    requires IsIndptr(indptr, counts) && Sum(counts) == |indices|
    requires forall c :: 0 <= c < |counts| ==> counts[c] >= 2
    requires Filled(indices, indptr, |counts|, nrows)
    ensures Csc(indices, indptr, |counts|)
    ensures forall c :: 0 <= c < |counts| ==> CoversTwoRows(CsrRows(indices, indptr, nrows, |counts|), c)
  {
    var ncols := |counts|;
    IndptrCsc(indices, indptr, counts);
    var sets := CsrRows(indices, indptr, nrows, ncols);
    forall c | 0 <= c < ncols ensures CoversTwoRows(sets, c) {
      var col := Column(indices, indptr, ncols, c);
      assert |col| == counts[c];
      assert ColumnOk(indices, indptr, c, nrows);
      assert RowsOk(col, nrows);
      var a, b := col[0], col[1];
      assert a != b && a < nrows && b < nrows;
      CsrRowsComplete(indices, indptr, nrows, ncols, a, c);
      CsrRowsComplete(indices, indptr, nrows, ncols, b, c);
      if a < b {
        assert 0 <= a < b < nrows && c in sets[a] && c in sets[b];
      } else {
        assert 0 <= b < a < nrows && c in sets[b] && c in sets[a];
      }
    }
  }

  // ------------------------------------------------------------ gasse_params

  /** c = seed.randint(max_coef, size=ncols) + 1 */
  method DrawCosts(maxCoef: nat, ncols: nat, s: Sampler) returns (costs: seq<int>)
    requires s.Valid() && maxCoef >= 1
    modifies s
    ensures s.Valid()
    ensures |costs| == ncols && forall j :: 0 <= j < ncols ==> 1 <= costs[j] <= maxCoef
  {
    var draws := s.NpRandInts(maxCoef, ncols);
    costs := seq(ncols, j requires 0 <= j < ncols => draws[j] + 1);
  }

  /**
   * The CSC layout: a random column for every slot, the first 2 * ncols slots
   * forced to two per column, the column counts, the permutation of the rows
   * written over the first nrows slots, then the column fill. Yields the row
   * indices, the column pointer and the column counts.
   */
  method LayOut(nrows: nat, ncols: nat, nnzrs: nat, s: Sampler)
    returns (res: Result<(seq<nat>, seq<nat>, seq<nat>), GasseError>)
    requires s.Valid() && nrows <= nnzrs && 2 * ncols <= nnzrs && (ncols == 0 ==> nnzrs == 0)
    modifies s
    ensures s.Valid()
    ensures res.Failure? ==> res.error == ColumnLongerThanRows
    ensures res.Success? ==>
      var (indices, indptr, counts) := res.value;
      |indices| == nnzrs && |counts| == ncols &&
      IsIndptr(indptr, counts) && Sum(counts) == |indices| &&
      IsPermutation(indices[..nrows], nrows) &&
      (forall c :: 0 <= c < ncols ==> counts[c] >= 2) &&
      Filled(indices, indptr, ncols, nrows)
  {
    var cols := s.NpChoices(ncols, nnzrs);
    var a := new nat[nnzrs](k requires 0 <= k < nnzrs => cols[k]);
    ForceTwoPerColumn(a, ncols);
    var counts := Counts(a[..], ncols);
    CountsSum(a[..], ncols);
    CountsAtLeastTwo(a[..], ncols);
    var perm := s.NpPermutation(nrows);
    AssignSlice(a, 0, perm);
    assert a[..nrows] == perm;
    var filled := FillColumns(a, counts, nrows, s);
    if filled.Failure? {
      return Failure(filled.error);
    }
    res := Success((a[..], filled.value, counts));
  }

  /**
   * gasse_params: the two asserts on the number of nonzeros, the random
   * column of every slot with the first 2 * ncols forced, the column counts,
   * the permutation of the rows written over the first nrows slots, the
   * column fill, the costs randint(max_coef) + 1 and the CSR rows.
   */
  method GasseParams(nrows: nat, ncols: nat, density: real, maxCoef: nat, s: Sampler)
    returns (res: Result<(seq<int>, seq<seq<nat>>), GasseError>)
    requires s.Valid() && maxCoef >= 1
    modifies s
    ensures s.Valid()
    ensures Nonzeros(nrows, ncols, density) < nrows ==> res == Failure(FewerNonzerosThanRows)
    ensures nrows <= Nonzeros(nrows, ncols, density) < 2 * ncols ==> res == Failure(FewerNonzerosThanTwiceCols)
    ensures res == Failure(ColumnLongerThanRows) ==> nrows <= Nonzeros(nrows, ncols, density) && 2 * ncols <= Nonzeros(nrows, ncols, density)
    ensures res.Success? ==>
      var (costs, sets) := res.value;
      |costs| == ncols && (forall j :: 0 <= j < ncols ==> 1 <= costs[j] <= maxCoef) &&
      |sets| == nrows &&
      (forall r :: 0 <= r < nrows ==> sets[r] != []) &&
      (forall r, k :: 0 <= r < nrows && 0 <= k < |sets[r]| ==> sets[r][k] < ncols) &&
      (forall r, p, q :: 0 <= r < nrows && 0 <= p < q < |sets[r]| ==> sets[r][p] < sets[r][q]) &&
      forall c :: 0 <= c < ncols ==> CoversTwoRows(sets, c)
  {
    var nnzrs := Nonzeros(nrows, ncols, density);
    if nnzrs < nrows { return Failure(FewerNonzerosThanRows); }
    if nnzrs < 2 * ncols { return Failure(FewerNonzerosThanTwiceCols); }
    var layout := LayOut(nrows, ncols, nnzrs, s);
    if layout.Failure? {
      return Failure(layout.error);
    }
    var (indices, indptr, counts) := layout.value;
    var costs := DrawCosts(maxCoef, ncols, s);
    RowsCovered(indices, indptr, counts, nrows);
    ColumnsCoverTwo(indices, indptr, counts, nrows);
    var sets := CsrRows(indices, indptr, nrows, ncols);
    res := Success((costs, sets));
  }
}
