/**
 * Gauss-Jordan elimination with full pivoting, as the HVVP retrieval uses it
 * to solve its normal equations: a is the n x n coefficient matrix, reduced
 * in place, and b the n x m right-hand sides. Each step picks the largest
 * entry (in magnitude) among the rows and columns not yet pivoted, moves it
 * onto the diagonal by a row exchange, divides its row by it and clears its
 * column from the other rows; a zero pivot stops the elimination with a
 * failure. The column exchanges recorded along the way are undone at the end.
 * Each pass is specified on matrix values (Pass) and the whole elimination as
 * a sequence of passes (Run); that a ends as the inverse and b as the
 * solution is not proved.
 */
module GaussJordan {

  function Abs(x: real): real
  {
    if x < 0.0 then -x else x
  }

  /** No index occurs twice. */
  predicate Distinct(s: seq<int>)
  {
    forall p, q :: 0 <= p < q < |s| ==> s[p] != s[q]
  }

  predicate InRange(s: seq<int>, n: int)
  {
    forall p :: 0 <= p < |s| ==> 0 <= s[p] < n
  }

  lemma {:induction false} DistinctSetSize(s: seq<int>)
    requires Distinct(s)
    ensures |set x | x in s| == |s|
  {
    if s != [] {
      var t := s[..|s| - 1];
      DistinctSetSize(t);
      assert (set x | x in s) == (set x | x in t) + {s[|s| - 1]};
      assert s[|s| - 1] !in t;
    }
  }

  /** The indices 0 .. n - 1. */
  ghost function Indices(n: int): (r: set<int>)
    ensures forall k :: k in r <==> 0 <= k < n
    ensures n >= 0 ==> |r| == n
    decreases n
  {
    if n <= 0 then {} else Indices(n - 1) + {n - 1}
  }

  lemma SubsetSize(x: set<int>, y: set<int>)
    requires x <= y
    ensures |x| <= |y|
  {
    assert y == x + (y - x);
    assert x * (y - x) == {};
  }

  /** Fewer than n distinct indices below n leave one of them out. */
  lemma UnpivotedExists(cols: seq<int>, n: int)
    requires Distinct(cols) && InRange(cols, n) && |cols| < n
    ensures exists k :: 0 <= k < n && k !in cols
  {
    var used := set x | x in cols;
    DistinctSetSize(cols);
    if forall k :: 0 <= k < n ==> k in cols {
      SubsetSize(Indices(n), used);
      assert false;
    }
  }

  /** n distinct indices below n are all of them. */
  lemma AllPivoted(cols: seq<int>, n: int)
    requires Distinct(cols) && InRange(cols, n) && |cols| == n
    ensures forall k :: 0 <= k < n ==> k in cols
  {
    var used := set x | x in cols;
    DistinctSetSize(cols);
    forall k | 0 <= k < n ensures k in cols {
      if k !in cols {
        SubsetSize(used + {k}, Indices(n));
      }
    }
  }


  /** A matrix value, row by row. */
  type Matrix = seq<seq<real>>

  /** M has r rows of c entries each. */
  predicate Shaped(M: Matrix, r: int, c: int)
  {
    |M| == r && forall i :: 0 <= i < r ==> |M[i]| == c
  }

  /** The contents of a, row by row. */
  ghost function Snap(a: array2<real>): (M: Matrix)
    reads a
    ensures Shaped(M, a.Length0, a.Length1)
    ensures forall r, c :: 0 <= r < a.Length0 && 0 <= c < a.Length1 ==> M[r][c] == a[r, c]
  {
    seq(a.Length0, r requires 0 <= r < a.Length0 reads a =>
      seq(a.Length1, c requires 0 <= c < a.Length1 reads a => a[r, c]))
  }

  lemma SnapIs(a: array2<real>, M: Matrix)
    requires Shaped(M, a.Length0, a.Length1)
    requires forall r, c :: 0 <= r < a.Length0 && 0 <= c < a.Length1 ==> a[r, c] == M[r][c]
    ensures Snap(a) == M
  {
    forall r | 0 <= r < a.Length0
      ensures Snap(a)[r] == M[r]
    {
    }
  }

  /** The n x n identity. */
  function Identity(n: nat): (I: Matrix)
    ensures Shaped(I, n, n)
    ensures forall r, c :: 0 <= r < n && 0 <= c < n ==> I[r][c] == if r == c then 1.0 else 0.0
  {
    seq(n, r => seq(n, c => if r == c then 1.0 else 0.0))
  }

  /** Every entry of v times s. */
  function Scale(v: seq<real>, s: real): (w: seq<real>)
    ensures |w| == |v| && forall c :: 0 <= c < |v| ==> w[c] == v[c] * s
  {
    seq(|v|, c requires 0 <= c < |v| => v[c] * s)
  }

  /** v less t times the pivot row. */
  function RowMinus(v: seq<real>, pivotRow: seq<real>, t: real): (w: seq<real>)
    requires |pivotRow| == |v|
    ensures |w| == |v| && forall c :: 0 <= c < |v| ==> w[c] == v[c] - pivotRow[c] * t
  {
    seq(|v|, c requires 0 <= c < |v| => v[c] - pivotRow[c] * t)
  }

  /** Rows r1 and r2 exchanged. */
  function SwapRowsM(M: Matrix, r1: int, r2: int): (S: Matrix)
    requires 0 <= r1 < |M| && 0 <= r2 < |M|
    ensures |S| == |M|
    ensures forall r :: 0 <= r < |M| ==> S[r] == M[if r == r1 then r2 else if r == r2 then r1 else r]
  {
    M[r1 := M[r2]][r2 := M[r1]]
  }

  /** Columns c1 and c2 exchanged in every row. */
  function SwapColsM(M: Matrix, n: int, c1: int, c2: int): (S: Matrix)
    requires Shaped(M, |M|, n) && 0 <= c1 < n && 0 <= c2 < n
    ensures Shaped(S, |M|, n)
    ensures forall r, c :: 0 <= r < |M| && 0 <= c < n ==>
      S[r][c] == M[r][if c == c1 then c2 else if c == c2 then c1 else c]
  {
    seq(|M|, r requires 0 <= r < |M| => M[r][c1 := M[r][c2]][c2 := M[r][c1]])
  }

  /** Entry (r, c) of M replaced by v. */
  function SetEntry(M: Matrix, r: int, c: int, v: real): (S: Matrix)
    requires 0 <= r < |M| && 0 <= c < |M[r]|
  {
    M[r := M[r][c := v]]
  }

  /** Row r of M multiplied by s. */
  function ScaleRowM(M: Matrix, r: int, s: real): (S: Matrix)
    requires 0 <= r < |M|
  {
    M[r := Scale(M[r], s)]
  }

  /** Row ll of M less t times row icol. */
  function RowOpM(M: Matrix, ll: int, icol: int, t: real): (S: Matrix)
    requires 0 <= ll < |M| && 0 <= icol < |M| && |M[icol]| == |M[ll]|
  {
    M[ll := RowMinus(M[ll], M[icol], t)]
  }

  /** The pivot set to 1, then its row of a multiplied by pivinv. */
  function ScaledA(A: Matrix, n: int, icol: int, pivinv: real): (S: Matrix)
    requires Shaped(A, n, n) && 0 <= icol < n
    ensures Shaped(S, n, n)
  {
    ScaleRowM(SetEntry(A, icol, icol, 1.0), icol, pivinv)
  }

  /** The pivot row of b multiplied by pivinv. */
  function ScaledB(B: Matrix, m: int, icol: int, pivinv: real): (S: Matrix)
    requires Shaped(B, |B|, m) && 0 <= icol < |B|
    ensures Shaped(S, |B|, m)
  {
    ScaleRowM(B, icol, pivinv)
  }

  /**
   * Rows of a below k, but the pivot row, have lost temp times the pivot row,
   * where temp is the row's entry in the pivot column, first set to 0.
   */
  function EliminatedUpTo(A: Matrix, n: int, icol: int, k: int): (E: Matrix)
    requires Shaped(A, n, n) && 0 <= icol < n
    ensures Shaped(E, n, n)
  {
    seq(n, r requires 0 <= r < n =>
      if r == icol || r >= k then A[r] else RowMinus(A[r][icol := 0.0], A[icol], A[r][icol]))
  }

  /** The same rows of b, with the temps taken from a. */
  function EliminatedBUpTo(A: Matrix, B: Matrix, n: int, m: int, icol: int, k: int): (E: Matrix)
    requires Shaped(A, n, n) && Shaped(B, n, m) && 0 <= icol < n
    ensures Shaped(E, n, m)
  {
    seq(n, r requires 0 <= r < n =>
      if r == icol || r >= k then B[r] else RowMinus(B[r], B[icol], A[r][icol]))
  }

  /** Every row of a but the pivot row reduced by the pivot row. */
  function EliminatedA(A: Matrix, n: int, icol: int): (E: Matrix)
    requires Shaped(A, n, n) && 0 <= icol < n
    ensures Shaped(E, n, n)
  {
    EliminatedUpTo(A, n, icol, n)
  }

  /** Every row of b but the pivot row reduced by the pivot row. */
  function EliminatedB(A: Matrix, B: Matrix, n: int, m: int, icol: int): (E: Matrix)
    requires Shaped(A, n, n) && Shaped(B, n, m) && 0 <= icol < n
    ensures Shaped(E, n, m)
  {
    EliminatedBUpTo(A, B, n, m, icol, n)
  }

  /** a after its non-zero pivot, already on the diagonal, has been used. */
  function ReducedA(S: Matrix, n: int, icol: int): (R: Matrix)
    requires Shaped(S, n, n) && 0 <= icol < n && S[icol][icol] != 0.0
    ensures Shaped(R, n, n)
  {
    EliminatedA(ScaledA(S, n, icol, 1.0 / S[icol][icol]), n, icol)
  }

  /** b after the same pass. */
  function ReducedB(S: Matrix, T: Matrix, n: int, m: int, icol: int): (R: Matrix)
    requires Shaped(S, n, n) && Shaped(T, n, m) && 0 <= icol < n && S[icol][icol] != 0.0
    ensures Shaped(R, n, m)
  {
    var pivinv := 1.0 / S[icol][icol];
    EliminatedB(ScaledA(S, n, icol, pivinv), ScaledB(T, m, icol, pivinv), n, m, icol)
  }

  /** Entry (j, k) lies in a row and a column that are not yet pivoted. */
  predicate Unpivoted(n: int, done: seq<int>, j: int, k: int)
  {
    0 <= j < n && 0 <= k < n && j !in done && k !in done
  }

  /** (j, k) comes after (r, c) in row-major order. */
  predicate Later(j: int, k: int, r: int, c: int)
  {
    j > r || (j == r && k > c)
  }

  /**
   * The pivot rule of the search: an entry of greatest magnitude among the
   * unpivoted rows and columns, and of those the last in row-major order,
   * since the search takes a new candidate on ties.
   */
  ghost predicate IsPivotChoice(A: Matrix, n: int, done: seq<int>, irow: int, icol: int)
    requires Shaped(A, n, n)
  {
    Unpivoted(n, done, irow, icol) &&
    (forall j, k :: Unpivoted(n, done, j, k) ==> Abs(A[j][k]) <= Abs(A[irow][icol])) &&
    (forall j, k :: Unpivoted(n, done, j, k) && Later(j, k, irow, icol) ==> Abs(A[j][k]) < Abs(A[irow][icol]))
  }

  /** Every entry in the unpivoted rows and columns of A is 0. */
  ghost predicate ZeroRemainder(A: Matrix, n: int, done: seq<int>)
    requires Shaped(A, n, n)
  {
    forall j, k :: Unpivoted(n, done, j, k) ==> A[j][k] == 0.0
  }

  /**
   * One pass from a and b to a' and b', with done the columns already pivoted:
   * the chosen entry is moved onto the diagonal by a row exchange; a zero pivot
   * ends the pass there, any other is used to scale and eliminate.
   */
  ghost predicate Pass(A: Matrix, B: Matrix, n: int, m: int, done: seq<int>,
                       irow: int, icol: int, pivot: real, A': Matrix, B': Matrix)
    requires Shaped(A, n, n) && Shaped(B, n, m)
  {
    IsPivotChoice(A, n, done, irow, icol) &&
    pivot == A[irow][icol] &&
    var S, T := SwapRowsM(A, irow, icol), SwapRowsM(B, irow, icol);
    if pivot == 0.0 then A' == S && B' == T
    else A' == ReducedA(S, n, icol) && B' == ReducedB(S, T, n, m, icol)
  }

  /**
   * The passes made so far: As[p] and Bs[p] are the matrices before pass p,
   * whose pivot came from row rows[p] and column cols[p] and had value pivots[p].
   */
  ghost predicate Trace(A0: Matrix, B0: Matrix, n: int, m: int, rows: seq<int>, cols: seq<int>,
                        pivots: seq<real>, As: seq<Matrix>, Bs: seq<Matrix>)
  {
    |rows| == |cols| == |pivots| <= n && |As| == |Bs| == |pivots| + 1 &&
    Distinct(cols) && InRange(cols, n) && InRange(rows, n) &&
    (forall p :: 0 <= p < |As| ==> Shaped(As[p], n, n) && Shaped(Bs[p], n, m)) &&
    As[0] == A0 && Bs[0] == B0 &&
    forall p :: 0 <= p < |pivots| ==> PassAt(n, m, rows, cols, pivots, As, Bs, p)
  }

  /** Pass p of a trace, as recorded. */
  ghost predicate PassAt(n: int, m: int, rows: seq<int>, cols: seq<int>, pivots: seq<real>,
                         As: seq<Matrix>, Bs: seq<Matrix>, p: int)
  {
    0 <= p < |pivots| && p < |rows| && p < |cols| && p + 1 < |As| && p + 1 < |Bs| &&
    Shaped(As[p], n, n) && Shaped(Bs[p], n, m) &&
    Pass(As[p], Bs[p], n, m, cols[..p], rows[p], cols[p], pivots[p], As[p + 1], Bs[p + 1])
  }

  /** A whole elimination: it goes on while the pivots are not zero, for at most n passes. */
  ghost predicate Run(A0: Matrix, B0: Matrix, n: int, m: int, rows: seq<int>, cols: seq<int>,
                      pivots: seq<real>, As: seq<Matrix>, Bs: seq<Matrix>)
  {
    Trace(A0, B0, n, m, rows, cols, pivots, As, Bs) &&
    (forall p :: 0 <= p < |pivots| - 1 ==> pivots[p] != 0.0) &&
    (|pivots| == n || (|pivots| >= 1 && pivots[|pivots| - 1] == 0.0))
  }

  /** The column exchanges of indxr and indxc undone, last first. */
  function Unscrambled(A: Matrix, n: int, rows: seq<int>, cols: seq<int>): (U: Matrix)
    requires Shaped(A, n, n) && |rows| == |cols| && InRange(rows, n) && InRange(cols, n)
    ensures Shaped(U, n, n)
    decreases |rows|
  {
    if |rows| == 0 then A
    else
      var l := |rows| - 1;
      var S := if rows[l] != cols[l] then SwapColsM(A, n, rows[l], cols[l]) else A;
      Unscrambled(S, n, rows[..l], cols[..l])
  }

  /**
   * The pivot search: the last entry of greatest magnitude, in row-major order,
   * among rows whose ipiv is not 1 and columns whose ipiv is 0. As the search
   * accepts magnitudes of at least 0, it always chooses some entry.
   */
  method SelectPivot(a: array2<real>, n: int, ipiv: array<int>) returns (irow: int, icol: int)
    requires a.Length0 == n && a.Length1 == n && ipiv.Length == n
    requires exists k :: 0 <= k < n && ipiv[k] == 0
    ensures 0 <= irow < n && 0 <= icol < n && ipiv[irow] != 1 && ipiv[icol] == 0
    ensures forall j, k :: 0 <= j < n && 0 <= k < n && ipiv[j] != 1 && ipiv[k] == 0 ==>
      Abs(a[j, k]) <= Abs(a[irow, icol])
    ensures forall j, k :: 0 <= j < n && 0 <= k < n && ipiv[j] != 1 && ipiv[k] == 0 && Later(j, k, irow, icol) ==>
      Abs(a[j, k]) < Abs(a[irow, icol])
  {
    var big := 0.0;
    irow, icol := -1, -1;
    var j := 0;
    while j < n
      invariant 0 <= j <= n
      invariant irow == -1 ==> big == 0.0 && forall j', k :: 0 <= j' < j && 0 <= k < n ==> ipiv[j'] == 1 || ipiv[k] != 0
      invariant irow != -1 ==> 0 <= irow < j && 0 <= icol < n && ipiv[irow] != 1 && ipiv[icol] == 0 && big == Abs(a[irow, icol])
      invariant forall j', k :: 0 <= j' < j && 0 <= k < n && ipiv[j'] != 1 && ipiv[k] == 0 ==> Abs(a[j', k]) <= big
      invariant forall j', k :: 0 <= j' < j && 0 <= k < n && ipiv[j'] != 1 && ipiv[k] == 0 && Later(j', k, irow, icol) ==>
        Abs(a[j', k]) < big
    {
      if ipiv[j] != 1 {
        big, irow, icol := ScanRow(a, n, ipiv, j, big, irow, icol);
      }
      j := j + 1;
    }
  }

  /**
   * The inner loop of the pivot search over row j: the candidate of row j
   * that is last among those of greatest magnitude replaces the entry found
   * so far when it is at least as large.
   */
  method ScanRow(a: array2<real>, n: int, ipiv: array<int>, j: int, big0: real, irow0: int, icol0: int)
    returns (big: real, irow: int, icol: int)
    requires a.Length0 == n && a.Length1 == n && ipiv.Length == n && 0 <= j < n
    requires irow0 == -1 ==> big0 == 0.0
    requires irow0 != -1 ==> 0 <= irow0 < j && 0 <= icol0 < n && big0 == Abs(a[irow0, icol0])
    ensures (big, irow, icol) == (big0, irow0, icol0) || (irow == j && 0 <= icol < n && ipiv[icol] == 0 && big == Abs(a[j, icol]))
    ensures big0 <= big
    ensures irow == -1 ==> forall k :: 0 <= k < n ==> ipiv[k] != 0
    ensures forall k :: 0 <= k < n && ipiv[k] == 0 ==> Abs(a[j, k]) <= big
    ensures forall k :: 0 <= k < n && ipiv[k] == 0 && Later(j, k, irow, icol) ==> Abs(a[j, k]) < big
  {
    big, irow, icol := big0, irow0, icol0;
    var k := 0;
    while k < n
      invariant 0 <= k <= n
      invariant (big, irow, icol) == (big0, irow0, icol0) || (irow == j && 0 <= icol < k && ipiv[icol] == 0 && big == Abs(a[j, icol]))
      invariant big0 <= big
      invariant irow == -1 ==> forall k' :: 0 <= k' < k ==> ipiv[k'] != 0
      invariant forall k' :: 0 <= k' < k && ipiv[k'] == 0 ==> Abs(a[j, k']) <= big
      invariant forall k' :: 0 <= k' < k && ipiv[k'] == 0 && Later(j, k', irow, icol) ==> Abs(a[j, k']) < big
    {
      if ipiv[k] == 0 {
        if Abs(a[j, k]) >= big {
          big := Abs(a[j, k]);
          irow := j;
          icol := k;
        }
      }
      k := k + 1;
    }
  }

  /** Exchanges rows r1 and r2 of a and of b. */
  method SwapRows(a: array2<real>, b: array2<real>, n: int, m: int, r1: int, r2: int)
    requires a.Length0 == n && a.Length1 == n && b.Length0 == n && b.Length1 == m && a != b
    requires 0 <= r1 < n && 0 <= r2 < n && r1 != r2
    modifies a, b
    ensures Snap(a) == SwapRowsM(old(Snap(a)), r1, r2)
    ensures Snap(b) == SwapRowsM(old(Snap(b)), r1, r2)
  {
    ExchangeRows(a, r1, r2);
    ExchangeRows(b, r1, r2);
  }

  /** One of the two exchange loops: rows r1 and r2 of x, entry by entry. */
  method ExchangeRows(x: array2<real>, r1: int, r2: int)
    requires 0 <= r1 < x.Length0 && 0 <= r2 < x.Length0
    modifies x
    ensures Snap(x) == SwapRowsM(old(Snap(x)), r1, r2)
  {
    ghost var M := Snap(x);
    var l := 0;
    while l < x.Length1
      invariant 0 <= l <= x.Length1
      invariant forall r, c :: 0 <= r < x.Length0 && 0 <= c < x.Length1 ==>
        x[r, c] == M[if c < l && r == r1 then r2 else if c < l && r == r2 then r1 else r][c]
    {
      var dummy := x[r1, l];
      x[r1, l] := x[r2, l];
      x[r2, l] := dummy;
      l := l + 1;
    }
    SnapIs(x, SwapRowsM(M, r1, r2));
  }

  /** Sets the pivot to 1 and multiplies its row of a and of b by pivinv. */
  method ScalePivotRow(a: array2<real>, b: array2<real>, n: int, m: int, icol: int, pivinv: real)
    requires a.Length0 == n && a.Length1 == n && b.Length0 == n && b.Length1 == m && a != b
    requires 0 <= icol < n
    modifies a, b
    ensures Snap(a) == ScaledA(old(Snap(a)), n, icol, pivinv)
    ensures Snap(b) == ScaledB(old(Snap(b)), m, icol, pivinv)
  {
    ghost var A := Snap(a);
    a[icol, icol] := 1.0;
    SnapIs(a, SetEntry(A, icol, icol, 1.0));
    ScaleRow(a, icol, pivinv);
    ScaleRow(b, icol, pivinv);
  }

  /** One of the two scaling loops: row r of x multiplied by s. */
  method ScaleRow(x: array2<real>, r: int, s: real)
    requires 0 <= r < x.Length0
    modifies x
    ensures Snap(x) == ScaleRowM(old(Snap(x)), r, s)
  {
    ghost var M := Snap(x);
    var l := 0;
    while l < x.Length1
      invariant 0 <= l <= x.Length1
      invariant forall i, c :: 0 <= i < x.Length0 && 0 <= c < x.Length1 ==>
        x[i, c] == if i == r && c < l then M[i][c] * s else M[i][c]
    {
      ghost var before := x[r, l];
      x[r, l] := x[r, l] * s;
      assert x[r, l] == before * s;
      l := l + 1;
    }
    SnapIs(x, ScaleRowM(M, r, s));
  }

  /** Subtracts temp times the pivot row from row ll, where temp was a[ll, icol], whose place is first set to 0. */
  method EliminateRow(a: array2<real>, b: array2<real>, n: int, m: int, icol: int, ll: int)
    requires a.Length0 == n && a.Length1 == n && b.Length0 == n && b.Length1 == m && a != b
    requires 0 <= icol < n && 0 <= ll < n && ll != icol
    modifies a, b
    ensures Snap(a) == RowOpM(SetEntry(old(Snap(a)), ll, icol, 0.0), ll, icol, old(a[ll, icol]))
    ensures Snap(b) == RowOpM(old(Snap(b)), ll, icol, old(a[ll, icol]))
  {
    ghost var A := Snap(a);
    var temp := a[ll, icol];
    a[ll, icol] := 0.0;
    SnapIs(a, SetEntry(A, ll, icol, 0.0));
    SubtractRow(a, ll, icol, temp);
    SubtractRow(b, ll, icol, temp);
  }

  /** One of the two elimination loops: row ll of x less t times row icol. */
  method SubtractRow(x: array2<real>, ll: int, icol: int, t: real)
    requires 0 <= ll < x.Length0 && 0 <= icol < x.Length0 && ll != icol
    modifies x
    ensures Snap(x) == RowOpM(old(Snap(x)), ll, icol, t)
  {
    ghost var M := Snap(x);
    var l := 0;
    while l < x.Length1
      invariant 0 <= l <= x.Length1
      invariant forall i, c :: 0 <= i < x.Length0 && 0 <= c < x.Length1 ==>
        x[i, c] == if i == ll && c < l then M[i][c] - M[icol][c] * t else M[i][c]
    {
      x[ll, l] := x[ll, l] - x[icol, l] * t;
      l := l + 1;
    }
    SnapIs(x, RowOpM(M, ll, icol, t));
  }

  /** Clears column icol from every row but the pivot row. */
  method EliminateColumn(a: array2<real>, b: array2<real>, n: int, m: int, icol: int)
    requires a.Length0 == n && a.Length1 == n && b.Length0 == n && b.Length1 == m && a != b
    requires 0 <= icol < n
    modifies a, b
    ensures Snap(a) == EliminatedA(old(Snap(a)), n, icol)
    ensures Snap(b) == EliminatedB(old(Snap(a)), old(Snap(b)), n, m, icol)
  {
    ghost var A, B := Snap(a), Snap(b);
    var ll := 0;
    while ll < n
      invariant 0 <= ll <= n
      invariant Snap(a) == EliminatedUpTo(A, n, icol, ll)
      invariant Snap(b) == EliminatedBUpTo(A, B, n, m, icol, ll)
    {
      if ll != icol {
        EliminateRow(a, b, n, m, icol, ll);
        EliminationStep(A, B, n, m, icol, ll);
      } else {
        EliminationSkip(A, B, n, m, icol);
      }
      ll := ll + 1;
    }
  }

  /** Eliminating row ll extends the rows eliminated so far by one. */
  lemma EliminationStep(A: Matrix, B: Matrix, n: int, m: int, icol: int, ll: int)
    requires Shaped(A, n, n) && Shaped(B, n, m) && 0 <= icol < n && 0 <= ll < n && ll != icol
    ensures var E := EliminatedUpTo(A, n, icol, ll);
      RowOpM(SetEntry(E, ll, icol, 0.0), ll, icol, E[ll][icol]) == EliminatedUpTo(A, n, icol, ll + 1)
    ensures RowOpM(EliminatedBUpTo(A, B, n, m, icol, ll), ll, icol, A[ll][icol]) ==
      EliminatedBUpTo(A, B, n, m, icol, ll + 1)
  {
  }

  /** The pivot row itself is passed over. */
  lemma EliminationSkip(A: Matrix, B: Matrix, n: int, m: int, icol: int)
    requires Shaped(A, n, n) && Shaped(B, n, m) && 0 <= icol < n
    ensures EliminatedUpTo(A, n, icol, icol) == EliminatedUpTo(A, n, icol, icol + 1)
    ensures EliminatedBUpTo(A, B, n, m, icol, icol) == EliminatedBUpTo(A, B, n, m, icol, icol + 1)
  {
  }

  /** Exchanges columns c1 and c2 of a. */
  method SwapColumns(a: array2<real>, n: int, c1: int, c2: int)
    requires a.Length0 == n && a.Length1 == n && 0 <= c1 < n && 0 <= c2 < n
    modifies a
    ensures Snap(a) == SwapColsM(old(Snap(a)), n, c1, c2)
  {
    ghost var A := Snap(a);
    var k := 0;
    while k < n
      invariant 0 <= k <= n
      invariant forall r, c :: 0 <= r < n && 0 <= c < n ==>
        a[r, c] == old(a[r, if r < k && c == c1 then c2 else if r < k && c == c2 then c1 else c])
    {
      var dummy := a[k, c1];
      a[k, c1] := a[k, c2];
      a[k, c2] := dummy;
      k := k + 1;
    }
    SnapIs(a, SwapColsM(A, n, c1, c2));
  }

  /**
   * gaussJordan. rows, cols and pivots record, pass by pass, the pivot's row
   * before the exchange, its column and its value, and As and Bs the matrices
   * before each pass and after the last. The passes follow the pivot rule and
   * stop at the first zero pivot, which fails with a and b as that pass left
   * them; after n non-zero pivots the column exchanges are undone in a. The
   * identity is solved with a and b unchanged.
   */
  method GaussJordan(a: array2<real>, b: array2<real>, n: int, m: int)
    returns (ok: bool, ghost rows: seq<int>, ghost cols: seq<int>, ghost pivots: seq<real>,
             ghost As: seq<Matrix>, ghost Bs: seq<Matrix>)
    requires a.Length0 == n && a.Length1 == n && b.Length0 == n && b.Length1 == m && a != b
    modifies a, b
    ensures Run(old(Snap(a)), old(Snap(b)), n, m, rows, cols, pivots, As, Bs)
    ensures ok <==> |pivots| == n && forall p :: 0 <= p < n ==> pivots[p] != 0.0
    ensures ok ==> Snap(a) == Unscrambled(As[n], n, rows, cols) && Snap(b) == Bs[n]
    ensures !ok ==> Snap(a) == As[|pivots|] && Snap(b) == Bs[|pivots|]
    ensures !ok ==> |pivots| >= 1 && ZeroRemainder(As[|pivots| - 1], n, cols[..|pivots| - 1])
    ensures old(Snap(a)) == Identity(n) ==> ok && Snap(a) == Identity(n) && Snap(b) == old(Snap(b))
  {
    var indxc := new int[n];
    var indxr := new int[n];
    var ipiv := new int[n];
    var j := 0;
    while j < n
      modifies ipiv
      invariant 0 <= j <= n && forall k :: 0 <= k < j ==> ipiv[k] == 0
    {
      ipiv[j] := 0;
      j := j + 1;
    }
    ok, rows, cols, pivots, As, Bs := Eliminate(a, b, n, m, ipiv, indxr, indxc);
    if ok {
      assert indxr[..] == rows && indxc[..] == cols;
      Unscramble(a, n, indxr, indxc);
    } else {
      ZeroPivotLeavesZeros(old(Snap(a)), old(Snap(b)), n, m, rows, cols, pivots, As, Bs, |pivots| - 1);
    }
    if old(Snap(a)) == Identity(n) {
      IdentityRun(n, m, old(Snap(b)), rows, cols, pivots, As, Bs);
      UnscrambledSame(Identity(n), n, rows);
    }
  }

  /**
   * The main loop of gaussJordan: n passes, each recording its pivot's row
   * and column in indxr and indxc, stopping at the first zero pivot.
   */
  method Eliminate(a: array2<real>, b: array2<real>, n: int, m: int,
                   ipiv: array<int>, indxr: array<int>, indxc: array<int>)
    returns (ok: bool, ghost rows: seq<int>, ghost cols: seq<int>, ghost pivots: seq<real>,
             ghost As: seq<Matrix>, ghost Bs: seq<Matrix>)
    requires a.Length0 == n && a.Length1 == n && b.Length0 == n && b.Length1 == m && a != b
    requires ipiv.Length == n && indxr.Length == n && indxc.Length == n
    requires indxr != indxc && ipiv != indxr && ipiv != indxc
    requires forall k :: 0 <= k < n ==> ipiv[k] == 0
    modifies a, b, ipiv, indxr, indxc
    ensures Run(old(Snap(a)), old(Snap(b)), n, m, rows, cols, pivots, As, Bs)
    ensures Snap(a) == As[|pivots|] && Snap(b) == Bs[|pivots|]
    ensures ok <==> |pivots| == n && forall p :: 0 <= p < n ==> pivots[p] != 0.0
    ensures ok ==> indxr[..] == rows && indxc[..] == cols
  {
    ghost var A0, B0 := Snap(a), Snap(b);
    rows, cols, pivots := [], [], [];
    As, Bs := [A0], [B0];
    var i := 0;
    while i < n
      invariant 0 <= i <= n && |pivots| == i
      invariant Trace(A0, B0, n, m, rows, cols, pivots, As, Bs)
      invariant Snap(a) == As[i] && Snap(b) == Bs[i]
      invariant forall k :: 0 <= k < n ==> ipiv[k] == if k in cols then 1 else 0
      invariant indxr[..i] == rows && indxc[..i] == cols
      invariant forall p :: 0 <= p < i ==> pivots[p] != 0.0
    {
      var irow, icol, pivot := RecordedStep(a, b, n, m, ipiv, indxr, indxc, i, A0, B0, rows, cols, pivots, As, Bs);
      rows, cols, pivots := rows + [irow], cols + [icol], pivots + [pivot];
      As, Bs := As + [Snap(a)], Bs + [Snap(b)];
      if pivot == 0.0 {
        RunOfTrace(A0, B0, n, m, rows, cols, pivots, As, Bs);
        assert pivots[i] == 0.0;
        return false, rows, cols, pivots, As, Bs;
      }
      i := i + 1;
    }
    RunOfTrace(A0, B0, n, m, rows, cols, pivots, As, Bs);
    assert indxr[..] == indxr[..n] && indxc[..] == indxc[..n];
    return true, rows, cols, pivots, As, Bs;
  }

  /** Pass i of the main loop: the pass itself, then its pivot's row and column recorded. */
  method RecordedStep(a: array2<real>, b: array2<real>, n: int, m: int,
                      ipiv: array<int>, indxr: array<int>, indxc: array<int>, i: int,
                      ghost A0: Matrix, ghost B0: Matrix, ghost rows: seq<int>, ghost cols: seq<int>,
                      ghost pivots: seq<real>, ghost As: seq<Matrix>, ghost Bs: seq<Matrix>)
    returns (irow: int, icol: int, pivot: real)
    requires a.Length0 == n && a.Length1 == n && b.Length0 == n && b.Length1 == m && a != b
    requires ipiv.Length == n && indxr.Length == n && indxc.Length == n
    requires indxr != indxc && ipiv != indxr && ipiv != indxc
    requires 0 <= i < n && |pivots| == i && Trace(A0, B0, n, m, rows, cols, pivots, As, Bs)
    requires Snap(a) == As[i] && Snap(b) == Bs[i]
    requires forall k :: 0 <= k < n ==> ipiv[k] == if k in cols then 1 else 0
    requires indxr[..i] == rows && indxc[..i] == cols
    modifies a, b, ipiv, indxr, indxc
    ensures Trace(A0, B0, n, m, rows + [irow], cols + [icol], pivots + [pivot], As + [Snap(a)], Bs + [Snap(b)])
    ensures forall k :: 0 <= k < n ==> ipiv[k] == if k in cols + [icol] then 1 else 0
    ensures indxr[..i + 1] == rows + [irow] && indxc[..i + 1] == cols + [icol]
  {
    irow, icol, pivot := Step(a, b, n, m, ipiv, cols);
    indxr[i] := irow;
    indxc[i] := icol;
    TraceExtend(A0, B0, n, m, rows, cols, pivots, As, Bs, irow, icol, pivot, Snap(a), Snap(b));
    assert indxr[..i + 1] == indxr[..i] + [irow] && indxc[..i + 1] == indxc[..i] + [icol];
  }

  /** A trace that ends at its first zero pivot, or after n passes, is a whole elimination. */
  lemma RunOfTrace(A0: Matrix, B0: Matrix, n: int, m: int, rows: seq<int>, cols: seq<int>,
                   pivots: seq<real>, As: seq<Matrix>, Bs: seq<Matrix>)
    requires Trace(A0, B0, n, m, rows, cols, pivots, As, Bs)
    requires forall p :: 0 <= p < |pivots| - 1 ==> pivots[p] != 0.0
    requires |pivots| == n || (|pivots| >= 1 && pivots[|pivots| - 1] == 0.0)
    ensures Run(A0, B0, n, m, rows, cols, pivots, As, Bs)
  {
  }

  /** One more pass extends a trace. */
  lemma TraceExtend(A0: Matrix, B0: Matrix, n: int, m: int, rows: seq<int>, cols: seq<int>,
                    pivots: seq<real>, As: seq<Matrix>, Bs: seq<Matrix>,
                    irow: int, icol: int, pivot: real, A': Matrix, B': Matrix)
    requires Trace(A0, B0, n, m, rows, cols, pivots, As, Bs) && |pivots| < n
    requires Shaped(A', n, n) && Shaped(B', n, m)
    requires Pass(As[|pivots|], Bs[|pivots|], n, m, cols, irow, icol, pivot, A', B')
    ensures Trace(A0, B0, n, m, rows + [irow], cols + [icol], pivots + [pivot], As + [A'], Bs + [B'])
  {
    var rows', cols', pivots', As', Bs' := rows + [irow], cols + [icol], pivots + [pivot], As + [A'], Bs + [B'];
    forall p | 0 <= p < |pivots'|
      ensures PassAt(n, m, rows', cols', pivots', As', Bs', p)
    {
      if p < |pivots| {
        assert PassAt(n, m, rows, cols, pivots, As, Bs, p);
        assert cols'[..p] == cols[..p];
      } else {
        assert cols'[..p] == cols;
      }
    }
  }

  /** Undoes, last first, the column exchanges the recorded row exchanges stand for. */
  method Unscramble(a: array2<real>, n: int, indxr: array<int>, indxc: array<int>)
    requires a.Length0 == n && a.Length1 == n && indxr.Length == n && indxc.Length == n
    requires InRange(indxr[..], n) && InRange(indxc[..], n)
    modifies a
    ensures Snap(a) == Unscrambled(old(Snap(a)), n, indxr[..], indxc[..])
  {
    ghost var A, R, C := Snap(a), indxr[..], indxc[..];
    var l := n - 1;
    assert R[..l + 1] == R && C[..l + 1] == C;
    while l >= 0
      invariant -1 <= l < n
      invariant Unscrambled(Snap(a), n, R[..l + 1], C[..l + 1]) == Unscrambled(A, n, R, C)
    {
      UnscrambleStep(Snap(a), n, R, C, l);
      if indxr[l] != indxc[l] {
        SwapColumns(a, n, indxr[l], indxc[l]);
      }
      l := l - 1;
    }
  }

  /** Undoing exchange l, then those before it. */
  lemma UnscrambleStep(S: Matrix, n: int, R: seq<int>, C: seq<int>, l: int)
    requires Shaped(S, n, n) && |R| == |C| && InRange(R, n) && InRange(C, n) && 0 <= l < |R|
    ensures Unscrambled(S, n, R[..l + 1], C[..l + 1]) ==
      Unscrambled(if R[l] != C[l] then SwapColsM(S, n, R[l], C[l]) else S, n, R[..l], C[..l])
  {
    assert R[..l + 1][..l] == R[..l] && C[..l + 1][..l] == C[..l];
  }

  /**
   * Chooses the pivot, marks its column as pivoted and moves it onto the
   * diagonal by exchanging rows irow and icol of a and of b.
   */
  method PlacePivot(a: array2<real>, b: array2<real>, n: int, m: int, ipiv: array<int>, ghost cols: seq<int>)
    returns (irow: int, icol: int)
    requires a.Length0 == n && a.Length1 == n && b.Length0 == n && b.Length1 == m && a != b && ipiv.Length == n
    requires Distinct(cols) && InRange(cols, n) && |cols| < n
    requires forall k :: 0 <= k < n ==> ipiv[k] == if k in cols then 1 else 0
    modifies a, b, ipiv
    ensures IsPivotChoice(old(Snap(a)), n, cols, irow, icol)
    ensures forall k :: 0 <= k < n ==> ipiv[k] == if k in cols + [icol] then 1 else 0
    ensures Snap(a) == SwapRowsM(old(Snap(a)), irow, icol)
    ensures Snap(b) == SwapRowsM(old(Snap(b)), irow, icol)
  {
    UnpivotedExists(cols, n);
    irow, icol := SelectPivot(a, n, ipiv);
    ipiv[icol] := ipiv[icol] + 1;
    if irow != icol {
      SwapRows(a, b, n, m, irow, icol);
    } else {
      assert SwapRowsM(Snap(a), irow, icol) == Snap(a);
      assert SwapRowsM(Snap(b), irow, icol) == Snap(b);
    }
  }

  /**
   * One pass of the elimination: places the next pivot and, when it is not
   * zero, reduces its column.
   */
  method Step(a: array2<real>, b: array2<real>, n: int, m: int, ipiv: array<int>, ghost cols: seq<int>)
    returns (irow: int, icol: int, pivot: real)
    requires a.Length0 == n && a.Length1 == n && b.Length0 == n && b.Length1 == m && a != b && ipiv.Length == n
    requires Distinct(cols) && InRange(cols, n) && |cols| < n
    requires forall k :: 0 <= k < n ==> ipiv[k] == if k in cols then 1 else 0
    modifies a, b, ipiv
    ensures Pass(old(Snap(a)), old(Snap(b)), n, m, cols, irow, icol, pivot, Snap(a), Snap(b))
    ensures forall k :: 0 <= k < n ==> ipiv[k] == if k in cols + [icol] then 1 else 0
  {
    irow, icol := PlacePivot(a, b, n, m, ipiv, cols);
    pivot := a[icol, icol];
    if pivot != 0.0 {
      Reduce(a, b, n, m, icol);
    }
  }

  /** Divides the pivot row by the pivot and clears the pivot column from the other rows. */
  method Reduce(a: array2<real>, b: array2<real>, n: int, m: int, icol: int)
    requires a.Length0 == n && a.Length1 == n && b.Length0 == n && b.Length1 == m && a != b
    requires 0 <= icol < n && a[icol, icol] != 0.0
    modifies a, b
    ensures Snap(a) == ReducedA(old(Snap(a)), n, icol)
    ensures Snap(b) == ReducedB(old(Snap(a)), old(Snap(b)), n, m, icol)
  {
    var pivinv := 1.0 / a[icol, icol];
    ScalePivotRow(a, b, n, m, icol, pivinv);
    EliminateColumn(a, b, n, m, icol);
  }

  /** The pivot rule picks a single entry. */
  lemma PivotChoiceUnique(A: Matrix, n: int, done: seq<int>, r1: int, c1: int, r2: int, c2: int)
    requires Shaped(A, n, n)
    requires IsPivotChoice(A, n, done, r1, c1) && IsPivotChoice(A, n, done, r2, c2)
    ensures r1 == r2 && c1 == c2
  {
  }

  /**
   * A failed elimination met a matrix whose unpivoted rows and columns hold
   * only zeros: the zero pivot was the largest entry left.
   */
  lemma ZeroPivotLeavesZeros(A0: Matrix, B0: Matrix, n: int, m: int, rows: seq<int>, cols: seq<int>,
                             pivots: seq<real>, As: seq<Matrix>, Bs: seq<Matrix>, last: int)
    requires Run(A0, B0, n, m, rows, cols, pivots, As, Bs)
    requires last == |pivots| - 1 && last >= 0 && pivots[last] == 0.0
    ensures ZeroRemainder(As[last], n, cols[..last])
  {
    assert PassAt(n, m, rows, cols, pivots, As, Bs, last);
  }

  /** A pass is determined by the matrices it starts from and the columns already pivoted. */
  lemma PassUnique(A: Matrix, B: Matrix, n: int, m: int, done: seq<int>,
                   r1: int, c1: int, p1: real, A1: Matrix, B1: Matrix,
                   r2: int, c2: int, p2: real, A2: Matrix, B2: Matrix)
    requires Shaped(A, n, n) && Shaped(B, n, m)
    requires Pass(A, B, n, m, done, r1, c1, p1, A1, B1) && Pass(A, B, n, m, done, r2, c2, p2, A2, B2)
    ensures r1 == r2 && c1 == c2 && p1 == p2 && A1 == A2 && B1 == B2
  {
    PivotChoiceUnique(A, n, done, r1, c1, r2, c2);
  }

  /** An elimination is determined by the matrices it starts from. */
  lemma {:induction false} RunUnique(A0: Matrix, B0: Matrix, n: int, m: int,
                                     rows: seq<int>, cols: seq<int>, pivots: seq<real>, As: seq<Matrix>, Bs: seq<Matrix>,
                                     rows': seq<int>, cols': seq<int>, pivots': seq<real>, As': seq<Matrix>, Bs': seq<Matrix>)
    requires Run(A0, B0, n, m, rows, cols, pivots, As, Bs)
    requires Run(A0, B0, n, m, rows', cols', pivots', As', Bs')
    ensures rows == rows' && cols == cols' && pivots == pivots' && As == As' && Bs == Bs'
  {
    var p := 0;
    while p < |pivots| && p < |pivots'|
      invariant 0 <= p <= |pivots| && p <= |pivots'|
      invariant forall q :: 0 <= q < p ==> rows[q] == rows'[q] && cols[q] == cols'[q] && pivots[q] == pivots'[q]
      invariant forall q :: 0 <= q <= p ==> As[q] == As'[q] && Bs[q] == Bs'[q]
    {
      assert cols[..p] == cols'[..p];
      assert PassAt(n, m, rows, cols, pivots, As, Bs, p) && PassAt(n, m, rows', cols', pivots', As', Bs', p);
      PassUnique(As[p], Bs[p], n, m, cols[..p],
                 rows[p], cols[p], pivots[p], As[p + 1], Bs[p + 1],
                 rows'[p], cols'[p], pivots'[p], As'[p + 1], Bs'[p + 1]);
      p := p + 1;
    }
  }

  /** The columns pivoted first on the identity: n - 1, n - 2, and so on. */
  function Countdown(n: int, p: nat): (s: seq<int>)
    ensures |s| == p && forall i :: 0 <= i < p ==> s[i] == n - 1 - i
  {
    seq(p, i => n - 1 - i)
  }

  /** On the identity, the pivot rule takes the last unpivoted diagonal 1. */
  lemma IdentityChoice(n: nat, p: nat, irow: int, icol: int)
    requires p < n && IsPivotChoice(Identity(n), n, Countdown(n, p), irow, icol)
    ensures irow == icol == n - 1 - p
  {
    var I, done := Identity(n), Countdown(n, p);
    forall x | 0 <= x < n
      ensures x in done <==> x >= n - p
    {
      if x >= n - p {
        assert done[n - 1 - x] == x;
      }
    }
    assert Unpivoted(n, done, icol, icol);
    assert Abs(I[icol][icol]) <= Abs(I[irow][icol]);
    assert Unpivoted(n, done, n - 1 - p, n - 1 - p);
  }

  /** On the identity, a diagonal pivot of 1 changes neither a nor b. */
  lemma IdentityReduced(n: nat, m: int, B: Matrix, k: int)
    requires Shaped(B, n, m) && 0 <= k < n
    ensures ReducedA(Identity(n), n, k) == Identity(n)
    ensures ReducedB(Identity(n), B, n, m, k) == B
  {
    var I := Identity(n);
    assert 1.0 / I[k][k] == 1.0;
    var SA, SB := ScaledA(I, n, k, 1.0), ScaledB(B, m, k, 1.0);
    var EA, EB := EliminatedA(SA, n, k), EliminatedB(SA, SB, n, m, k);
    forall r | 0 <= r < n
      ensures EA[r] == I[r] && EB[r] == B[r]
    {
    }
  }

  /** Undoing no exchange leaves a as it is. */
  lemma {:induction false} UnscrambledSame(A: Matrix, n: int, rows: seq<int>)
    requires Shaped(A, n, n) && InRange(rows, n)
    ensures Unscrambled(A, n, rows, rows) == A
    decreases |rows|
  {
    if |rows| > 0 {
      UnscrambledSame(A, n, rows[..|rows| - 1]);
    }
  }

  /** A pass over the identity pivots on the last unpivoted diagonal entry and changes nothing. */
  lemma IdentityPass(n: nat, m: int, B: Matrix, p: nat, irow: int, icol: int, pivot: real, A': Matrix, B': Matrix)
    requires p < n && Shaped(B, n, m)
    requires Pass(Identity(n), B, n, m, Countdown(n, p), irow, icol, pivot, A', B')
    ensures irow == icol == n - 1 - p && pivot == 1.0 && A' == Identity(n) && B' == B
  {
    IdentityChoice(n, p, irow, icol);
    IdentityReduced(n, m, B, icol);
    assert SwapRowsM(Identity(n), irow, icol) == Identity(n);
    assert SwapRowsM(B, irow, icol) == B;
  }

  /**
   * On the identity the elimination takes the diagonal from the last row up,
   * every pivot is 1, and no pass changes a or b.
   */
  lemma {:induction false} IdentityRun(n: nat, m: int, B0: Matrix, rows: seq<int>, cols: seq<int>,
                                       pivots: seq<real>, As: seq<Matrix>, Bs: seq<Matrix>)
    requires Run(Identity(n), B0, n, m, rows, cols, pivots, As, Bs)
    ensures |pivots| == n && rows == cols == Countdown(n, n)
    ensures forall p :: 0 <= p < n ==> pivots[p] == 1.0
    ensures forall p :: 0 <= p <= n ==> As[p] == Identity(n) && Bs[p] == B0
  {
    var p := 0;
    while p < |pivots|
      invariant 0 <= p <= |pivots|
      invariant forall q :: 0 <= q < p ==> rows[q] == n - 1 - q && cols[q] == n - 1 - q && pivots[q] == 1.0
      invariant forall q :: 0 <= q <= p ==> As[q] == Identity(n) && Bs[q] == B0
    {
      assert cols[..p] == Countdown(n, p);
      assert PassAt(n, m, rows, cols, pivots, As, Bs, p);
      IdentityPass(n, m, B0, p, rows[p], cols[p], pivots[p], As[p + 1], Bs[p + 1]);
      p := p + 1;
    }
  }
}
