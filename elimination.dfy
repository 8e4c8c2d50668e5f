/**
 * Gaussian elimination with row normalisation and back substitution, and Gauss-Jordan
 * elimination. Both work on copies of A and b (here: local values), take the pivots from the
 * diagonal as they come, and stop with ZeroPivot at the first pivot that is 0.
 */
module Elimination {
  import opened Matrices
  import opened Results

  /** A working system W·x = c. */
  datatype System = System(M: Matrix, rhs: Vector)

  /** Divides entries from..|row|-1 of the pivot row by the pivot; earlier entries are kept. */
  method NormalizeRow(row: Vector, from: nat, pivot: real) returns (r: Vector)
    requires from <= |row| && pivot != 0.0
    ensures |r| == |row|
    ensures forall k :: 0 <= k < |row| ==> r[k] == if k < from then row[k] else row[k] / pivot
  {
    r := row;
    for k := from to |row|
      invariant |r| == |row|
      invariant forall t :: 0 <= t < |row| ==> r[t] == if from <= t < k then row[t] / pivot else row[t]
    {
      r := r[k := r[k] / pivot];
    }
  }

  /** Subtracts factor times the pivot row from entries from..|row|-1 of row; earlier entries
      are kept. */
  method EliminateRow(row: Vector, pivotRow: Vector, from: nat, factor: real) returns (r: Vector)
    requires from <= |row| == |pivotRow|
    ensures |r| == |row|
    ensures forall k :: 0 <= k < |row| ==>
      r[k] == if k < from then row[k] else row[k] - factor * pivotRow[k]
  {
    r := row;
    for k := from to |row|
      invariant |r| == |row|
      invariant forall t :: 0 <= t < |row| ==>
        r[t] == if from <= t < k then row[t] - factor * pivotRow[t] else row[t]
    {
      r := r[k := r[k] - factor * pivotRow[k]];
    }
  }

  /** The working system W·x = c still has the solutions of A·x = b, and each of its leading
      blocks the kernel of A's: the invariant every row operation below keeps. */
  ghost predicate Tracks(A: Matrix, b: Vector, W: Matrix, c: Vector) {
    IsSquare(W, |A|) && |c| == |A| && Equivalent(A, b, W, c, |A|) &&
    forall m :: 0 <= m <= |A| ==> SameLeadingKernel(A, W, m)
  }

  lemma NormalizedIsDivRow(row: Vector, from: nat, pivot: real, r: Vector)
    requires ZeroPrefix(row, from) && pivot != 0.0 && |r| == |row|
    requires forall k :: 0 <= k < |row| ==> r[k] == if k < from then row[k] else row[k] / pivot
    ensures r == DivRow(row, pivot)
  {
    forall k | 0 <= k < |row| ensures r[k] == DivRow(row, pivot)[k] {
      if k < from {
        assert row[k] == 0.0;
      }
    }
  }

  lemma EliminatedIsSubMul(row: Vector, pivotRow: Vector, from: nat, factor: real, r: Vector)
    requires |row| == |pivotRow| && ZeroPrefix(pivotRow, from) && |r| == |row|
    requires forall k :: 0 <= k < |row| ==>
      r[k] == if k < from then row[k] else row[k] - factor * pivotRow[k]
    ensures r == SubMul(row, factor, pivotRow)
  {
    forall k | 0 <= k < |row| ensures r[k] == SubMul(row, factor, pivotRow)[k] {
      if k < from {
        assert pivotRow[k] == 0.0;
      }
    }
  }

  /** Lines 39-46 / 94-101 after the zero test: divide pivot row i and c[i] by the pivot. Row i
      is already zero left of column i, so dividing from column i on divides the whole row. */
  method NormalizePivotRow(ghost A: Matrix, ghost b: Vector, W: Matrix, c: Vector, i: nat)
    returns (W': Matrix, c': Vector)
    requires Tracks(A, b, W, c) && i < |A| && ZeroPrefix(W[i], i) && W[i][i] != 0.0
    ensures W' == W[i := DivRow(W[i], W[i][i])] && c' == c[i := c[i] / W[i][i]]
    ensures Tracks(A, b, W', c')
  {
    var pivot := W[i][i];
    var row := NormalizeRow(W[i], i, pivot);
    NormalizedIsDivRow(W[i], i, pivot, row);
    W', c' := W[i := row], c[i := c[i] / pivot];
    DivRowEquivalent(W, c, W', c', |A|, i, pivot);
    DivRowSameKernel(W, W', |A|, i, pivot);
    SameLeadingKernelTrans(A, W, W', |A|);
  }

  /** Lines 50-53 / 106-109: subtract factor = W[j][i] times the pivot row i from row j, and the
      same multiple of c[i] from c[j]. */
  method SubtractPivotRow(ghost A: Matrix, ghost b: Vector, W: Matrix, c: Vector, i: nat, j: nat)
    returns (W': Matrix, c': Vector)
    requires Tracks(A, b, W, c) && i < |A| && j < |A| && i != j && ZeroPrefix(W[i], i)
    ensures W' == W[j := SubMul(W[j], W[j][i], W[i])] && c' == c[j := c[j] - W[j][i] * c[i]]
    ensures Tracks(A, b, W', c')
  {
    var n := |A|;
    var factor := W[j][i];
    var newRow := EliminateRow(W[j], W[i], i, factor);
    EliminatedIsSubMul(W[j], W[i], i, factor, newRow);
    W', c' := W[j := newRow], c[j := c[j] - factor * c[i]];
    assert c'[j] == c[j] - W[j][i] * c[i];
    SubMulEquivalent(W, c, W', c', n, j, i, factor);
    SubMulSameKernel(W, W', n, j, i, factor);
    forall m | 0 <= m <= n ensures j >= m || i < m || ZeroPrefix(W[i], m) { }
    SameLeadingKernelTrans(A, W, W', n);
  }

  /** Forward elimination: for each pivot row i, normalise it and clear column i below it.
      It fails exactly when some leading block of A is singular, at the first such block, and
      otherwise leaves an equivalent unit upper triangular system. */
  method ForwardElimination(A: Matrix, b: Vector) returns (res: Result<System>)
    requires IsSquare(A, |A|) && |b| == |A|
    ensures res.Ok? <==> AllLeadingNonsingular(A, |A|)
    ensures res.Err? ==> res.error.ZeroPivot? && FirstSingularLeading(A, res.error.step)
    ensures res.Ok? ==>
      |res.value.rhs| == |A| && UnitUpperTriangular(res.value.M, |A|) &&
      Equivalent(A, b, res.value.M, res.value.rhs, |A|)
  {
    var n := |A|;
    var W, c := A, b;
    for i := 0 to n
      invariant Tracks(A, b, W, c)
      invariant forall r, t :: 0 <= t < i && t < r < n ==> W[r][t] == 0.0
      invariant forall r :: 0 <= r < i ==> W[r][r] == 1.0
    {
      if W[i][i] == 0.0 {
        FirstSingularFromPivot(A, W, n, i);
        return Err(ZeroPivot(i));
      }
      W, c := NormalizePivotRow(A, b, W, c, i);
      assert W[i][i] == 1.0;
      for j := i + 1 to n
        invariant Tracks(A, b, W, c)
        invariant forall r, t :: 0 <= t < i && t < r < n ==> W[r][t] == 0.0
        invariant forall r :: i < r < j ==> W[r][i] == 0.0
        invariant forall r :: 0 <= r <= i ==> W[r][r] == 1.0
      {
        W, c := SubtractPivotRow(A, b, W, c, i, j);
      }
    }
    LeadingFromTriangular(A, W, n, n);
    return Ok(System(W, c));
  }

  /** Back substitution on a unit upper triangular system: x[i] = c[i] - sum_{j>i} U[i][j]*x[j]. */
  method BackSubstitution(U: Matrix, c: Vector) returns (x: Vector)
    requires UnitUpperTriangular(U, |U|) && |c| == |U|
    ensures |x| == |U| && Solves(U, c, x)
  {
    var n := |U|;
    x := Zeros(n);
    for i := n downto 0
      invariant |x| == n
      invariant forall r :: i <= r < n ==> x[r] + DotRange(U[r], x, r + 1, n) == c[r]
    {
      var sum := 0.0;
      for j := i + 1 to n
        invariant sum == DotRange(U[i], x, i + 1, j)
      {
        sum := sum + U[i][j] * x[j];
      }
      var x' := x[i := c[i] - sum];
      forall r | i <= r < n ensures x'[r] + DotRange(U[r], x', r + 1, n) == c[r] {
        DotRangeFrame(U[r], x, U[r], x', r + 1, n);
      }
      x := x';
    }
    forall r | 0 <= r < n ensures Dot(U[r], x) == c[r] {
      DotRangeSplit(U[r], x, 0, r, n);
      DotRangeSingle(U[r], x, 0, r, -1);
      assert DotRange(U[r], x, r, r + 1) == x[r];
      DotRangeSplit(U[r], x, r, r + 1, n);
    }
  }

  /** gauss_eliminacion: fails with ZeroPivot exactly when a leading block of A is singular;
      otherwise returns the unique solution of A·x = b. */
  method GaussElimination(A: Matrix, b: Vector) returns (res: Result<Vector>)
    requires IsSquare(A, |A|) && |b| == |A|
    ensures res.Ok? <==> AllLeadingNonsingular(A, |A|)
    ensures res.Err? ==> res.error.ZeroPivot? && FirstSingularLeading(A, res.error.step)
    ensures res.Ok? ==> IsUniqueSolution(A, b, res.value)
  {
    var forward := ForwardElimination(A, b);
    if forward.Err? {
      return Err(forward.error);
    }
    var x := BackSubstitution(forward.value.M, forward.value.rhs);
    UniqueFromEquivalent(A, b, forward.value.M, forward.value.rhs, x);
    return Ok(x);
  }

  /** A solution of a system equivalent to A·x = b, when A is nonsingular, is the unique one. */
  lemma UniqueFromEquivalent(A: Matrix, b: Vector, W: Matrix, c: Vector, x: Vector)
    requires IsSquare(A, |A|) && AllLeadingNonsingular(A, |A|)
    requires Equivalent(A, b, W, c, |A|) && |x| == |A| && Solves(W, c, x)
    ensures IsUniqueSolution(A, b, x)
  {
    assert Solves(A, b, x);
    AllLeadingWhole(A);
    NonsingularSolutionUnique(A, b, x);
  }

  /** gauss_jordan: normalise each pivot row, then clear its column in every other row. It fails
      exactly as Gaussian elimination does; otherwise the working matrix ends as the identity
      and the reduced right-hand side is the unique solution. */
  method GaussJordan(A: Matrix, b: Vector) returns (res: Result<Vector>, ghost reduced: Matrix)
    requires IsSquare(A, |A|) && |b| == |A|
    ensures res.Ok? <==> AllLeadingNonsingular(A, |A|)
    ensures res.Err? ==> res.error.ZeroPivot? && FirstSingularLeading(A, res.error.step)
    ensures res.Ok? ==> reduced == Identity(|A|) && Equivalent(A, b, reduced, res.value, |A|)
    ensures res.Ok? ==> IsUniqueSolution(A, b, res.value)
  {
    var n := |A|;
    var W, c := A, b;
    for i := 0 to n
      invariant Tracks(A, b, W, c)
      invariant forall r, t :: 0 <= t < i && 0 <= r < n ==> W[r][t] == if r == t then 1.0 else 0.0
    {
      if W[i][i] == 0.0 {
        FirstSingularFromPivot(A, W, n, i);
        reduced := W;
        return Err(ZeroPivot(i)), reduced;
      }
      W, c := NormalizePivotRow(A, b, W, c, i);
      assert W[i][i] == 1.0;
      for j := 0 to n
        invariant Tracks(A, b, W, c)
        invariant forall r, t :: 0 <= t < i && 0 <= r < n ==> W[r][t] == if r == t then 1.0 else 0.0
        invariant W[i][i] == 1.0
        invariant forall r :: 0 <= r < j && r != i ==> W[r][i] == 0.0
      {
        if j != i {
          W, c := SubtractPivotRow(A, b, W, c, i, j);
        }
      }
    }
    forall r | 0 <= r < n ensures W[r] == Identity(n)[r] {
      assert forall t :: 0 <= t < n ==> W[r][t] == Identity(n)[r][t];
    }
    assert W == Identity(n);
    LeadingFromTriangular(A, W, n, n);
    IdentitySolves(n, c, c);
    UniqueFromEquivalent(A, b, W, c, c);
    reduced := W;
    return Ok(c), reduced;
  }
}
