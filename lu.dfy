/**
 * Doolittle LU factorisation (descomposicion_lu): A = L·U with L unit lower triangular and
 * U upper triangular, then L·y = b by forward substitution and U·x = y by back substitution.
 * The source divides by U[i][i] without testing it; that every U[i][i] is nonzero is the
 * same as every leading principal block of A being nonsingular, which is the precondition
 * stated here (lemmas PivotNonzero and FactorsNonsingular prove the two directions).
 */
module LU {
  import opened Matrices

  /** L[r][0]*U[0][t] + ... + L[r][p-1]*U[p-1][t], accumulated left to right as `suma` is:
      entry (r, t) of L·U counting only the first p columns of L and rows of U. */
  function ProdRange(L: Matrix, U: Matrix, r: nat, t: nat, p: nat): real
    requires IsSquare(L, |L|) && IsSquare(U, |L|) && r < |L| && t < |L| && p <= |L|
  {
    if p == 0 then 0.0 else ProdRange(L, U, r, t, p - 1) + L[r][p - 1] * U[p - 1][t]
  }

  /** L is n-by-n, lower triangular, with ones on its diagonal. */
  predicate UnitLowerTriangular(L: Matrix, n: nat) {
    IsSquare(L, n) && (forall r, c :: 0 <= r < c < n ==> L[r][c] == 0.0) &&
    forall r :: 0 <= r < n ==> L[r][r] == 1.0
  }

  /** U is n-by-n, upper triangular, with no zero on its diagonal. */
  predicate NonsingularUpper(U: Matrix, n: nat) {
    IsSquare(U, n) && UpperTriangularBlock(U, n) && forall s :: 0 <= s < n ==> U[s][s] != 0.0
  }

  /** L·U == A. */
  predicate IsProduct(L: Matrix, U: Matrix, A: Matrix, n: nat) {
    IsSquare(L, n) && IsSquare(U, n) && IsSquare(A, n) &&
    forall r, t :: 0 <= r < n && 0 <= t < n ==> ProdRange(L, U, r, t, n) == A[r][t]
  }

  /** After i steps of Doolittle: every entry of A in the first i rows or the first i columns
      is already the product of what has been filled in of L and U. */
  ghost predicate ProductUpTo(A: Matrix, L: Matrix, U: Matrix, n: nat, i: nat) {
    IsSquare(A, n) && IsSquare(L, n) && IsSquare(U, n) && i <= n &&
    forall r, t :: 0 <= r < n && 0 <= t < n && (r < i || t < i) ==> A[r][t] == ProdRange(L, U, r, t, i)
  }

  // ---------------------------------------------------------------- sums of products

  lemma {:induction false} ProdRangeFrame(L: Matrix, U: Matrix, L': Matrix, U': Matrix, r: nat, t: nat, p: nat)
    requires IsSquare(L, |L|) && IsSquare(U, |L|) && IsSquare(L', |L|) && IsSquare(U', |L|)
    requires r < |L| && t < |L| && p <= |L|
    requires forall j :: 0 <= j < p ==> L[r][j] == L'[r][j] && U[j][t] == U'[j][t]
    ensures ProdRange(L, U, r, t, p) == ProdRange(L', U', r, t, p)
  {
    if p > 0 {
      ProdRangeFrame(L, U, L', U', r, t, p - 1);
    }
  }

  /** Terms past column r of a lower triangular row are zero. */
  lemma {:induction false} ProdRangeLower(L: Matrix, U: Matrix, r: nat, t: nat, p: nat)
    requires IsSquare(L, |L|) && IsSquare(U, |L|) && r < p <= |L| && t < |L|
    requires forall c :: r < c < |L| ==> L[r][c] == 0.0
    ensures ProdRange(L, U, r, t, p) == ProdRange(L, U, r, t, r + 1)
  {
    if p > r + 1 {
      ProdRangeLower(L, U, r, t, p - 1);
    }
  }

  /** Row r of the partial product, columns 0..q-1. */
  ghost function PartialRow(L: Matrix, U: Matrix, r: nat, p: nat, q: nat): (row: Vector)
    requires IsSquare(L, |L|) && IsSquare(U, |L|) && r < |L| && p <= |L| && q <= |L|
    ensures |row| == q
  {
    seq(q, t requires 0 <= t < q => ProdRange(L, U, r, t, p))
  }

  /** Adding term p - 1 to every entry of the partial row adds L[r][p-1] times row p - 1 of U. */
  lemma PartialRowStep(L: Matrix, U: Matrix, r: nat, p: nat, q: nat)
    requires IsSquare(L, |L|) && IsSquare(U, |L|) && r < |L| && 1 <= p <= |L| && q <= |L|
    ensures PartialRow(L, U, r, p, q) == SubMul(PartialRow(L, U, r, p - 1, q), -L[r][p - 1], U[p - 1][..q])
  {
    var prev := PartialRow(L, U, r, p - 1, q);
    var urow := U[p - 1][..q];
    forall t | 0 <= t < q ensures PartialRow(L, U, r, p, q)[t] == SubMul(prev, -L[r][p - 1], urow)[t] {
      assert urow[t] == U[p - 1][t];
    }
  }

  /** Associativity of one row: (sum_j L[r][j]*U[j]) · x == sum_j L[r][j] * (U[j] · x). */
  lemma {:induction false} ProductDot(L: Matrix, U: Matrix, r: nat, p: nat, x: Vector, w: Vector)
    requires IsSquare(L, |L|) && IsSquare(U, |L|) && r < |L| && p <= |L| && |x| <= |L|
    requires p <= |w| && forall j :: 0 <= j < p ==> w[j] == DotRange(U[j], x, 0, |x|)
    ensures DotRange(PartialRow(L, U, r, p, |x|), x, 0, |x|) == DotRange(L[r], w, 0, p)
  {
    var q := |x|;
    if p == 0 {
      DotRangeSingle(PartialRow(L, U, r, p, q), x, 0, q, -1);
    } else {
      ProductDot(L, U, r, p - 1, x, w);
      ProductDotStep(L, U, r, p, x, w);
    }
  }

  /** The step of ProductDot: adding the term for row p-1 of U on both sides. */
  lemma ProductDotStep(L: Matrix, U: Matrix, r: nat, p: nat, x: Vector, w: Vector)
    requires IsSquare(L, |L|) && IsSquare(U, |L|) && r < |L| && 1 <= p <= |L| && |x| <= |L|
    requires p <= |w| && w[p - 1] == DotRange(U[p - 1], x, 0, |x|)
    requires DotRange(PartialRow(L, U, r, p - 1, |x|), x, 0, |x|) == DotRange(L[r], w, 0, p - 1)
    ensures DotRange(PartialRow(L, U, r, p, |x|), x, 0, |x|) == DotRange(L[r], w, 0, p)
  {
    var q := |x|;
    var prev := PartialRow(L, U, r, p - 1, q);
    var urow := U[p - 1][..q];
    PartialRowStep(L, U, r, p, q);
    DotRangeSubMul(prev, -L[r][p - 1], urow, x, 0, q);
    DotRangeFrame(urow, x, U[p - 1], x, 0, q);
  }

  /** If the leading m-by-m block of A is the product of those of L and U, a vector U's block
      sends to zero is sent to zero by A's. */
  lemma ProductKernel(A: Matrix, L: Matrix, U: Matrix, m: nat, y: Vector)
    requires IsSquare(L, |L|) && IsSquare(U, |L|) && IsSquare(A, |L|) && m <= |L|
    requires forall r, t :: 0 <= r < m && 0 <= t < m ==> A[r][t] == ProdRange(L, U, r, t, m)
    requires InLeadingKernel(U, m, y)
    ensures InLeadingKernel(A, m, y)
  {
    forall r | 0 <= r < m ensures DotRange(A[r], y, 0, m) == 0.0 {
      DotRangeFrame(A[r], y, PartialRow(L, U, r, m, m), y, 0, m);
      ProductDot(L, U, r, m, y, Zeros(m));
      DotRangeSingle(L[r], Zeros(m), 0, m, -1);
    }
  }

  /** A unit lower triangular block sends only zero to zero: the first k entries of z vanish. */
  lemma {:induction false} LowerKernelZero(L: Matrix, n: nat, m: nat, z: Vector, k: nat)
    requires UnitLowerTriangular(L, n) && k <= m <= n && |z| == m
    requires forall r :: 0 <= r < m ==> DotRange(L[r], z, 0, m) == 0.0
    ensures forall r :: 0 <= r < k ==> z[r] == 0.0
  {
    if k > 0 {
      var r := k - 1;
      LowerKernelZero(L, n, m, z, r);
      DotRangeSplit(L[r], z, 0, r, m);
      DotRangeSingle(L[r], z, 0, r, -1);
      DotRangeSingle(L[r], z, r, m, r);
    }
  }

  /** The converse of PivotNonzero: a matrix with such a factorisation has all its leading
      blocks nonsingular, so that precondition asks no more than that no U[i][i] be zero. */
  lemma FactorsNonsingular(A: Matrix, L: Matrix, U: Matrix, n: nat)
    requires UnitLowerTriangular(L, n) && NonsingularUpper(U, n) && IsProduct(L, U, A, n)
    ensures AllLeadingNonsingular(A, n)
  {
    forall m | 1 <= m <= n ensures LeadingNonsingular(A, m) {
      forall y | InLeadingKernel(A, m, y) ensures y == Zeros(m) {
        var z := seq(m, j requires 0 <= j < m => DotRange(U[j], y, 0, m));
        forall r | 0 <= r < m ensures DotRange(L[r], z, 0, m) == 0.0 {
          forall t | 0 <= t < m ensures A[r][t] == PartialRow(L, U, r, m, m)[t] {
            ProdRangeLower(L, U, r, t, n);
            ProdRangeLower(L, U, r, t, m);
          }
          DotRangeFrame(A[r], y, PartialRow(L, U, r, m, m), y, 0, m);
          ProductDot(L, U, r, m, y, z);
        }
        LowerKernelZero(L, n, m, z, m);
        assert InLeadingKernel(U, m, y) by {
          forall j | 0 <= j < m ensures DotRange(U[j], y, 0, m) == 0.0 {
            assert z[j] == 0.0;
          }
        }
        TriangularNonsingular(U, m);
      }
    }
  }

  // ---------------------------------------------------------------- the factorisation

  /** At step i, once row i of U is filled in, its diagonal entry is nonzero when the leading
      block of size i+1 of A is nonsingular. */
  lemma PivotNonzero(A: Matrix, L: Matrix, U: Matrix, n: nat, i: nat)
    requires ProductUpTo(A, L, U, n, i) && i < n && LeadingNonsingular(A, i + 1)
    requires forall r, c :: 0 <= r < c < n ==> L[r][c] == 0.0
    requires forall r, t :: 0 <= t < r < n ==> U[r][t] == 0.0
    requires forall s :: 0 <= s < i ==> U[s][s] != 0.0
    requires forall t :: i <= t < n ==> U[i][t] == A[i][t] - ProdRange(L, U, i, t, i)
    ensures U[i][i] != 0.0
  {
    if U[i][i] == 0.0 {
      var L' := L[i := L[i][i := 1.0]];
      forall r, t | 0 <= r <= i && 0 <= t <= i ensures A[r][t] == ProdRange(L', U, r, t, i + 1) {
        ProdRangeFrame(L, U, L', U, r, t, i);
      }
      TriangularSingular(U, i);
      var y :| InLeadingKernel(U, i + 1, y) && y != Zeros(i + 1);
      ProductKernel(A, L', U, i + 1, y);
      assert false;
    }
  }

  lemma DivTimes(a: real, p: real)
    requires p != 0.0
    ensures a / p * p == a
  {
  }

  /** Step i of Doolittle, from what it wrote: column i of L and row i of U extend the product
      to the first i+1 rows and columns. */
  lemma StepProduct(A: Matrix, L0: Matrix, L: Matrix, U: Matrix, n: nat, i: nat)
    requires ProductUpTo(A, L0, U, n, i) && IsSquare(L, n) && i < n
    requires forall r, c :: 0 <= r < n && 0 <= c < n && c != i ==> L[r][c] == L0[r][c]
    requires forall r :: 0 <= r < i ==> L[r][i] == 0.0
    requires L[i][i] == 1.0 && U[i][i] != 0.0
    requires forall r :: i < r < n ==> L[r][i] == (A[r][i] - ProdRange(L0, U, r, i, i)) / U[i][i]
    requires forall t :: 0 <= t < i ==> U[i][t] == 0.0
    requires forall t :: i <= t < n ==> U[i][t] == A[i][t] - ProdRange(L0, U, i, t, i)
    ensures ProductUpTo(A, L, U, n, i + 1)
  {
    forall r, t | 0 <= r < n && 0 <= t < n && (r < i + 1 || t < i + 1)
      ensures A[r][t] == ProdRange(L, U, r, t, i + 1)
    {
      ProdRangeFrame(L0, U, L, U, r, t, i);
      if r > i && t == i {
        DivTimes(A[r][i] - ProdRange(L0, U, r, i, i), U[i][i]);
      }
    }
  }

  /** Lines 207-211: row i of U from column i on, U[i][k] = A[i][k] - sum_{j<i} L[i][j]*U[j][k]. */
  method FillURow(A: Matrix, L: Matrix, U: Matrix, n: nat, i: nat) returns (U': Matrix)
    requires IsSquare(A, n) && IsSquare(L, n) && IsSquare(U, n) && i < n
    ensures IsSquare(U', n) && forall r :: 0 <= r < n && r != i ==> U'[r] == U[r]
    ensures forall t :: 0 <= t < n ==>
      U'[i][t] == if i <= t then A[i][t] - ProdRange(L, U, i, t, i) else U[i][t]
  {
    U' := U;
    for k := i to n
      invariant IsSquare(U', n)
      invariant forall r :: 0 <= r < n && r != i ==> U'[r] == U[r]
      invariant forall t :: 0 <= t < n ==>
        U'[i][t] == if i <= t < k then A[i][t] - ProdRange(L, U, i, t, i) else U[i][t]
    {
      var sum := 0.0;
      for j := 0 to i
        invariant sum == ProdRange(L, U, i, k, j)
      {
        sum := sum + L[i][j] * U'[j][k];
      }
      U' := U'[i := U'[i][k := A[i][k] - sum]];
    }
  }

  /** Lines 214-221: column i of L from row i on, L[i][i] = 1 and
      L[k][i] = (A[k][i] - sum_{j<i} L[k][j]*U[j][i]) / U[i][i] below it. */
  method FillLColumn(A: Matrix, L: Matrix, U: Matrix, n: nat, i: nat) returns (L': Matrix)
    requires IsSquare(A, n) && IsSquare(L, n) && IsSquare(U, n) && i < n && U[i][i] != 0.0
    ensures IsSquare(L', n)
    ensures forall r, c :: 0 <= r < n && 0 <= c < n && c != i ==> L'[r][c] == L[r][c]
    ensures forall r :: 0 <= r < n ==> (L'[r][i] ==
      if r == i then 1.0 else if i < r then (A[r][i] - ProdRange(L, U, r, i, i)) / U[i][i] else L[r][i])
  {
    L' := L;
    for k := i to n
      invariant IsSquare(L', n)
      invariant forall r, c :: 0 <= r < n && 0 <= c < n && c != i ==> L'[r][c] == L[r][c]
      invariant forall r :: 0 <= r < n ==> (L'[r][i] ==
        if r == i && i < k then 1.0
        else if i < r < k then (A[r][i] - ProdRange(L, U, r, i, i)) / U[i][i]
        else L[r][i])
    {
      if i == k {
        L' := L'[i := L'[i][i := 1.0]];
      } else {
        var sum := 0.0;
        for j := 0 to i
          invariant sum == ProdRange(L, U, k, i, j)
        {
          sum := sum + L'[k][j] * U[j][i];
        }
        L' := L'[k := L'[k][i := (A[k][i] - sum) / U[i][i]]];
      }
    }
  }

  /** The factorisation loop of lines 205-221: row i of U, then column i of L. */
  method Doolittle(A: Matrix) returns (L: Matrix, U: Matrix)
    requires IsSquare(A, |A|) && AllLeadingNonsingular(A, |A|)
    ensures UnitLowerTriangular(L, |A|) && NonsingularUpper(U, |A|)
    ensures IsProduct(L, U, A, |A|)
  {
    var n := |A|;
    L := seq(n, _ => Zeros(n));
    U := seq(n, _ => Zeros(n));
    for i := 0 to n
      invariant ProductUpTo(A, L, U, n, i)
      invariant forall r, c :: 0 <= r < c < n ==> L[r][c] == 0.0
      invariant forall r, t :: 0 <= t < r < n ==> U[r][t] == 0.0
      invariant forall c :: 0 <= c < i ==> L[c][c] == 1.0
      invariant forall s :: 0 <= s < i ==> U[s][s] != 0.0
    {
      var U' := FillURow(A, L, U, n, i);
      forall r, t | 0 <= r < n && 0 <= t < n ensures ProdRange(L, U, r, t, i) == ProdRange(L, U', r, t, i) {
        ProdRangeFrame(L, U, L, U', r, t, i);
      }
      U := U';
      PivotNonzero(A, L, U, n, i);
      var L' := FillLColumn(A, L, U, n, i);
      StepProduct(A, L, L', U, n, i);
      L := L';
    }
  }

  /** The running sum `suma` of lines 226-228 and 234-236: row[j] * x[j] for lo <= j < hi. */
  method PartialSum(row: Vector, x: Vector, lo: nat, hi: nat) returns (sum: real)
    requires lo <= hi <= |row| && hi <= |x|
    ensures sum == DotRange(row, x, lo, hi)
  {
    sum := 0.0;
    for j := lo to hi
      invariant sum == DotRange(row, x, lo, j)
    {
      sum := sum + row[j] * x[j];
    }
  }

  /** Forward substitution (lines 224-229): y[i] = b[i] - sum_{j<i} L[i][j]*y[j]. */
  method ForwardSubstitution(L: Matrix, b: Vector) returns (y: Vector)
    requires UnitLowerTriangular(L, |L|) && |b| == |L|
    ensures |y| == |L| && Solves(L, b, y)
  {
    var n := |L|;
    y := Zeros(n);
    for i := 0 to n
      invariant |y| == n
      invariant forall r :: 0 <= r < i ==> DotRange(L[r], y, 0, r) + y[r] == b[r]
    {
      var sum := PartialSum(L[i], y, 0, i);
      ForwardStep(L, b, y, i, b[i] - sum);
      y := y[i := b[i] - sum];
    }
    ForwardRowsSolve(L, b, y);
  }

  /** Setting y[i] to b[i] minus the sum before the diagonal extends the solved rows by row i. */
  lemma ForwardStep(L: Matrix, b: Vector, y: Vector, i: nat, v: real)
    requires IsSquare(L, |L|) && |b| == |L| && |y| == |L| && i < |L|
    requires forall r :: 0 <= r < i ==> DotRange(L[r], y, 0, r) + y[r] == b[r]
    requires v == b[i] - DotRange(L[i], y, 0, i)
    ensures forall r :: 0 <= r <= i ==> DotRange(L[r], y[i := v], 0, r) + y[i := v][r] == b[r]
  {
    forall r | 0 <= r <= i ensures DotRange(L[r], y[i := v], 0, r) + y[i := v][r] == b[r] {
      DotRangeFrame(L[r], y, L[r], y[i := v], 0, r);
    }
  }

  /** With a unit diagonal and zeros above it, rows solved up to the diagonal solve L·y = b. */
  lemma ForwardRowsSolve(L: Matrix, b: Vector, y: Vector)
    requires UnitLowerTriangular(L, |L|) && |b| == |L| && |y| == |L|
    requires forall r :: 0 <= r < |L| ==> DotRange(L[r], y, 0, r) + y[r] == b[r]
    ensures Solves(L, b, y)
  {
    forall r | 0 <= r < |L| ensures Dot(L[r], y) == b[r] {
      DotRangeSplit(L[r], y, 0, r + 1, |L|);
      DotRangeSingle(L[r], y, r + 1, |L|, -1);
    }
  }

  /** Row i of an upper triangular system holds once x[i] is taken from the later entries. */
  lemma BackRow(u: Vector, x: Vector, i: nat, n: nat, c: real)
    requires i < n <= |u| && n <= |x| && u[i] != 0.0
    requires x[i] == (c - DotRange(u, x, i + 1, n)) / u[i]
    ensures DotRange(u, x, i, n) == c
  {
    DotRangeSplit(u, x, i, i + 1, n);
    assert DotRange(u, x, i, i + 1) == u[i] * x[i];
    DivTimes(c - DotRange(u, x, i + 1, n), u[i]);
  }

  /** Back substitution (lines 232-237): x[i] = (y[i] - sum_{j>i} U[i][j]*x[j]) / U[i][i]. */
  method BackSubstitution(U: Matrix, y: Vector) returns (x: Vector)
    requires NonsingularUpper(U, |U|) && |y| == |U|
    ensures |x| == |U| && Solves(U, y, x)
  {
    var n := |U|;
    x := Zeros(n);
    for i := n downto 0
      invariant |x| == n
      invariant forall r :: i <= r < n ==> DotRange(U[r], x, r, n) == y[r]
    {
      var sum := PartialSum(U[i], x, i + 1, n);
      var x' := x[i := (y[i] - sum) / U[i][i]];
      forall r | i <= r < n ensures DotRange(U[r], x', r, n) == y[r] {
        if r == i {
          DotRangeFrame(U[i], x, U[i], x', i + 1, n);
          BackRow(U[i], x', i, n, y[i]);
        } else {
          DotRangeFrame(U[r], x, U[r], x', r, n);
        }
      }
      x := x';
    }
    forall r | 0 <= r < n ensures Dot(U[r], x) == y[r] {
      DotRangeSplit(U[r], x, 0, r, n);
      DotRangeSingle(U[r], x, 0, r, -1);
    }
  }

  /** L·y = b and U·x = y give (L·U)·x = b. */
  lemma ProductSolves(A: Matrix, L: Matrix, U: Matrix, b: Vector, y: Vector, x: Vector)
    requires IsProduct(L, U, A, |A|) && |x| == |A| && |y| == |A|
    requires Solves(L, b, y) && Solves(U, y, x)
    ensures Solves(A, b, x)
  {
    var n := |A|;
    forall r | 0 <= r < n ensures Dot(A[r], x) == b[r] {
      DotRangeFrame(A[r], x, PartialRow(L, U, r, n, n), x, 0, n);
      ProductDot(L, U, r, n, x, y);
    }
  }

  /** descomposicion_lu: on a matrix whose leading blocks are all nonsingular (exactly the
      matrices on which no U[i][i] is zero), returns the unique solution of A·x = b. */
  method DescomposicionLU(A: Matrix, b: Vector) returns (x: Vector)
    requires IsSquare(A, |A|) && |b| == |A| && AllLeadingNonsingular(A, |A|)
    ensures IsUniqueSolution(A, b, x)
  {
    var L, U := Doolittle(A);
    var y := ForwardSubstitution(L, b);
    x := BackSubstitution(U, y);
    ProductSolves(A, L, U, b, y, x);
    AllLeadingWhole(A);
    NonsingularSolutionUnique(A, b, x);
  }
}
