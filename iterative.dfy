/**
 * The Jacobi and Gauss-Seidel iterations (jacobi, gauss_seidel). A sweep solves equation i
 * for unknown i, with the other unknowns taken from the previous iterate (Jacobi) or from the
 * entries already updated in this sweep (Gauss-Seidel). The loop stops as soon as the largest
 * change of a component in a sweep is below tol, and otherwise after max_iter sweeps.
 * Convergence is not modelled: what is proved is which iterate is returned with which count,
 * what each sweep computes, and that the fixed points of a sweep are exactly the solutions.
 */
module Iterative {
  import opened Matrices
  import opened Results

  /** The defaults of tol and max_iter (lines 242 and 296). */
  const DefaultTol: real := 0.0000001
  const DefaultMaxIter: int := 100

  /** Every diagonal entry of A is nonzero: the sweeps divide by each of them. */
  predicate DiagonalNonzero(A: Matrix) {
    IsSquare(A, |A|) && forall i :: 0 <= i < |A| ==> A[i][i] != 0.0
  }

  /** The initial guess: x0, or the zero vector when x0 is None (lines 274-276 / 328-330). */
  function Start(n: nat, x0: Option<Vector>): (x: Vector)
    requires x0.Some? ==> |x0.value| == n
    ensures |x| == n
    ensures x0.None? ==> forall i :: 0 <= i < n ==> x[i] == 0.0
    ensures x0.Some? ==> x == x0.value
  {
    if x0.None? then Zeros(n) else x0.value
  }

  /** sum over j < hi, j != i, of row[j]*x[j], accumulated left to right as `suma` is. */
  function OffDiagonal(row: Vector, x: Vector, i: nat, hi: nat): real
    requires hi <= |row| && hi <= |x|
  {
    if hi == 0 then 0.0
    else if hi - 1 == i then OffDiagonal(row, x, i, hi - 1)
    else OffDiagonal(row, x, i, hi - 1) + row[hi - 1] * x[hi - 1]
  }

  /** The change |u[i] - v[i]| of component i. */
  function Gap(u: Vector, v: Vector, i: nat): real
    requires i < |u| && i < |v|
  {
    Abs(u[i] - v[i])
  }

  /** The largest |u[i] - v[i]| over i < n, as max scans the generator. */
  function MaxGap(u: Vector, v: Vector, n: nat): (d: real)
    requires 1 <= n <= |u| && |u| == |v|
    ensures forall i :: 0 <= i < n ==> Gap(u, v, i) <= d
    ensures exists i :: 0 <= i < n && d == Gap(u, v, i)
  {
    if n == 1 then Gap(u, v, 0)
    else
      var rest := MaxGap(u, v, n - 1);
      var last := Gap(u, v, n - 1);
      if last > rest then last else rest
  }

  /** The largest |u[i] - v[i]|: the `diff` of lines 289 / 343. */
  function MaxAbsDiff(u: Vector, v: Vector): (d: real)
    requires |u| == |v| && |u| >= 1
    ensures forall i :: 0 <= i < |u| ==> Gap(u, v, i) <= d
    ensures exists i :: 0 <= i < |u| && d == Gap(u, v, i)
  {
    MaxGap(u, v, |u|)
  }

  lemma {:induction false} OffDiagonalSplit(row: Vector, x: Vector, i: nat, hi: nat)
    requires hi <= |row| && hi <= |x|
    ensures i < hi ==> OffDiagonal(row, x, i, hi) == DotRange(row, x, 0, i) + DotRange(row, x, i + 1, hi)
    ensures hi <= i ==> OffDiagonal(row, x, i, hi) == DotRange(row, x, 0, hi)
  {
    if hi > 0 {
      OffDiagonalSplit(row, x, i, hi - 1);
    }
  }

  /** Row i of A·x is its off-diagonal sum plus the diagonal term. */
  lemma DotOffDiagonal(row: Vector, x: Vector, i: nat)
    requires |row| == |x| && i < |row|
    ensures Dot(row, x) == OffDiagonal(row, x, i, |row|) + row[i] * x[i]
  {
    OffDiagonalSplit(row, x, i, |row|);
    DotRangeSplit(row, x, 0, i, |row|);
    DotRangeSplit(row, x, i, i + 1, |row|);
  }

  lemma SolveForDiagonal(a: real, s: real, c: real, v: real)
    requires a != 0.0
    ensures v == (c - s) / a <==> a * v + s == c
  {
  }

  // ---------------------------------------------------------------- Jacobi

  /** One Jacobi sweep (lines 280-286): every new entry from the previous iterate only. */
  function JacobiStep(A: Matrix, b: Vector, x: Vector): (y: Vector)
    requires DiagonalNonzero(A) && |b| == |A| && |x| == |A|
    ensures |y| == |A|
    ensures forall i :: 0 <= i < |A| ==> y[i] == JacobiEntry(A, b, x, i)
  {
    JacobiPrefix(A, b, x, |A|)
  }

  /** The first n entries of the next Jacobi iterate, in the order x_new is filled. */
  function JacobiPrefix(A: Matrix, b: Vector, x: Vector, n: nat): (y: Vector)
    requires DiagonalNonzero(A) && |b| == |A| && |x| == |A| && n <= |A|
    ensures |y| == n
    ensures forall i :: 0 <= i < n ==> y[i] == JacobiEntry(A, b, x, i)
  {
    if n == 0 then [] else JacobiPrefix(A, b, x, n - 1) + [JacobiEntry(A, b, x, n - 1)]
  }

  /** Entry i of the next Jacobi iterate (line 286). */
  function JacobiEntry(A: Matrix, b: Vector, x: Vector, i: nat): real
    requires DiagonalNonzero(A) && |b| == |A| && |x| == |A| && i < |A|
  {
    (b[i] - OffDiagonal(A[i], x, i, |A|)) / A[i][i]
  }

  /** Equation i with unknown i at the value v and the others as in x. */
  lemma {:induction false} OffDiagonalFrame(row: Vector, x: Vector, y: Vector, i: nat, hi: nat)
    requires hi <= |row| && hi <= |x| && hi <= |y|
    requires forall j :: 0 <= j < hi && j != i ==> x[j] == y[j]
    ensures OffDiagonal(row, x, i, hi) == OffDiagonal(row, y, i, hi)
  {
    if hi > 0 {
      OffDiagonalFrame(row, x, y, i, hi - 1);
    }
  }

  /** Row i of A·x with unknown i set to v. */
  lemma RowWithEntry(row: Vector, x: Vector, i: nat, v: real)
    requires |row| == |x| && i < |row|
    ensures Dot(row, x[i := v]) == row[i] * v + OffDiagonal(row, x, i, |row|)
  {
    DotOffDiagonal(row, x[i := v], i);
    OffDiagonalFrame(row, x, x[i := v], i, |row|);
  }

  /** Row i holds at x with entry i set to v once row[i] * v plus the off-diagonal part is c. */
  lemma SolvedRow(row: Vector, x: Vector, i: nat, c: real, v: real)
    requires |row| == |x| && i < |row|
    requires row[i] * v + OffDiagonal(row, x, i, |row|) == c
    ensures Dot(row, x[i := v]) == c
  {
    RowWithEntry(row, x, i, v);
  }

  /** Each new entry solves equation i with the other unknowns at their previous values. */
  lemma JacobiRows(A: Matrix, b: Vector, x: Vector)
    requires DiagonalNonzero(A) && |b| == |A| && |x| == |A|
    ensures forall i :: 0 <= i < |A| ==> Dot(A[i], x[i := JacobiStep(A, b, x)[i]]) == b[i]
  {
    forall i | 0 <= i < |A| ensures Dot(A[i], x[i := JacobiStep(A, b, x)[i]]) == b[i] {
      SolveForDiagonal(A[i][i], OffDiagonal(A[i], x, i, |A|), b[i], JacobiStep(A, b, x)[i]);
      SolvedRow(A[i], x, i, b[i], JacobiStep(A, b, x)[i]);
    }
  }

  /** The fixed points of a Jacobi sweep are exactly the solutions of A·x = b. */
  lemma JacobiFixedPoint(A: Matrix, b: Vector, x: Vector)
    requires DiagonalNonzero(A) && |b| == |A| && |x| == |A|
    ensures JacobiStep(A, b, x) == x <==> Solves(A, b, x)
  {
    var n := |A|;
    forall i | 0 <= i < n
      ensures JacobiStep(A, b, x)[i] == x[i] <==> Dot(A[i], x) == b[i]
    {
      DotOffDiagonal(A[i], x, i);
      SolveForDiagonal(A[i][i], OffDiagonal(A[i], x, i, n), b[i], x[i]);
    }
    if Solves(A, b, x) {
      assert JacobiStep(A, b, x) == x;
    }
  }

  /** The k-th Jacobi iterate from x0. */
  function JacobiIter(A: Matrix, b: Vector, x0: Vector, k: nat): (x: Vector)
    requires DiagonalNonzero(A) && |b| == |A| && |x0| == |A|
    ensures |x| == |A|
  {
    if k == 0 then x0 else JacobiStep(A, b, JacobiIter(A, b, x0, k - 1))
  }

  /** The largest change made by Jacobi sweep k (line 289). */
  function JacobiChange(A: Matrix, b: Vector, x0: Vector, k: nat): real
    requires DiagonalNonzero(A) && |b| == |A| && |x0| == |A| && |A| >= 1 && k >= 1
  {
    MaxAbsDiff(JacobiIter(A, b, x0, k), JacobiIter(A, b, x0, k - 1))
  }

  /** Lines 280-286 as a loop nest: x_new from x. */
  method JacobiSweep(A: Matrix, b: Vector, x: Vector) returns (xNew: Vector)
    requires DiagonalNonzero(A) && |b| == |A| && |x| == |A|
    ensures xNew == JacobiStep(A, b, x)
  {
    var n := |A|;
    xNew := Zeros(n);
    for i := 0 to n
      invariant |xNew| == n
      invariant forall r :: 0 <= r < i ==> xNew[r] == JacobiStep(A, b, x)[r]
    {
      var sum := 0.0;
      for j := 0 to n
        invariant sum == OffDiagonal(A[i], x, i, j)
      {
        if i != j {
          sum := sum + A[i][j] * x[j];
        }
      }
      xNew := xNew[i := (b[i] - sum) / A[i][i]];
    }
  }

  /** A sweep whose change is not below tol extends the run of unconverged sweeps. */
  lemma JacobiStillRunning(A: Matrix, b: Vector, start: Vector, tol: real, k: nat)
    requires DiagonalNonzero(A) && |b| == |A| && |start| == |A| && |A| >= 1
    requires forall j :: 1 <= j <= k ==> JacobiChange(A, b, start, j) >= tol
    requires JacobiChange(A, b, start, k + 1) >= tol
    ensures forall j :: 1 <= j <= k + 1 ==> JacobiChange(A, b, start, j) >= tol
  {
  }

  /** The loop of Jacobi for maxIter >= 1, from the start vector: the first iterate whose largest
      change is below tol and its number, or iterate maxIter and maxIter. */
  method JacobiLoop(A: Matrix, b: Vector, start: Vector, tol: real, maxIter: int)
    returns (x: Vector, iterations: int)
    requires IsSquare(A, |A|) && |b| == |A| && |start| == |A|
    requires maxIter > 0 && |A| >= 1 && DiagonalNonzero(A)
    ensures 1 <= iterations <= maxIter && x == JacobiIter(A, b, start, iterations)
    ensures forall k :: 1 <= k < iterations ==>
      JacobiChange(A, b, start, k) >= tol
    ensures iterations < maxIter ==>
      JacobiChange(A, b, start, iterations) < tol
  {
    x := start;
    var k := 0;
    while k < maxIter
      invariant 0 <= k <= maxIter
      invariant x == JacobiIter(A, b, start, k)
      invariant forall j :: 1 <= j <= k ==>
        JacobiChange(A, b, start, j) >= tol
    {
      var xNew := JacobiSweep(A, b, x);
      assert xNew == JacobiIter(A, b, start, k + 1);
      var diff := MaxAbsDiff(xNew, x);
      assert diff == JacobiChange(A, b, start, k + 1);
      x := xNew;
      if diff < tol {
        return x, k + 1;
      }
      JacobiStillRunning(A, b, start, tol, k);
      k := k + 1;
    }
    return x, maxIter;
  }

  /** jacobi: returns the first iterate whose change from the one before is below tol, with
      its index, or else iterate max_iter with max_iter. */
  method Jacobi(A: Matrix, b: Vector, x0: Option<Vector>, tol: real, maxIter: int)
    returns (x: Vector, iterations: int)
    requires IsSquare(A, |A|) && |b| == |A| && (x0.Some? ==> |x0.value| == |A|)
    requires maxIter > 0 ==> |A| >= 1 && DiagonalNonzero(A)
    ensures maxIter <= 0 ==> iterations == maxIter && x == Start(|A|, x0)
    ensures maxIter > 0 ==> 1 <= iterations <= maxIter && x == JacobiIter(A, b, Start(|A|, x0), iterations)
    ensures maxIter > 0 ==> forall k :: 1 <= k < iterations ==>
      JacobiChange(A, b, Start(|A|, x0), k) >= tol
    ensures 0 < iterations < maxIter ==>
      JacobiChange(A, b, Start(|A|, x0), iterations) < tol
  {
    var n := |A|;
    x := Start(n, x0);
    var start := x;
    if maxIter <= 0 {
      return x, maxIter;
    }
    x, iterations := JacobiLoop(A, b, start, tol, maxIter);
  }


  // ---------------------------------------------------------------- Gauss-Seidel

  /** The first k steps of a Gauss-Seidel sweep (lines 335-340): x[i] is overwritten in
      place, so later rows see the entries already updated. */
  function SweepUpTo(A: Matrix, b: Vector, x: Vector, k: nat): (y: Vector)
    requires DiagonalNonzero(A) && |b| == |A| && |x| == |A| && k <= |A|
    ensures |y| == |A|
  {
    if k == 0 then x
    else
      var y := SweepUpTo(A, b, x, k - 1);
      y[k - 1 := (b[k - 1] - OffDiagonal(A[k - 1], y, k - 1, |A|)) / A[k - 1][k - 1]]
  }

  /** One whole Gauss-Seidel sweep. */
  function SeidelStep(A: Matrix, b: Vector, x: Vector): (y: Vector)
    requires DiagonalNonzero(A) && |b| == |A| && |x| == |A|
    ensures |y| == |A|
  {
    SweepUpTo(A, b, x, |A|)
  }

  /** After k steps, entries below k are final and the others still the old ones. */
  lemma {:induction false} SweepUpToEntries(A: Matrix, b: Vector, x: Vector, k: nat)
    requires DiagonalNonzero(A) && |b| == |A| && |x| == |A| && k <= |A|
    ensures forall r :: 0 <= r < |A| ==>
      SweepUpTo(A, b, x, k)[r] == if r < k then SeidelStep(A, b, x)[r] else x[r]
    decreases |A| - k
  {
    if k < |A| {
      SweepUpToEntries(A, b, x, k + 1);
    }
    if k > 0 {
      SweepUpToOld(A, b, x, k);
    }
  }

  lemma {:induction false} SweepUpToOld(A: Matrix, b: Vector, x: Vector, k: nat)
    requires DiagonalNonzero(A) && |b| == |A| && |x| == |A| && k <= |A|
    ensures forall r :: k <= r < |A| ==> SweepUpTo(A, b, x, k)[r] == x[r]
  {
    if k > 0 {
      SweepUpToOld(A, b, x, k - 1);
    }
  }

  /** Each entry of a sweep solves equation i with the entries before it already updated and
      the entries after it at their previous values. */
  lemma SeidelRows(A: Matrix, b: Vector, x: Vector)
    requires DiagonalNonzero(A) && |b| == |A| && |x| == |A|
    ensures forall i :: 0 <= i < |A| ==> Dot(A[i], SeidelStep(A, b, x)[..i + 1] + x[i + 1..]) == b[i]
  {
    var n := |A|;
    var s := SeidelStep(A, b, x);
    forall i | 0 <= i < n ensures Dot(A[i], s[..i + 1] + x[i + 1..]) == b[i] {
      var y := SweepUpTo(A, b, x, i);
      SweepUpToEntries(A, b, x, i + 1);
      SolveForDiagonal(A[i][i], OffDiagonal(A[i], y, i, n), b[i], s[i]);
      SolvedRow(A[i], y, i, b[i], s[i]);
      assert SweepUpTo(A, b, x, i + 1) == s[..i + 1] + x[i + 1..];
    }
  }

  /** A sweep started from a solution changes nothing. */
  lemma {:induction false} SweepFixesSolution(A: Matrix, b: Vector, x: Vector, k: nat)
    requires DiagonalNonzero(A) && |b| == |A| && |x| == |A| && k <= |A| && Solves(A, b, x)
    ensures SweepUpTo(A, b, x, k) == x
  {
    if k > 0 {
      SweepFixesSolution(A, b, x, k - 1);
      DotOffDiagonal(A[k - 1], x, k - 1);
      SolveForDiagonal(A[k - 1][k - 1], OffDiagonal(A[k - 1], x, k - 1, |A|), b[k - 1], x[k - 1]);
    }
  }

  /** The fixed points of a Gauss-Seidel sweep are exactly the solutions of A·x = b. */
  lemma SeidelFixedPoint(A: Matrix, b: Vector, x: Vector)
    requires DiagonalNonzero(A) && |b| == |A| && |x| == |A|
    ensures SeidelStep(A, b, x) == x <==> Solves(A, b, x)
  {
    var n := |A|;
    if Solves(A, b, x) {
      SweepFixesSolution(A, b, x, n);
    }
    if SeidelStep(A, b, x) == x {
      SeidelRows(A, b, x);
      forall i | 0 <= i < n ensures Dot(A[i], x) == b[i] {
        assert x[..i + 1] + x[i + 1..] == x;
      }
    }
  }

  /** The k-th Gauss-Seidel iterate from x0. */
  function SeidelIter(A: Matrix, b: Vector, x0: Vector, k: nat): (x: Vector)
    requires DiagonalNonzero(A) && |b| == |A| && |x0| == |A|
    ensures |x| == |A|
  {
    if k == 0 then x0 else SeidelStep(A, b, SeidelIter(A, b, x0, k - 1))
  }

  /** The largest change made by Gauss-Seidel sweep k (line 343). */
  function SeidelChange(A: Matrix, b: Vector, x0: Vector, k: nat): real
    requires DiagonalNonzero(A) && |b| == |A| && |x0| == |A| && |A| >= 1 && k >= 1
  {
    MaxAbsDiff(SeidelIter(A, b, x0, k), SeidelIter(A, b, x0, k - 1))
  }


  /** Lines 335-340 as a loop nest: x overwritten entry by entry. */
  method SeidelSweep(A: Matrix, b: Vector, x: Vector) returns (y: Vector)
    requires DiagonalNonzero(A) && |b| == |A| && |x| == |A|
    ensures y == SeidelStep(A, b, x)
  {
    var n := |A|;
    y := x;
    for i := 0 to n
      invariant y == SweepUpTo(A, b, x, i)
    {
      var sum := 0.0;
      for j := 0 to n
        invariant sum == OffDiagonal(A[i], y, i, j)
      {
        if i != j {
          sum := sum + A[i][j] * y[j];
        }
      }
      y := y[i := (b[i] - sum) / A[i][i]];
    }
  }

  /** A sweep whose change is not below tol extends the run of unconverged sweeps. */
  lemma SeidelStillRunning(A: Matrix, b: Vector, start: Vector, tol: real, k: nat)
    requires DiagonalNonzero(A) && |b| == |A| && |start| == |A| && |A| >= 1
    requires forall j :: 1 <= j <= k ==> SeidelChange(A, b, start, j) >= tol
    requires SeidelChange(A, b, start, k + 1) >= tol
    ensures forall j :: 1 <= j <= k + 1 ==> SeidelChange(A, b, start, j) >= tol
  {
  }

  /** The loop of GaussSeidel for maxIter >= 1, from the start vector: the first iterate whose largest
      change is below tol and its number, or iterate maxIter and maxIter. */
  method GaussSeidelLoop(A: Matrix, b: Vector, start: Vector, tol: real, maxIter: int)
    returns (x: Vector, iterations: int)
    requires IsSquare(A, |A|) && |b| == |A| && |start| == |A|
    requires maxIter > 0 && |A| >= 1 && DiagonalNonzero(A)
    ensures 1 <= iterations <= maxIter && x == SeidelIter(A, b, start, iterations)
    ensures forall k :: 1 <= k < iterations ==>
      SeidelChange(A, b, start, k) >= tol
    ensures iterations < maxIter ==>
      SeidelChange(A, b, start, iterations) < tol
  {
    x := start;
    var k := 0;
    while k < maxIter
      invariant 0 <= k <= maxIter
      invariant x == SeidelIter(A, b, start, k)
      invariant forall j :: 1 <= j <= k ==>
        SeidelChange(A, b, start, j) >= tol
    {
      var xOld := x;
      x := SeidelSweep(A, b, x);
      assert x == SeidelIter(A, b, start, k + 1);
      var diff := MaxAbsDiff(x, xOld);
      assert diff == SeidelChange(A, b, start, k + 1);
      if diff < tol {
        return x, k + 1;
      }
      SeidelStillRunning(A, b, start, tol, k);
      k := k + 1;
    }
    return x, maxIter;
  }

  /** gauss_seidel: the same stopping rule as jacobi over the Gauss-Seidel iterates. */
  method GaussSeidel(A: Matrix, b: Vector, x0: Option<Vector>, tol: real, maxIter: int)
    returns (x: Vector, iterations: int)
    requires IsSquare(A, |A|) && |b| == |A| && (x0.Some? ==> |x0.value| == |A|)
    requires maxIter > 0 ==> |A| >= 1 && DiagonalNonzero(A)
    ensures maxIter <= 0 ==> iterations == maxIter && x == Start(|A|, x0)
    ensures maxIter > 0 ==> 1 <= iterations <= maxIter && x == SeidelIter(A, b, Start(|A|, x0), iterations)
    ensures maxIter > 0 ==> forall k :: 1 <= k < iterations ==>
      SeidelChange(A, b, Start(|A|, x0), k) >= tol
    ensures 0 < iterations < maxIter ==>
      SeidelChange(A, b, Start(|A|, x0), iterations) < tol
  {
    var n := |A|;
    x := Start(n, x0);
    var start := x;
    if maxIter <= 0 {
      return x, maxIter;
    }
    x, iterations := GaussSeidelLoop(A, b, start, tol, maxIter);
  }


  // ---------------------------------------------------------------- defaults

  /** jacobi(A, b): x0 = None, tol = 1e-7, max_iter = 100. Starts from the zero vector. */
  method JacobiDefaults(A: Matrix, b: Vector) returns (x: Vector, iterations: int)
    requires IsSquare(A, |A|) && |b| == |A| && |A| >= 1 && DiagonalNonzero(A)
    ensures 1 <= iterations <= DefaultMaxIter
    ensures x == JacobiIter(A, b, Zeros(|A|), iterations)
    ensures forall k :: 1 <= k < iterations ==> JacobiChange(A, b, Zeros(|A|), k) >= DefaultTol
    ensures iterations < DefaultMaxIter ==> JacobiChange(A, b, Zeros(|A|), iterations) < DefaultTol
  {
    x, iterations := Jacobi(A, b, None, DefaultTol, DefaultMaxIter);
  }

  /** gauss_seidel(A, b): x0 = None, tol = 1e-7, max_iter = 100. Starts from the zero vector. */
  method GaussSeidelDefaults(A: Matrix, b: Vector) returns (x: Vector, iterations: int)
    requires IsSquare(A, |A|) && |b| == |A| && |A| >= 1 && DiagonalNonzero(A)
    ensures 1 <= iterations <= DefaultMaxIter
    ensures x == SeidelIter(A, b, Zeros(|A|), iterations)
    ensures forall k :: 1 <= k < iterations ==> SeidelChange(A, b, Zeros(|A|), k) >= DefaultTol
    ensures iterations < DefaultMaxIter ==> SeidelChange(A, b, Zeros(|A|), iterations) < DefaultTol
  {
    x, iterations := GaussSeidel(A, b, None, DefaultTol, DefaultMaxIter);
  }
}
