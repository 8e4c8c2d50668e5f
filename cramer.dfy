/**
 * Cramer's rule over a recursive cofactor-expansion determinant. The determinant has the
 * source's two base cases (1-by-1 and 2-by-2) and otherwise expands along the first row;
 * on the empty matrix its expansion loop runs zero times, so the determinant of a 0-by-0
 * matrix is 0 here.
 */
module Cramer {
  import opened Matrices
  import opened Results

  /** (-1)^c */
  function Sign(c: nat): real {
    if c % 2 == 0 then 1.0 else -1.0
  }

  /** The square matrix M without its row 0 and its column c (lines 148-151). */
  function Minor(M: Matrix, c: nat): (m: Matrix)
    requires IsSquare(M, |M|) && c < |M|
    ensures IsSquare(m, |M| - 1)
  {
    seq(|M| - 1, i requires 0 <= i < |M| - 1 => M[i + 1][..c] + M[i + 1][c + 1..])
  }

  /** The determinant, as determinante (lines 139-153) defines it: the entry for 1-by-1, the
      2-by-2 formula, and otherwise the expansion along the first row. */
  function Det(M: Matrix): real
    requires IsSquare(M, |M|)
    decreases |M|, 1, 0
  {
    if |M| == 1 then M[0][0]
    else if |M| == 2 then M[0][0] * M[1][1] - M[0][1] * M[1][0]
    else CofactorSum(M, |M|)
  }

  /** The first k terms of the expansion along row 0: sum over c < k of
      (-1)^c * M[0][c] * Det(Minor(M, c)). */
  function CofactorSum(M: Matrix, k: nat): real
    requires IsSquare(M, |M|) && k <= |M|
    decreases |M|, 0, k
  {
    if k == 0 then 0.0
    else CofactorSum(M, k - 1) + Sign(k - 1) * M[0][k - 1] * Det(Minor(M, k - 1))
  }

  // ---------------------------------------------------------------- the determinant

  /** The 2-by-2 shortcut of line 144 is the expansion along the first row, so for every
      size from 2 on the determinant is that expansion. (For 1-by-1 it is not: the expansion
      would multiply by the determinant of the empty minor, which the loop sums to 0.) */
  lemma DetIsExpansion(M: Matrix)
    requires IsSquare(M, |M|) && |M| >= 2
    ensures Det(M) == CofactorSum(M, |M|)
  {
    if |M| == 2 {
      var m0, m1 := Minor(M, 0), Minor(M, 1);
      assert m0[0][0] == M[1][1] && m1[0][0] == M[1][0];
      assert Det(m0) == M[1][1] && Det(m1) == M[1][0];
      calc {
        CofactorSum(M, 2);
      ==
        CofactorSum(M, 1) + Sign(1) * M[0][1] * Det(m1);
      ==
        Sign(0) * M[0][0] * Det(m0) - M[0][1] * Det(m1);
      ==
        M[0][0] * M[1][1] - M[0][1] * M[1][0];
      }
    }
  }

  /** Entry (r, t) of a minor, read from the matrix. */
  lemma MinorEntry(M: Matrix, c: nat, r: nat, t: nat)
    requires IsSquare(M, |M|) && c < |M| && r < |M| - 1 && t < |M| - 1
    ensures Minor(M, c)[r][t] == if t < c then M[r + 1][t] else M[r + 1][t + 1]
  {
  }

  /** A square matrix whose first column is zero has determinant 0. */
  lemma {:induction false} DetZeroFirstColumn(M: Matrix)
    requires IsSquare(M, |M|) && |M| >= 1 && forall r :: 0 <= r < |M| ==> M[r][0] == 0.0
    ensures Det(M) == 0.0
    decreases |M|
  {
    if |M| > 2 {
      ZeroColumnTerms(M, |M|);
    }
  }

  lemma {:induction false} ZeroColumnTerms(M: Matrix, k: nat)
    requires IsSquare(M, |M|) && |M| > 2 && k <= |M| && forall r :: 0 <= r < |M| ==> M[r][0] == 0.0
    ensures CofactorSum(M, k) == 0.0
    decreases |M|, k
  {
    if k > 0 {
      ZeroColumnTerms(M, k - 1);
      var c := k - 1;
      if c > 0 {
        var m := Minor(M, c);
        forall r | 0 <= r < |m| ensures m[r][0] == 0.0 {
          MinorEntry(M, c, r, 0);
        }
        DetZeroFirstColumn(m);
      }
    }
  }

  /** M[from][from] * ... * M[n-1][n-1]. */
  function DiagonalProduct(M: Matrix, from: nat): real
    requires IsSquare(M, |M|) && from <= |M|
    decreases |M| - from
  {
    if from == |M| then 1.0 else M[from][from] * DiagonalProduct(M, from + 1)
  }

  /** M is upper triangular. */
  predicate UpperTriangular(M: Matrix) {
    IsSquare(M, |M|) && forall r, t :: 0 <= t < r < |M| ==> M[r][t] == 0.0
  }

  lemma {:induction false} MinorDiagonalProduct(M: Matrix, from: nat)
    requires IsSquare(M, |M|) && |M| >= 1 && from <= |M| - 1
    ensures DiagonalProduct(Minor(M, 0), from) == DiagonalProduct(M, from + 1)
    decreases |M| - from
  {
    if from < |M| - 1 {
      MinorDiagonalProduct(M, from + 1);
      MinorEntry(M, 0, from, from);
    }
  }

  /** Only the first term of the expansion of an upper triangular matrix survives. */
  lemma {:induction false} UpperTriangularTerms(M: Matrix, k: nat)
    requires UpperTriangular(M) && |M| > 2 && 1 <= k <= |M|
    ensures CofactorSum(M, k) == M[0][0] * Det(Minor(M, 0))
    decreases k
  {
    if k == 1 {
      assert CofactorSum(M, 1) == Sign(0) * M[0][0] * Det(Minor(M, 0));
    } else {
      UpperTriangularTerms(M, k - 1);
      var m := Minor(M, k - 1);
      forall r | 0 <= r < |m| ensures m[r][0] == 0.0 {
        MinorEntry(M, k - 1, r, 0);
      }
      DetZeroFirstColumn(m);
      var d := Det(m);
      assert d == 0.0;
      assert CofactorSum(M, k) == CofactorSum(M, k - 1) + Sign(k - 1) * M[0][k - 1] * d;
    }
  }

  /** The determinant of an upper triangular matrix is the product of its diagonal. */
  lemma {:induction false} DetUpperTriangular(M: Matrix)
    requires UpperTriangular(M) && |M| >= 1
    ensures Det(M) == DiagonalProduct(M, 0)
    decreases |M|
  {
    if |M| == 1 {
      assert DiagonalProduct(M, 1) == 1.0;
    } else if |M| == 2 {
      assert DiagonalProduct(M, 2) == 1.0;
      assert DiagonalProduct(M, 1) == M[1][1];
    } else {
      var m := Minor(M, 0);
      forall r, t | 0 <= t < r < |m| ensures m[r][t] == 0.0 {
        MinorEntry(M, 0, r, t);
      }
      DetUpperTriangular(m);
      MinorDiagonalProduct(M, 0);
      UpperTriangularTerms(M, |M|);
    }
  }

  lemma {:induction false} IdentityDiagonalProduct(n: nat, from: nat)
    requires from <= n
    ensures DiagonalProduct(Identity(n), from) == 1.0
    decreases n - from
  {
    if from < n {
      IdentityDiagonalProduct(n, from + 1);
    }
  }

  /** The identity has determinant 1 (and the empty matrix 0, as the loop leaves it). */
  lemma DetIdentity(n: nat)
    ensures Det(Identity(n)) == if n == 0 then 0.0 else 1.0
  {
    if n > 0 {
      DetUpperTriangular(Identity(n));
      IdentityDiagonalProduct(n, 0);
    }
  }

  // ---------------------------------------------------------------- determinante

  /** Lines 148-151: drop row 0, then cut column c out of each remaining row, one row at a time. */
  method Submatrix(M: Matrix, c: nat) returns (sub: Matrix)
    requires IsSquare(M, |M|) && c < |M|
    ensures sub == Minor(M, c)
  {
    sub := M[1..];
    for i := 0 to |sub|
      invariant |sub| == |M| - 1
      invariant forall r :: 0 <= r < |sub| ==>
        sub[r] == if r < i then M[r + 1][..c] + M[r + 1][c + 1..] else M[r + 1]
    {
      sub := sub[i := sub[i][..c] + sub[i][c + 1..]];
    }
  }

  /** determinante (lines 139-153): the two base cases, and otherwise the expansion loop. The
      result is the determinant Det; on the empty matrix, where the loop does not run, it is 0. */
  method Determinante(M: Matrix) returns (det: real)
    requires IsSquare(M, |M|)
    ensures det == Det(M)
    decreases |M|, 1
  {
    if |M| == 1 {
      return M[0][0];
    }
    if |M| == 2 {
      return M[0][0] * M[1][1] - M[0][1] * M[1][0];
    }
    det := CofactorExpansion(M);
  }

  /** The loop of lines 146-153: accumulates (-1)^c * M[0][c] * determinante(submatrix c) over
      the columns c of row 0; after c passes its total is CofactorSum(M, c). */
  method CofactorExpansion(M: Matrix) returns (det: real)
    requires IsSquare(M, |M|)
    ensures det == CofactorSum(M, |M|)
    decreases |M|, 0
  {
    det := 0.0;
    for c := 0 to |M|
      invariant det == CofactorSum(M, c)
    {
      var sub := Submatrix(M, c);
      var d := Determinante(sub);
      CofactorSumStep(M, c, d);
      det := det + Sign(c) * M[0][c] * d;
    }
  }

  /** One more pass of the expansion loop adds the signed cofactor of column c. */
  lemma CofactorSumStep(M: Matrix, c: nat, d: real)
    requires IsSquare(M, |M|) && c < |M| && d == Det(Minor(M, c))
    ensures CofactorSum(M, c + 1) == CofactorSum(M, c) + Sign(c) * M[0][c] * d
  {
  }

  // ---------------------------------------------------------------- the solver

  /** A with column i replaced by b (lines 163-165). */
  function ReplaceColumn(A: Matrix, i: nat, b: Vector): (R: Matrix)
    requires IsSquare(A, |A|) && |b| == |A| && i < |A|
    ensures IsSquare(R, |A|)
  {
    seq(|A|, r requires 0 <= r < |A| => A[r][i := b[r]])
  }

  /** cramer: fails with SingularMatrix exactly when det(A) == 0; otherwise x[i] is
      det(A with column i replaced by b) divided by det(A). */
  method Cramer(A: Matrix, b: Vector) returns (res: Result<Vector>)
    requires IsSquare(A, |A|) && |b| == |A|
    ensures res.Err? <==> Det(A) == 0.0
    ensures res.Err? ==> res.error == SingularMatrix
    ensures res.Ok? ==> |res.value| == |A|
    ensures res.Ok? ==>
      forall i :: 0 <= i < |A| ==> res.value[i] == Det(ReplaceColumn(A, i, b)) / Det(A)
  {
    var D := Determinante(A);
    if D == 0.0 {
      return Err(SingularMatrix);
    }
    var n := |A|;
    var x: Vector := [];
    for i := 0 to n
      invariant |x| == i
      invariant forall k :: 0 <= k < i ==> x[k] == Det(ReplaceColumn(A, k, b)) / D
    {
      var modified := A;
      for row := 0 to n
        invariant |modified| == n
        invariant forall r :: 0 <= r < n ==> modified[r] == if r < row then A[r][i := b[r]] else A[r]
      {
        modified := modified[row := modified[row][i := b[row]]];
      }
      assert modified == ReplaceColumn(A, i, b);
      var Di := Determinante(modified);
      x := x + [Di / D];
    }
    return Ok(x);
  }

  /** Cramer's rule for two unknowns, as algebra alone: D is the determinant, N0 and N1 the
      numerators and x0, x1 the quotients. */
  lemma CramerAlgebraTwo(a00: real, a01: real, a10: real, a11: real, b0: real, b1: real,
                         D: real, N0: real, N1: real, x0: real, x1: real)
    requires D == a00 * a11 - a01 * a10 && D != 0.0
    requires N0 == b0 * a11 - a01 * b1 && N1 == a00 * b1 - b0 * a10
    requires x0 == N0 / D && x1 == N1 / D
    ensures a00 * x0 + a01 * x1 == b0 && a10 * x0 + a11 * x1 == b1
  {
    assert x0 * D == N0 && x1 * D == N1;
    calc {
      (a00 * x0 + a01 * x1) * D;
      a00 * (x0 * D) + a01 * (x1 * D);
      b0 * D;
    }
    MulCancel(a00 * x0 + a01 * x1, b0, D);
    calc {
      (a10 * x0 + a11 * x1) * D;
      a10 * (x0 * D) + a11 * (x1 * D);
      b1 * D;
    }
    MulCancel(a10 * x0 + a11 * x1, b1, D);
  }

  lemma DotTwo(u: Vector, x: Vector)
    requires |u| == 2 && |x| == 2
    ensures Dot(u, x) == u[0] * x[0] + u[1] * x[1]
  {
  }

  /** Cramer's numerators for two unknowns. */
  lemma ReplacedDetsTwo(A: Matrix, b: Vector)
    requires IsSquare(A, 2) && |b| == 2
    ensures Det(ReplaceColumn(A, 0, b)) == b[0] * A[1][1] - A[0][1] * b[1]
    ensures Det(ReplaceColumn(A, 1, b)) == A[0][0] * b[1] - b[0] * A[1][0]
  {
    var R0, R1 := ReplaceColumn(A, 0, b), ReplaceColumn(A, 1, b);
    assert R0[0][0] == b[0] && R0[1][0] == b[1] && R0[0][1] == A[0][1] && R0[1][1] == A[1][1];
    assert R1[0][1] == b[0] && R1[1][1] == b[1] && R1[0][0] == A[0][0] && R1[1][0] == A[1][0];
  }

  /** A 2-by-2 system whose unknowns are Cramer's quotients, in terms of the entries, the
      determinant D and the numerators N0 and N1. */
  lemma SolvesTwo(A: Matrix, b: Vector, x: Vector, D: real, N0: real, N1: real)
    requires IsSquare(A, 2) && |b| == 2 && |x| == 2
    requires D == A[0][0] * A[1][1] - A[0][1] * A[1][0] && D != 0.0
    requires N0 == b[0] * A[1][1] - A[0][1] * b[1] && N1 == A[0][0] * b[1] - b[0] * A[1][0]
    requires x[0] == N0 / D && x[1] == N1 / D
    ensures Solves(A, b, x)
  {
    CramerAlgebraTwo(A[0][0], A[0][1], A[1][0], A[1][1], b[0], b[1], D, N0, N1, x[0], x[1]);
    DotTwo(A[0], x);
    DotTwo(A[1], x);
  }

  /** For two unknowns, the values Cramer's rule returns solve A·x = b: if D = det(A) is not
      0 and each x[i] is det(A with column i replaced by b) / D, then A·x = b. */
  lemma CramerSolvesTwo(A: Matrix, b: Vector, x: Vector, D: real)
    requires IsSquare(A, 2) && |b| == 2 && |x| == 2
    requires D == Det(A) && D != 0.0
    requires x[0] == Det(ReplaceColumn(A, 0, b)) / D && x[1] == Det(ReplaceColumn(A, 1, b)) / D
    ensures Solves(A, b, x)
  {
    ReplacedDetsTwo(A, b);
    SolvesTwo(A, b, x, D, Det(ReplaceColumn(A, 0, b)), Det(ReplaceColumn(A, 1, b)));
  }
}
