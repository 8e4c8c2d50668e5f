/**
 * Vectors, square matrices and the partial sums the solvers accumulate, together with
 * what the direct solvers need to know about them: which row operations keep the
 * solutions of a system, when the leading blocks of a matrix are nonsingular, and how
 * triangular blocks decide both.
 */
module Matrices {

  type Vector = seq<real>
  type Matrix = seq<seq<real>>

  /** M has n rows of n entries each. */
  predicate IsSquare(M: Matrix, n: nat) {
    |M| == n && forall r :: 0 <= r < n ==> |M[r]| == n
  }

  function Zeros(n: nat): Vector {
    seq(n, _ => 0.0)
  }

  function Identity(n: nat): Matrix {
    seq(n, r => seq(n, t => if r == t then 1.0 else 0.0))
  }

  function Abs(x: real): real {
    if x < 0.0 then -x else x
  }

  /** u[lo]*v[lo] + ... + u[hi-1]*v[hi-1], accumulated from left to right as the loops do. */
  function DotRange(u: Vector, v: Vector, lo: nat, hi: nat): real
    requires lo <= hi <= |u| && hi <= |v|
    decreases hi - lo
  {
    if lo == hi then 0.0 else DotRange(u, v, lo, hi - 1) + u[hi - 1] * v[hi - 1]
  }

  function Dot(u: Vector, v: Vector): real
    requires |u| == |v|
  {
    DotRange(u, v, 0, |u|)
  }

  /** Row u divided entry by entry by p. */
  function DivRow(u: Vector, p: real): Vector
    requires p != 0.0
  {
    seq(|u|, k requires 0 <= k < |u| => u[k] / p)
  }

  /** Row u minus f times row w. */
  function SubMul(u: Vector, f: real, w: Vector): Vector
    requires |u| == |w|
  {
    seq(|u|, k requires 0 <= k < |u| => u[k] - f * w[k])
  }

  /** x solves the system M·x = d. */
  predicate Solves(M: Matrix, d: Vector, x: Vector) {
    |d| == |M| && forall r :: 0 <= r < |M| ==> |M[r]| == |x| && Dot(M[r], x) == d[r]
  }

  /** The n-unknown systems M·x = d and W·x = c have the same solutions. */
  ghost predicate Equivalent(M: Matrix, d: Vector, W: Matrix, c: Vector, n: nat) {
    forall x {:trigger Solves(M, d, x)} {:trigger Solves(W, c, x)} ::
      |x| == n ==> (Solves(M, d, x) <==> Solves(W, c, x))
  }

  /** x is a solution of A·x = b, and the only one. */
  ghost predicate IsUniqueSolution(A: Matrix, b: Vector, x: Vector) {
    |x| == |A| && Solves(A, b, x) && forall y {:trigger Solves(A, b, y)} :: |y| == |A| && Solves(A, b, y) ==> y == x
  }

  /** y lies in the kernel of the leading m-by-m block of M. */
  ghost predicate InLeadingKernel(M: Matrix, m: nat, y: Vector) {
    |y| == m && m <= |M| &&
    forall r :: 0 <= r < m ==> m <= |M[r]| && DotRange(M[r], y, 0, m) == 0.0
  }

  /** The leading m-by-m block of M is nonsingular: its kernel is {0}. */
  ghost predicate LeadingNonsingular(M: Matrix, m: nat) {
    forall y :: InLeadingKernel(M, m, y) ==> y == Zeros(m)
  }

  /** Every leading principal block of the n-by-n matrix M is nonsingular. */
  ghost predicate AllLeadingNonsingular(M: Matrix, n: nat) {
    forall m :: 1 <= m <= n ==> LeadingNonsingular(M, m)
  }

  /** The leading blocks of sizes 1..k of M are nonsingular and the block of size k+1 is not:
      elimination without row exchanges meets its first zero pivot at step k. */
  ghost predicate FirstSingularLeading(M: Matrix, k: nat) {
    k < |M| && (forall m :: 1 <= m <= k ==> LeadingNonsingular(M, m)) && !LeadingNonsingular(M, k + 1)
  }

  /** The leading m-by-m blocks of M and W have the same kernel. */
  ghost predicate SameLeadingKernel(M: Matrix, W: Matrix, m: nat) {
    forall y {:trigger InLeadingKernel(M, m, y)} {:trigger InLeadingKernel(W, m, y)} ::
      |y| == m ==> (InLeadingKernel(M, m, y) <==> InLeadingKernel(W, m, y))
  }

  /** The leading m-by-m block of W is upper triangular. */
  predicate UpperTriangularBlock(W: Matrix, m: nat) {
    m <= |W| && (forall r :: 0 <= r < m ==> m <= |W[r]|) &&
    forall r, t :: 0 <= t < r < m ==> W[r][t] == 0.0
  }

  /** The n-by-n matrix W is upper triangular with ones on its diagonal. */
  predicate UnitUpperTriangular(W: Matrix, n: nat) {
    IsSquare(W, n) && UpperTriangularBlock(W, n) && forall r :: 0 <= r < n ==> W[r][r] == 1.0
  }

  // ---------------------------------------------------------------- sums

  lemma {:induction false} DotRangeFrame(u: Vector, v: Vector, u': Vector, v': Vector, lo: nat, hi: nat)
    requires lo <= hi <= |u| && hi <= |v| && hi <= |u'| && hi <= |v'|
    requires forall t :: lo <= t < hi ==> u[t] == u'[t] && v[t] == v'[t]
    ensures DotRange(u, v, lo, hi) == DotRange(u', v', lo, hi)
    decreases hi - lo
  {
    if lo < hi {
      DotRangeFrame(u, v, u', v', lo, hi - 1);
    }
  }

  lemma {:induction false} DotRangeSplit(u: Vector, v: Vector, lo: nat, mid: nat, hi: nat)
    requires lo <= mid <= hi <= |u| && hi <= |v|
    ensures DotRange(u, v, lo, hi) == DotRange(u, v, lo, mid) + DotRange(u, v, mid, hi)
    decreases hi - mid
  {
    if mid < hi {
      DotRangeSplit(u, v, lo, mid, hi - 1);
    }
  }

  /** A sum whose every term has a zero factor, except possibly the one at s, is that term. */
  lemma {:induction false} DotRangeSingle(u: Vector, v: Vector, lo: nat, hi: nat, s: int)
    requires lo <= hi <= |u| && hi <= |v|
    requires forall t :: lo <= t < hi && t != s ==> u[t] == 0.0 || v[t] == 0.0
    ensures DotRange(u, v, lo, hi) == if lo <= s < hi then u[s] * v[s] else 0.0
    decreases hi - lo
  {
    if lo < hi {
      DotRangeSingle(u, v, lo, hi - 1, s);
    }
  }

  lemma {:induction false} DotRangeDiv(u: Vector, p: real, v: Vector, lo: nat, hi: nat)
    requires p != 0.0 && lo <= hi <= |u| && hi <= |v|
    ensures DotRange(DivRow(u, p), v, lo, hi) * p == DotRange(u, v, lo, hi)
    decreases hi - lo
  {
    if lo < hi {
      DotRangeDiv(u, p, v, lo, hi - 1);
      var w := DivRow(u, p);
      calc {
        DotRange(w, v, lo, hi) * p;
        (DotRange(w, v, lo, hi - 1) + w[hi - 1] * v[hi - 1]) * p;
        DotRange(w, v, lo, hi - 1) * p + (w[hi - 1] * p) * v[hi - 1];
        { assert w[hi - 1] * p == u[hi - 1]; }
        DotRange(u, v, lo, hi);
      }
    }
  }

  lemma {:induction false} DotRangeSubMul(u: Vector, f: real, w: Vector, v: Vector, lo: nat, hi: nat)
    requires |u| == |w| && lo <= hi <= |u| && hi <= |v|
    ensures DotRange(SubMul(u, f, w), v, lo, hi) == DotRange(u, v, lo, hi) - f * DotRange(w, v, lo, hi)
    decreases hi - lo
  {
    if lo < hi {
      DotRangeSubMul(u, f, w, v, lo, hi - 1);
      var s := SubMul(u, f, w);
      assert s[hi - 1] * v[hi - 1] == u[hi - 1] * v[hi - 1] - f * (w[hi - 1] * v[hi - 1]);
    }
  }

  /** The sum is linear in its second argument: u·(x - y) = u·x - u·y. */
  lemma {:induction false} DotRangeDiff(u: Vector, x: Vector, y: Vector, z: Vector, lo: nat, hi: nat)
    requires lo <= hi <= |u| && hi <= |x| && hi <= |y| && hi <= |z|
    requires forall t :: lo <= t < hi ==> z[t] == x[t] - y[t]
    ensures DotRange(u, z, lo, hi) == DotRange(u, x, lo, hi) - DotRange(u, y, lo, hi)
    decreases hi - lo
  {
    if lo < hi {
      DotRangeDiff(u, x, y, z, lo, hi - 1);
      assert u[hi - 1] * z[hi - 1] == u[hi - 1] * x[hi - 1] - u[hi - 1] * y[hi - 1];
    }
  }

  // ---------------------------------------------------------------- row operations

  lemma MulCancel(a: real, b: real, p: real)
    requires p != 0.0 && a * p == b * p
    ensures a == b
  {
    assert (a - b) * p == 0.0;
  }

  /** If W·x = c differs from M·x = d only in row j, and row j's equation is equivalent in both
      systems once the others hold, then the systems have the same solutions. */
  lemma OneRowChanged(M: Matrix, d: Vector, W: Matrix, c: Vector, n: nat, j: nat, x: Vector)
    requires IsSquare(M, n) && IsSquare(W, n) && |d| == n && |c| == n && j < n && |x| == n
    requires forall r :: 0 <= r < n && r != j ==> W[r] == M[r] && c[r] == d[r]
    requires (forall r :: 0 <= r < n && r != j ==> Dot(M[r], x) == d[r]) ==>
      (Dot(M[j], x) == d[j] <==> Dot(W[j], x) == c[j])
    ensures Solves(M, d, x) <==> Solves(W, c, x)
  {
    if Solves(M, d, x) {
      forall r | 0 <= r < n ensures Dot(W[r], x) == c[r] {
        if r != j { assert W[r] == M[r] && c[r] == d[r]; }
      }
    }
    if Solves(W, c, x) {
      forall r | 0 <= r < n && r != j ensures Dot(M[r], x) == d[r] {
        assert W[r] == M[r] && c[r] == d[r];
      }
    }
  }

  /** Dividing row i and its right-hand side by a nonzero pivot keeps the solutions. */
  lemma DivRowEquivalent(M: Matrix, d: Vector, W: Matrix, c: Vector, n: nat, i: nat, p: real)
    requires IsSquare(M, n) && |d| == n && i < n && p != 0.0
    requires W == M[i := DivRow(M[i], p)] && c == d[i := d[i] / p]
    ensures Equivalent(M, d, W, c, n)
  {
    forall x | |x| == n
      ensures Solves(M, d, x) <==> Solves(W, c, x)
    {
      DotRangeDiv(M[i], p, x, 0, n);
      assert Dot(W[i], x) * p == Dot(M[i], x);
      assert c[i] * p == d[i];
      assert Dot(M[i], x) == d[i] <==> Dot(W[i], x) == c[i] by {
        if Dot(M[i], x) == d[i] { MulCancel(Dot(W[i], x), c[i], p); }
      }
      OneRowChanged(M, d, W, c, n, i, x);
    }
  }

  /** Dividing row i by a nonzero pivot keeps the kernel of every leading block. */
  lemma DivRowSameKernel(M: Matrix, W: Matrix, n: nat, i: nat, p: real)
    requires IsSquare(M, n) && i < n && p != 0.0
    requires W == M[i := DivRow(M[i], p)]
    ensures forall m :: 0 <= m <= n ==> SameLeadingKernel(M, W, m)
  {
    forall m, y | 0 <= m <= n && |y| == m
      ensures InLeadingKernel(M, m, y) <==> InLeadingKernel(W, m, y)
    {
      if i < m {
        DotRangeDiv(M[i], p, y, 0, m);
        var a, b := DotRange(W[i], y, 0, m), DotRange(M[i], y, 0, m);
        assert a * p == b;
        assert a == 0.0 <==> b == 0.0 by {
          if b == 0.0 { MulCancel(a, 0.0, p); }
        }
        forall r | 0 <= r < m && r != i ensures W[r] == M[r] { }
      } else {
        forall r | 0 <= r < m ensures W[r] == M[r] { }
      }
    }
  }

  /** Row r of W is zero in its first m columns. */
  predicate ZeroPrefix(row: Vector, m: nat) {
    m <= |row| && forall t :: 0 <= t < m ==> row[t] == 0.0
  }

  /** Subtracting f times row i from another row j keeps the solutions. */
  lemma SubMulEquivalent(M: Matrix, d: Vector, W: Matrix, c: Vector, n: nat, j: nat, i: nat, f: real)
    requires IsSquare(M, n) && |d| == n && i < n && j < n && i != j
    requires W == M[j := SubMul(M[j], f, M[i])] && c == d[j := d[j] - f * d[i]]
    ensures Equivalent(M, d, W, c, n)
  {
    forall x | |x| == n
      ensures Solves(M, d, x) <==> Solves(W, c, x)
    {
      DotRangeSubMul(M[j], f, M[i], x, 0, n);
      assert Dot(W[j], x) == Dot(M[j], x) - f * Dot(M[i], x);
      OneRowChanged(M, d, W, c, n, j, x);
    }
  }

  /** Subtracting f times row i from another row j keeps the kernel of every leading block that
      either leaves out row j, contains row i, or on which row i is zero. */
  lemma SubMulSameKernel(M: Matrix, W: Matrix, n: nat, j: nat, i: nat, f: real)
    requires IsSquare(M, n) && i < n && j < n && i != j
    requires W == M[j := SubMul(M[j], f, M[i])]
    ensures forall m :: 0 <= m <= n && (j >= m || i < m || ZeroPrefix(M[i], m)) ==>
      SameLeadingKernel(M, W, m)
  {
    forall m, y | 0 <= m <= n && (j >= m || i < m || ZeroPrefix(M[i], m)) && |y| == m
      ensures InLeadingKernel(M, m, y) <==> InLeadingKernel(W, m, y)
    {
      SubMulKernelAt(M, W, n, j, i, f, m, y);
    }
  }

  lemma SubMulKernelAt(M: Matrix, W: Matrix, n: nat, j: nat, i: nat, f: real, m: nat, y: Vector)
    requires IsSquare(M, n) && i < n && j < n && i != j
    requires W == M[j := SubMul(M[j], f, M[i])]
    requires m <= n && |y| == m && (j >= m || i < m || ZeroPrefix(M[i], m))
    ensures InLeadingKernel(M, m, y) <==> InLeadingKernel(W, m, y)
  {
    assert IsSquare(W, n);
    if j < m {
      DotRangeSubMul(M[j], f, M[i], y, 0, m);
      var a := DotRange(M[i], y, 0, m);
      assert DotRange(W[j], y, 0, m) == DotRange(M[j], y, 0, m) - f * a;
      if i >= m {
        DotRangeSingle(M[i], y, 0, m, -1);
      }
      if InLeadingKernel(M, m, y) || InLeadingKernel(W, m, y) {
        assert a == 0.0 by {
          if i < m { assert W[i] == M[i]; }
        }
      }
      if InLeadingKernel(M, m, y) {
        forall r | 0 <= r < m ensures DotRange(W[r], y, 0, m) == 0.0 {
          if r != j { assert W[r] == M[r]; }
        }
      }
      if InLeadingKernel(W, m, y) {
        forall r | 0 <= r < m ensures DotRange(M[r], y, 0, m) == 0.0 {
          if r != j { assert W[r] == M[r]; }
        }
      }
    } else {
      forall r | 0 <= r < m ensures W[r] == M[r] { }
    }
  }

  lemma SameLeadingKernelTrans(M: Matrix, V: Matrix, W: Matrix, n: nat)
    requires forall m :: 0 <= m <= n ==> SameLeadingKernel(M, V, m)
    requires forall m :: 0 <= m <= n ==> SameLeadingKernel(V, W, m)
    ensures forall m :: 0 <= m <= n ==> SameLeadingKernel(M, W, m)
  {
    forall m | 0 <= m <= n ensures SameLeadingKernel(M, W, m) {
      assert SameLeadingKernel(M, V, m) && SameLeadingKernel(V, W, m);
    }
  }

  // ---------------------------------------------------------------- triangular blocks

  lemma {:induction false} KernelSuffixZero(W: Matrix, m: nat, y: Vector, r: nat)
    requires UpperTriangularBlock(W, m) && forall s :: 0 <= s < m ==> W[s][s] != 0.0
    requires InLeadingKernel(W, m, y) && r <= m
    ensures forall t :: r <= t < m ==> y[t] == 0.0
    decreases m - r
  {
    if r < m {
      KernelSuffixZero(W, m, y, r + 1);
      DotRangeSingle(W[r], y, 0, m, r);
      assert W[r][r] * y[r] == 0.0;
    }
  }

  /** An upper triangular block with no zero on its diagonal is nonsingular. */
  lemma TriangularNonsingular(W: Matrix, m: nat)
    requires UpperTriangularBlock(W, m) && forall s :: 0 <= s < m ==> W[s][s] != 0.0
    ensures LeadingNonsingular(W, m)
  {
    forall y | InLeadingKernel(W, m, y) ensures y == Zeros(m) {
      KernelSuffixZero(W, m, y, 0);
    }
  }

  /** Back substitution for a kernel vector of the block of size k+1: entry k is 1, entries
      r..k-1 make rows r..k-1 vanish, entries below r are still 0. */
  ghost function NullVector(W: Matrix, k: nat, r: nat): (v: Vector)
    requires UpperTriangularBlock(W, k + 1) && r <= k
    requires forall s :: 0 <= s < k ==> W[s][s] != 0.0
    ensures |v| == k + 1 && v[k] == 1.0
    decreases k - r
  {
    if r == k then Zeros(k + 1)[k := 1.0]
    else
      var v := NullVector(W, k, r + 1);
      v[r := -DotRange(W[r], v, r + 1, k + 1) / W[r][r]]
  }

  lemma CancelQuotient(a: real, p: real)
    requires p != 0.0
    ensures p * (-a / p) + a == 0.0
  {
  }

  lemma {:induction false} NullVectorRows(W: Matrix, k: nat, r: nat)
    requires UpperTriangularBlock(W, k + 1) && r <= k
    requires forall s :: 0 <= s < k ==> W[s][s] != 0.0
    ensures forall s :: r <= s < k ==> NullVectorRow(W, k, NullVector(W, k, r), s)
    decreases k - r
  {
    if r < k {
      NullVectorRows(W, k, r + 1);
      forall s | r <= s < k ensures NullVectorRow(W, k, NullVector(W, k, r), s) {
        NullVectorStep(W, k, r, s);
      }
    }
  }

  /** Row s of the block of size k+1 vanishes on v. */
  ghost predicate NullVectorRow(W: Matrix, k: nat, v: Vector, s: nat)
    requires UpperTriangularBlock(W, k + 1) && s < k && |v| == k + 1
  {
    W[s][s] * v[s] + DotRange(W[s], v, s + 1, k + 1) == 0.0
  }

  lemma NullVectorStep(W: Matrix, k: nat, r: nat, s: nat)
    requires UpperTriangularBlock(W, k + 1) && r < k && r <= s < k
    requires forall s :: 0 <= s < k ==> W[s][s] != 0.0
    requires s > r ==> NullVectorRow(W, k, NullVector(W, k, r + 1), s)
    ensures NullVectorRow(W, k, NullVector(W, k, r), s)
  {
    var v' := NullVector(W, k, r + 1);
    var v := NullVector(W, k, r);
    var q := -DotRange(W[r], v', r + 1, k + 1) / W[r][r];
    assert v == v'[r := q];
    DotRangeFrame(W[s], v', W[s], v, s + 1, k + 1);
    if s == r {
      CancelQuotient(DotRange(W[r], v', r + 1, k + 1), W[r][r]);
    } else {
      assert v[s] == v'[s];
      assert W[s][s] * v[s] == W[s][s] * v'[s];
      assert DotRange(W[s], v, s + 1, k + 1) == DotRange(W[s], v', s + 1, k + 1);
    }
  }

  /** An upper triangular block of size k+1 whose last diagonal entry alone is zero is singular. */
  lemma TriangularSingular(W: Matrix, k: nat)
    requires UpperTriangularBlock(W, k + 1)
    requires forall s :: 0 <= s < k ==> W[s][s] != 0.0
    requires W[k][k] == 0.0
    ensures !LeadingNonsingular(W, k + 1)
  {
    var y := NullVector(W, k, 0);
    NullVectorRows(W, k, 0);
    forall s | 0 <= s <= k ensures DotRange(W[s], y, 0, k + 1) == 0.0 {
      if s < k {
        DotRangeSplit(W[s], y, 0, s + 1, k + 1);
        DotRangeSingle(W[s], y, 0, s + 1, s);
        assert NullVectorRow(W, k, y, s);
      } else {
        DotRangeSingle(W[s], y, 0, k + 1, -1);
      }
    }
    assert InLeadingKernel(W, k + 1, y);
    assert y != Zeros(k + 1) by { assert y[k] == 1.0; }
  }

  /** Blocks whose kernels agree are nonsingular together. */
  lemma TransferNonsingular(M: Matrix, W: Matrix, m: nat)
    requires SameLeadingKernel(M, W, m)
    ensures LeadingNonsingular(M, m) <==> LeadingNonsingular(W, m)
  {
    if LeadingNonsingular(W, m) {
      forall y | InLeadingKernel(M, m, y) ensures y == Zeros(m) {
        assert InLeadingKernel(W, m, y);
      }
    }
    if LeadingNonsingular(M, m) {
      forall y | InLeadingKernel(W, m, y) ensures y == Zeros(m) {
        assert InLeadingKernel(M, m, y);
      }
    }
  }

  /** What an elimination has learnt about A once its working matrix W is upper triangular
      in its leading block of size k with no zero pivot there. */
  lemma LeadingFromTriangular(A: Matrix, W: Matrix, n: nat, k: nat)
    requires k <= n && forall m :: 0 <= m <= n ==> SameLeadingKernel(A, W, m)
    requires UpperTriangularBlock(W, k) && forall s :: 0 <= s < k ==> W[s][s] != 0.0
    ensures forall m :: 1 <= m <= k ==> LeadingNonsingular(A, m)
  {
    forall m | 1 <= m <= k ensures LeadingNonsingular(A, m) {
      TriangularNonsingular(W, m);
      TransferNonsingular(A, W, m);
    }
  }

  /** The same, when the next pivot W[k][k] is zero: block k+1 of A is the first singular one. */
  lemma FirstSingularFromPivot(A: Matrix, W: Matrix, n: nat, k: nat)
    requires k < n && IsSquare(A, n) && forall m :: 0 <= m <= n ==> SameLeadingKernel(A, W, m)
    requires UpperTriangularBlock(W, k + 1) && forall s :: 0 <= s < k ==> W[s][s] != 0.0
    requires W[k][k] == 0.0
    ensures FirstSingularLeading(A, k)
  {
    LeadingFromTriangular(A, W, n, k);
    TriangularSingular(W, k);
    TransferNonsingular(A, W, k + 1);
  }

  /** A nonsingular matrix has at most one solution for each right-hand side. */
  lemma NonsingularUnique(A: Matrix, b: Vector, x: Vector, y: Vector)
    requires IsSquare(A, |A|) && LeadingNonsingular(A, |A|)
    requires |x| == |A| && |y| == |A| && Solves(A, b, x) && Solves(A, b, y)
    ensures x == y
  {
    var n := |A|;
    var z := seq(n, t requires 0 <= t < n => x[t] - y[t]);
    forall r | 0 <= r < n ensures DotRange(A[r], z, 0, n) == 0.0 {
      DotRangeDiff(A[r], x, y, z, 0, n);
    }
    assert InLeadingKernel(A, n, z);
    assert z == Zeros(n);
    forall t | 0 <= t < n ensures x[t] == y[t] {
      assert z[t] == 0.0;
    }
  }

  /** A solution of A·x = b for a nonsingular A is the only one. */
  lemma NonsingularSolutionUnique(A: Matrix, b: Vector, x: Vector)
    requires IsSquare(A, |A|) && LeadingNonsingular(A, |A|)
    requires |x| == |A| && Solves(A, b, x)
    ensures IsUniqueSolution(A, b, x)
  {
    forall y | |y| == |A| && Solves(A, b, y) ensures y == x {
      NonsingularUnique(A, b, x, y);
    }
  }

  /** When every leading block is nonsingular, so is the whole matrix (the empty one included). */
  lemma AllLeadingWhole(A: Matrix)
    requires AllLeadingNonsingular(A, |A|)
    ensures LeadingNonsingular(A, |A|)
  {
    if |A| == 0 {
      forall y | InLeadingKernel(A, 0, y) ensures y == Zeros(0) {
        assert |y| == 0 && |Zeros(0)| == 0;
      }
    }
  }

  /** The solutions of I·x = c: exactly x = c. */
  lemma IdentitySolves(n: nat, c: Vector, x: Vector)
    requires |c| == n && |x| == n
    ensures Solves(Identity(n), c, x) <==> x == c
  {
    forall r | 0 <= r < n ensures Dot(Identity(n)[r], x) == x[r] {
      DotRangeSingle(Identity(n)[r], x, 0, n, r);
    }
  }
}
