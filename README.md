# Numerical methods of RJ23001UNO, modelled in Dafny

`RJ23001UNO/metodos.py` holds seven independent numerical procedures:

- four direct solvers for A·x = b: `gauss_eliminacion`, `gauss_jordan`, `cramer` (with its recursive `determinante`) and `descomposicion_lu` (Doolittle);
- two iterative solvers: `jacobi` and `gauss_seidel`;
- one root finder: `biseccion`.

This project models each of them. Every number is a Dafny `real`, so arithmetic is exact. A matrix is a `seq<seq<real>>` and a vector a `seq<real>`.

The source copies what it modifies (A and b by `deepcopy` in `gauss_eliminacion` and `gauss_jordan`, A alone in `descomposicion_lu` and, once per column, in `cramer`; x0 by slicing in `jacobi` and `gauss_seidel`) and only reads the rest. Here the arguments are values, so a caller's A, b and x0 cannot change either way. Each loop nest of the source becomes a method with loop invariants. Local lists that the source updates in place become local sequence variables, reassigned entry by entry. The determinant is specified by a pair of mutually recursive functions (`Cramer.Det`, `Cramer.CofactorSum`) and computed, as the source does, by a recursive method whose loop over the first row is proved to follow them (`Cramer.Determinante`, `Cramer.CofactorExpansion`).

Modules:

- `Results` (results.dfy): the three explicit failures (`ZeroPivot`, `SingularMatrix`, `NoSignChange`), plus `Result` and `Option`.
- `Matrices` (matrices.dfy): dot products as the loops accumulate them, and what `A·x = b` means (`Solves`). It also holds the linear-algebra facts the direct solvers need:
  - row operations keep the solution set and the kernels of the leading blocks;
  - a triangular block is nonsingular exactly when its diagonal has no zero.
- `Elimination` (elimination.dfy): `gauss_eliminacion` and `gauss_jordan`.
- `Cramer` (cramer.dfy): `determinante` and `cramer`.
- `LU` (lu.dfy): `descomposicion_lu`.
- `Iterative` (iterative.dfy): `jacobi` and `gauss_seidel`.
- `Bisection` (bisection.dfy): `biseccion`.

The zero-pivot failure of elimination is stated exactly. `ZeroPivot(k)` is returned precisely when:
- the leading principal blocks of A of sizes 1..k are nonsingular, and
- the block of size k+1 is singular.

Success happens exactly when every leading block is nonsingular. The model records the step k in the error. The source raises a `ValueError` that carries only a message.

`descomposicion_lu` divides by U[i][i] without testing it. Its precondition is that every leading block of A is nonsingular. Two lemmas show this is the same as "no U[i][i] is 0":
- `LU.PivotNonzero`: the condition makes every pivot nonzero;
- `LU.FactorsNonsingular`: a factorisation with nonzero pivots implies the condition.

## Model

| member | source | states |
|---|---|---|
| `Elimination.NormalizeRow` | RJ23001UNO/metodos.py:43-46 | divides entries i..n-1 of the pivot row by the pivot and keeps the entries before i |
| `Elimination.EliminateRow` | RJ23001UNO/metodos.py:50-53 | subtracts factor times the pivot row from entries i..n-1 of row j and keeps the entries before i |
| `Elimination.NormalizePivotRow` | RJ23001UNO/metodos.py:39-46 | normalising pivot row i (and b[i]) divides the whole row, because it is already 0 left of i; the system keeps its solutions and its leading-block kernels |
| `Elimination.SubtractPivotRow` | RJ23001UNO/metodos.py:48-53 | clearing column i of row j by the pivot row keeps the solutions of the system and the kernels of its leading blocks |
| `Elimination.ForwardElimination` | RJ23001UNO/metodos.py:36-53 | fails with ZeroPivot(k) exactly when leading block k+1 is the first singular one; otherwise the result is unit upper triangular and has the same solutions as A·x = b |
| `Elimination.BackSubstitution` | RJ23001UNO/metodos.py:55-62 | on a unit upper triangular system the substituted x solves it |
| `Elimination.GaussElimination` | RJ23001UNO/metodos.py:32-62 | ZeroPivot exactly when some leading block of A is singular (at the first one); otherwise returns the unique x with A·x = b |
| `Elimination.GaussJordan` | RJ23001UNO/metodos.py:88-111 | same failure condition; otherwise the working matrix ends as the identity and the reduced b is the unique solution of A·x = b |
| `Matrices.DivRowEquivalent` | RJ23001UNO/metodos.py:44-46 | dividing a row and its right-hand side by a nonzero pivot does not change the solutions |
| `Matrices.SubMulEquivalent` | RJ23001UNO/metodos.py:50-53 | subtracting a multiple of another row (and of its right-hand side) does not change the solutions |
| `Matrices.TriangularSingular` | RJ23001UNO/metodos.py:39-41 | an upper triangular block whose only zero diagonal entry is the last one is singular, so a zero pivot means a singular leading block |
| `Matrices.FirstSingularFromPivot` | RJ23001UNO/metodos.py:39-41 | a zero pivot at step k, after k nonzero ones, means leading block k+1 of A is the first singular one |
| `Matrices.NonsingularSolutionUnique` | RJ23001UNO/metodos.py:56-62 | a solution of A·x = b for a nonsingular A (trivial kernel) is the only one |
| `Cramer.Determinante` | RJ23001UNO/metodos.py:139-153 | returns Det(M): the entry for 1-by-1, m00·m11 − m01·m10 for 2-by-2, and the alternating first-row expansion for larger sizes; 0 for the 0-by-0 matrix, where the loop does not run. The Det lemmas below state what this value is |
| `Cramer.CofactorExpansion` | RJ23001UNO/metodos.py:146-153 | the loop's total `det` after all columns is CofactorSum(M, n), the sum of (−1)^c·M[0][c]·det(minor c); after c passes it is the first c terms |
| `Cramer.Submatrix` | RJ23001UNO/metodos.py:148-151 | the submatrix built row by row is the minor of M at (0, c) |
| `Cramer.Minor` | RJ23001UNO/metodos.py:148-151 | deleting row 0 and column c of an n-by-n matrix leaves an (n-1)-by-(n-1) matrix |
| `Cramer.DetIsExpansion` | RJ23001UNO/metodos.py:141-153 | for every size from 2 up, the determinant is the alternating first-row cofactor expansion; the 2-by-2 shortcut agrees with it |
| `Cramer.DetZeroFirstColumn` | RJ23001UNO/metodos.py:146-153 | a matrix whose first column is zero has determinant 0 |
| `Cramer.DetUpperTriangular` | RJ23001UNO/metodos.py:139-153 | the determinant of an upper triangular matrix of size n >= 1 is the product of its diagonal |
| `Cramer.DetIdentity` | RJ23001UNO/metodos.py:139-153 | the identity of size n >= 1 has determinant 1; the empty matrix gets 0 from the empty loop |
| `Cramer.ReplaceColumn` | RJ23001UNO/metodos.py:163-165 | A with column i replaced by b is still n-by-n |
| `Cramer.Cramer` | RJ23001UNO/metodos.py:155-170 | SingularMatrix exactly when det(A) = 0; otherwise x has n entries and x[i] = det(A with column i replaced by b) / det(A) |
| `Cramer.CramerSolvesTwo` | RJ23001UNO/metodos.py:155-170 | for two unknowns, the quotients Cramer's rule returns solve A·x = b |
| `LU.FillURow` | RJ23001UNO/metodos.py:206-211 | row i of U from column i on is A[i][k] minus the sum over j < i of L[i][j]·U[j][k]; nothing else changes |
| `LU.FillLColumn` | RJ23001UNO/metodos.py:213-221 | L[i][i] = 1 and L[k][i] = (A[k][i] minus the sum over j < i of L[k][j]·U[j][i]) / U[i][i] below it; nothing else changes |
| `LU.PivotNonzero` | RJ23001UNO/metodos.py:221 | when the leading blocks of A are nonsingular, the U[i][i] that line 221 divides by is not 0 |
| `LU.Doolittle` | RJ23001UNO/metodos.py:204-221 | L is unit lower triangular, U is upper triangular with a nonzero diagonal, and L·U = A |
| `LU.FactorsNonsingular` | RJ23001UNO/metodos.py:204-221 | conversely, A = L·U with L unit lower and U upper triangular with nonzero diagonal has all leading blocks nonsingular |
| `LU.ForwardSubstitution` | RJ23001UNO/metodos.py:223-229 | y solves L·y = b |
| `LU.PartialSum` | RJ23001UNO/metodos.py:226-228 | the running `suma` equals the sum of row[j]·x[j] over the given range of j (also lines 234-236) |
| `LU.BackSubstitution` | RJ23001UNO/metodos.py:231-237 | x solves U·x = y |
| `LU.ProductSolves` | RJ23001UNO/metodos.py:223-237 | L·y = b and U·x = y give (L·U)·x = b |
| `LU.DescomposicionLU` | RJ23001UNO/metodos.py:196-239 | returns the unique x with A·x = b |
| `Iterative.Start` | RJ23001UNO/metodos.py:274-278 | a missing x0 becomes the zero vector of length n; a given x0 is used as is |
| `Iterative.MaxAbsDiff` | RJ23001UNO/metodos.py:289 | the result bounds every component change and equals one of them |
| `Iterative.JacobiSweep` | RJ23001UNO/metodos.py:280-286 | computes the Jacobi step, each new entry from the previous iterate only |
| `Iterative.JacobiRows` | RJ23001UNO/metodos.py:280-286 | each new entry solves equation i with every other unknown at its previous value |
| `Iterative.JacobiLoop` | RJ23001UNO/metodos.py:279-293 | for max_iter >= 1: the returned x is iterate k of the Jacobi sweeps, 1 <= k <= max_iter, every earlier sweep changed some entry by at least tol, and k < max_iter only when sweep k changed every entry by less than tol |
| `Iterative.JacobiFixedPoint` | RJ23001UNO/metodos.py:279-292 | a Jacobi step leaves x unchanged exactly when A·x = b |
| `Iterative.Jacobi` | RJ23001UNO/metodos.py:274-293 | returns the first iterate k+1 whose max change is below tol, with k+1; if there is none, iterate max_iter with max_iter; with max_iter <= 0, x0 and max_iter |
| `Iterative.JacobiDefaults` | RJ23001UNO/metodos.py:242 | with tol = 1e-7, max_iter = 100 and no x0: the k-th Jacobi iterate from the zero vector, 1 <= k <= 100, every earlier change at least 1e-7, and a change below 1e-7 at k when k < 100 |
| `Iterative.SeidelSweep` | RJ23001UNO/metodos.py:334-340 | computes the Gauss-Seidel step, overwriting x[i] in place |
| `Iterative.SweepUpToEntries` | RJ23001UNO/metodos.py:335-340 | after i in-place updates, entries below i are final and the rest still hold the previous iterate |
| `Iterative.SeidelRows` | RJ23001UNO/metodos.py:335-340 | each new entry solves equation i with entries j < i already updated and entries j > i from the previous iterate |
| `Iterative.SeidelFixedPoint` | RJ23001UNO/metodos.py:333-345 | a Gauss-Seidel sweep leaves x unchanged exactly when A·x = b |
| `Iterative.GaussSeidelLoop` | RJ23001UNO/metodos.py:332-346 | the same stopping rule over the Gauss-Seidel iterates |
| `Iterative.GaussSeidel` | RJ23001UNO/metodos.py:328-346 | the same stopping rule and iteration count as Jacobi, over the Gauss-Seidel iterates |
| `Iterative.GaussSeidelDefaults` | RJ23001UNO/metodos.py:296 | with tol = 1e-7, max_iter = 100 and no x0: the k-th Gauss-Seidel iterate from the zero vector, 1 <= k <= 100, every earlier change at least 1e-7, and a change below 1e-7 at k when k < 100 |
| `Bisection.BracketWidth` | RJ23001UNO/metodos.py:382-393 | after k iterations the interval has width (b - a) / 2^k |
| `Bisection.NarrowInside` | RJ23001UNO/metodos.py:383-393 | the kept half lies within the interval before it and has the midpoint as one end |
| `Bisection.BracketInside` | RJ23001UNO/metodos.py:382-395 | starting from a <= b, every interval and every midpoint stays inside [a, b] |
| `Bisection.InclusiveKeepsSignChange` | RJ23001UNO/metodos.py:388-393 | with the test fa·fm <= 0, the ends of every interval keep f-values of opposite signs (or a zero) |
| `Bisection.KeepsLeftIsProductTest` | RJ23001UNO/metodos.py:388 | the sign conditions the model narrows by are exactly the tests fa·fm < 0 (as written) and fa·fm <= 0 (inclusive) |
| `Bisection.AsWrittenLosesSignChange` | RJ23001UNO/metodos.py:377-393 | with the source's test fa·fm < 0, f(x) = x on [0, 2] with tol = 1/2 passes the entry test and then goes to [1, 2], which has no sign change |
| `Bisection.Halve` | RJ23001UNO/metodos.py:388-393 | the new interval is the half the rule selects (the spec function Narrow), and the cached fa and fb remain f at its ends |
| `Bisection.Advance` | RJ23001UNO/metodos.py:385-393 | when the i-th midpoint misses tol, the new ends are those of the (i+1)-th interval, fa and fb stay f at them, and the first i+1 midpoints all missed |
| `Bisection.Iterate` | RJ23001UNO/metodos.py:382-395 | for max_iter >= 1: returns (m, i+1) for the first midpoint m with \|f(m)\| < tol, else the last midpoint with max_iter; the root is in [a, b] when a <= b |
| `Bisection.Bisect` | RJ23001UNO/metodos.py:377-395 | NoSignChange exactly when f(a)·f(b) > 0. Otherwise it returns (m, i+1) for the first midpoint with \|f(m)\| < tol, else the last midpoint with max_iter; with max_iter <= 0 it returns (a+b)/2 and max_iter. With a <= b the result lies in [a, b] |
| `Bisection.Biseccion` | RJ23001UNO/metodos.py:349-395 | the source's bisection: the contract of Bisect with the source's narrowing test |
| `Bisection.BiseccionDefaults` | RJ23001UNO/metodos.py:349 | the contract of Biseccion with tol = 1e-7 and max_iter = 100: NoSignChange exactly when f(a)·f(b) > 0, else the first midpoint with \|f(m)\| < 1e-7 and its iteration number, or the last midpoint and 100; inside [a, b] when a <= b |
| `Bisection.BisectionKeepingSign` | RJ23001UNO/metodos.py:377-395 | with the corrected test fa·fm <= 0: the contract of Bisect, and the returned point is the midpoint of the k-th interval, of width (b - a) / 2^k, whose ends have f-values of opposite signs (or a zero); k is 0 with max_iter <= 0, the iteration count minus 1 when that midpoint met tol, and max_iter otherwise |

## Left out

- Floating point. Every number is an exact `real`, and the `tol` comparisons are exact. No IEEE rounding, overflow or NaN is modelled. `1e-7` is the exact rational 1/10^7.
- Convergence of `jacobi`, `gauss_seidel` and `biseccion` is not proved. It would need spectral-radius or intermediate-value arguments that the code never states. What is proved:
  - which iterate is returned, and with which count;
  - what each sweep computes;
  - the fixed points of a sweep are exactly the solutions of A·x = b;
  - the invariants of the bisection interval.
- `Cramer.Cramer`: that the returned x solves A·x = b is proved only for two unknowns (`Cramer.CramerSolvesTwo`). The general case needs the adjugate identity for the cofactor determinant, which is not developed here.
- Division by zero that the source does not guard becomes a precondition, not an error path:
  - line 221 / 237: every leading block of A is nonsingular;
  - lines 286 and 340: every A[i][i] is nonzero.
- `max` over an empty range (lines 289 and 343) is likewise a precondition: n >= 1 whenever max_iter > 0.
- Ragged or mis-sized arguments are excluded by preconditions: A must be n-by-n, |b| = n, and a given x0 must have n entries.
- The function passed to `biseccion` is a total `real -> real`. A Python callable that raises, or returns a non-number, is outside the model.
- The messages of the `ValueError`s are not modelled, only which error is raised.
- `setup.py`, `RJ23001UNO/__init__.py` and `tests/test_metodos.py` are not part of this model: they hold packaging, re-exports and the test harness.

## Findings

| source | as written | input that shows it | evidently intended | confidence | as-written member | corrected member |
|---|---|---|---|---|---|---|
| RJ23001UNO/metodos.py:388-393 | `if fa * fm < 0: b = m else: a = m`. When f(a) == 0 the product is 0, so the left end moves to m and the root at a is dropped | f(x) = x, a = 0, b = 2, tol = 0.5: the entry test passes (0·2 is not > 0), f(1) = 1 misses tol, and the next interval is [1, 2], where f(1)·f(2) = 2 > 0 | keep the left half when fa·fm <= 0, so the interval always brackets a sign change | medium; not executed | `Bisection.AsWrittenLosesSignChange` | `Bisection.InclusiveKeepsSignChange` |
