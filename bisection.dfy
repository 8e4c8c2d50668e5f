/**
 * Bisection (biseccion) over a caller-supplied function f: real -> real. After the entry test
 * f(a) * f(b) > 0, each iteration evaluates f at the midpoint, returns it as soon as |f(m)| is
 * below tol, and otherwise keeps one half of the interval. The endpoint values are cached in
 * fa and fb, as the source does; the loop proves they stay equal to f at the endpoints.
 *
 * Which half is kept is decided by a NarrowRule: AsWritten is the test of the source,
 * fa * fm < 0 keeps the left half; Inclusive keeps the left half also when fa * fm == 0.
 * Only the second keeps the interval bracketing a sign change (see AsWrittenLosesSignChange).
 */
module Bisection {
  import opened Results
  import opened Matrices

  /** The defaults of tol and max_iter (line 349). */
  const DefaultTol: real := 0.0000001
  const DefaultMaxIter: int := 100

  datatype NarrowRule = AsWritten | Inclusive

  /** The working interval [lo, hi] (the source's a and b after some iterations). */
  datatype Bracket = Bracket(lo: real, hi: real)

  /** The value a call returns: the root estimate and the iterations used. */
  datatype Estimate = Estimate(root: real, iterations: int)

  function Mid(br: Bracket): real {
    (br.lo + br.hi) / 2.0
  }

  function Pow2(k: nat): (p: real)
    ensures p >= 1.0
  {
    if k == 0 then 1.0 else 2.0 * Pow2(k - 1)
  }

  /** f-values of opposite signs, or a zero among them: fa * fb <= 0 (KeepsLeftIsProductTest). */
  predicate SignChange(x: real, y: real) {
    (x <= 0.0 && y >= 0.0) || (x >= 0.0 && y <= 0.0)
  }

  /** Whether the left half [lo, m] is kept, given fa = f(lo) and fm = f(m): the source's test
      fa * fm < 0, or fa * fm <= 0 for Inclusive, stated by signs (KeepsLeftIsProductTest). */
  predicate KeepsLeft(rule: NarrowRule, fa: real, fm: real) {
    match rule
    case AsWritten => (fa < 0.0 && fm > 0.0) || (fa > 0.0 && fm < 0.0)
    case Inclusive => SignChange(fa, fm)
  }

  /** The sign tests are the product test of line 388 (AsWritten) and its inclusive correction. */
  lemma KeepsLeftIsProductTest(fa: real, fm: real)
    ensures KeepsLeft(AsWritten, fa, fm) <==> fa * fm < 0.0
    ensures KeepsLeft(Inclusive, fa, fm) <==> fa * fm <= 0.0
  {
    if fa > 0.0 && fm > 0.0 {
      assert fa * fm > 0.0;
    } else if fa < 0.0 && fm < 0.0 {
      assert fa * fm > 0.0;
    } else if fa > 0.0 && fm < 0.0 {
      assert fa * fm < 0.0;
    } else if fa < 0.0 && fm > 0.0 {
      assert fa * fm < 0.0;
    }
  }

  /** One iteration past the convergence test (lines 383-384 and 388-393). */
  function Narrow(f: real -> real, br: Bracket, rule: NarrowRule): Bracket {
    var m := Mid(br);
    if KeepsLeft(rule, f(br.lo), f(m)) then Bracket(br.lo, m) else Bracket(m, br.hi)
  }

  /** The interval after k iterations none of which converged. */
  function Brackets(f: real -> real, a: real, b: real, rule: NarrowRule, k: nat): Bracket {
    if k == 0 then Bracket(a, b) else Narrow(f, Brackets(f, a, b, rule, k - 1), rule)
  }

  /** f at the midpoint of the interval after j iterations: the fm of iteration j. */
  function MidValue(f: real -> real, a: real, b: real, rule: NarrowRule, j: nat): real {
    f(Mid(Brackets(f, a, b, rule, j)))
  }

  /** The midpoints of the first k intervals all miss the tolerance. */
  predicate NoneConverged(f: real -> real, a: real, b: real, rule: NarrowRule, tol: real, k: nat) {
    forall j :: 0 <= j < k ==> Abs(MidValue(f, a, b, rule, j)) >= tol
  }

  // ---------------------------------------------------------------- the intervals

  /** Each iteration halves the interval: after k of them its width is (b - a) / 2^k. */
  lemma {:induction false} BracketWidth(f: real -> real, a: real, b: real, rule: NarrowRule, k: nat)
    ensures Brackets(f, a, b, rule, k).hi - Brackets(f, a, b, rule, k).lo == (b - a) / Pow2(k)
  {
    if k > 0 {
      BracketWidth(f, a, b, rule, k - 1);
      var br := Brackets(f, a, b, rule, k - 1);
      var w := (b - a) / Pow2(k - 1);
      assert br.hi - br.lo == w;
      assert Mid(br) - br.lo == w / 2.0 && br.hi - Mid(br) == w / 2.0;
      HalfQuotient(b - a, Pow2(k - 1));
    }
  }

  lemma HalfQuotient(x: real, p: real)
    requires p >= 1.0
    ensures (x / p) / 2.0 == x / (2.0 * p)
  {
  }

  /** Each interval lies within the one before it. */
  lemma NarrowInside(f: real -> real, br: Bracket, rule: NarrowRule)
    requires br.lo <= br.hi
    ensures br.lo <= Narrow(f, br, rule).lo <= Mid(br) <= Narrow(f, br, rule).hi <= br.hi
  {
  }

  /** Starting from a <= b, every interval and every midpoint stays within [a, b]. */
  lemma {:induction false} BracketInside(f: real -> real, a: real, b: real, rule: NarrowRule, k: nat)
    requires a <= b
    ensures a <= Brackets(f, a, b, rule, k).lo <= Mid(Brackets(f, a, b, rule, k))
    ensures Mid(Brackets(f, a, b, rule, k)) <= Brackets(f, a, b, rule, k).hi <= b
  {
    if k > 0 {
      BracketInside(f, a, b, rule, k - 1);
      NarrowInside(f, Brackets(f, a, b, rule, k - 1), rule);
    }
  }

  /** One inclusive narrowing keeps a sign change at the ends of the interval. */
  lemma NarrowKeepsSignChange(f: real -> real, br: Bracket)
    requires SignChange(f(br.lo), f(br.hi))
    ensures SignChange(f(Narrow(f, br, Inclusive).lo), f(Narrow(f, br, Inclusive).hi))
  {
  }

  /** With the inclusive test, every interval has a sign change at its ends when the first one
      does. */
  lemma {:induction false} InclusiveKeepsSignChange(f: real -> real, a: real, b: real, k: nat)
    requires SignChange(f(a), f(b))
    ensures SignChange(f(Brackets(f, a, b, Inclusive, k).lo), f(Brackets(f, a, b, Inclusive, k).hi))
  {
    if k > 0 {
      var br := Brackets(f, a, b, Inclusive, k - 1);
      InclusiveKeepsSignChange(f, a, b, k - 1);
      NarrowKeepsSignChange(f, br);
    }
  }

  /** The identity function, whose root 0 sits at the left end of [0, 2]. */
  function IdFun(x: real): real { x }

  /** The source's test fa * fm < 0 moves the left end to the midpoint when f(a) == 0, so the
      interval stops bracketing a sign change: f(x) = x on [0, 2] passes the entry test
      (0 * 2 is not > 0), f(1) = 1 misses tol = 1/2, and [1, 2] follows, where f(1) * f(2) > 0. */
  lemma AsWrittenLosesSignChange()
    ensures var f := IdFun;
      !(f(0.0) * f(2.0) > 0.0) &&
      Abs(f(Mid(Brackets(f, 0.0, 2.0, AsWritten, 0)))) >= 0.5 &&
      Brackets(f, 0.0, 2.0, AsWritten, 1) == Bracket(1.0, 2.0) &&
      f(Brackets(f, 0.0, 2.0, AsWritten, 1).lo) * f(Brackets(f, 0.0, 2.0, AsWritten, 1).hi) > 0.0
  {
    var f := IdFun;
    assert Brackets(f, 0.0, 2.0, AsWritten, 0) == Bracket(0.0, 2.0);
    assert Mid(Bracket(0.0, 2.0)) == 1.0;
  }

  // ---------------------------------------------------------------- the method

  /** A midpoint that misses the tolerance extends NoneConverged by one step. */
  lemma NextBracket(f: real -> real, a: real, b: real, rule: NarrowRule, tol: real, i: nat)
    requires NoneConverged(f, a, b, rule, tol, i)
    requires Abs(f(Mid(Brackets(f, a, b, rule, i)))) >= tol
    ensures NoneConverged(f, a, b, rule, tol, i + 1)
    ensures Brackets(f, a, b, rule, i + 1) == Narrow(f, Brackets(f, a, b, rule, i), rule)
  {
  }

  /** What the loop of lines 382-395 returns for maxIter >= 1: the first midpoint m with
      |f(m)| < tol and its iteration number, or, when none of the first maxIter midpoints
      qualifies, the midpoint of the last interval and maxIter; inside [a, b] when a <= b. */
  predicate Outcome(f: real -> real, a: real, b: real, tol: real, maxIter: int, rule: NarrowRule, e: Estimate) {
    1 <= e.iterations <= maxIter &&
    (var it := e.iterations;
     var m := Mid(Brackets(f, a, b, rule, it - 1));
     (e.root == m && Abs(f(m)) < tol && NoneConverged(f, a, b, rule, tol, it - 1)) ||
     (it == maxIter && e.root == Mid(Brackets(f, a, b, rule, maxIter)) &&
      NoneConverged(f, a, b, rule, tol, maxIter))) &&
    (a <= b ==> a <= e.root <= b)
  }

  /** Returning the i-th midpoint because it met tol is the first kind of outcome. */
  lemma ConvergedOutcome(f: real -> real, a: real, b: real, tol: real, maxIter: int,
                         rule: NarrowRule, i: nat)
    requires i < maxIter && NoneConverged(f, a, b, rule, tol, i)
    requires Abs(MidValue(f, a, b, rule, i)) < tol
    ensures Outcome(f, a, b, tol, maxIter, rule, Estimate(Mid(Brackets(f, a, b, rule, i)), i + 1))
  {
    if a <= b {
      BracketInside(f, a, b, rule, i);
    }
  }

  /** Returning the midpoint of the last interval after maxIter misses is the second kind. */
  lemma ExhaustedOutcome(f: real -> real, a: real, b: real, tol: real, maxIter: nat, rule: NarrowRule)
    requires maxIter >= 1 && NoneConverged(f, a, b, rule, tol, maxIter)
    ensures Outcome(f, a, b, tol, maxIter, rule, Estimate(Mid(Brackets(f, a, b, rule, maxIter)), maxIter))
  {
    if a <= b {
      BracketInside(f, a, b, rule, maxIter);
    }
  }

  /** Lines 388-393: keep the half the rule selects, moving one end to the midpoint m and its
      cached f-value to fm. */
  method Halve(f: real -> real, lo: real, hi: real, fa: real, fb: real, m: real, fm: real,
               rule: NarrowRule) returns (lo': real, hi': real, fa': real, fb': real)
    requires fa == f(lo) && fb == f(hi) && m == (lo + hi) / 2.0 && fm == f(m)
    ensures Bracket(lo', hi') == Narrow(f, Bracket(lo, hi), rule)
    ensures fa' == f(lo') && fb' == f(hi')
  {
    if KeepsLeft(rule, fa, fm) {
      lo', hi', fa', fb' := lo, m, fa, fm;
    } else {
      lo', hi', fa', fb' := m, hi, fm, fb;
    }
  }

  /** One pass of the loop body when the i-th midpoint misses tol: the next interval, with its
      cached f-values, and one more midpoint known to miss. */
  method Advance(f: real -> real, a: real, b: real, rule: NarrowRule, tol: real, i: nat,
                 lo: real, hi: real, fa: real, fb: real, m: real, fm: real)
    returns (lo': real, hi': real, fa': real, fb': real)
    requires Bracket(lo, hi) == Brackets(f, a, b, rule, i) && fa == f(lo) && fb == f(hi)
    requires m == (lo + hi) / 2.0 && fm == f(m) && Abs(fm) >= tol
    requires NoneConverged(f, a, b, rule, tol, i)
    ensures Bracket(lo', hi') == Brackets(f, a, b, rule, i + 1) && fa' == f(lo') && fb' == f(hi')
    ensures NoneConverged(f, a, b, rule, tol, i + 1)
  {
    NextBracket(f, a, b, rule, tol, i);
    lo', hi', fa', fb' := Halve(f, lo, hi, fa, fb, m, fm, rule);
  }

  /** The loop of lines 382-395 for maxIter >= 1, given fa = f(a) and fb = f(b): the first
      midpoint m with |f(m)| < tol and its iteration number, or, when none of the first maxIter
      midpoints qualifies, the midpoint of the last interval and maxIter. */
  method Iterate(f: real -> real, a: real, b: real, fa0: real, fb0: real, tol: real, maxIter: int,
                 rule: NarrowRule) returns (e: Estimate)
    requires fa0 == f(a) && fb0 == f(b) && maxIter >= 1
    ensures Outcome(f, a, b, tol, maxIter, rule, e)
  {
    var lo, hi, fa, fb := a, b, fa0, fb0;
    var i := 0;
    while i < maxIter
      invariant 0 <= i <= maxIter
      invariant Bracket(lo, hi) == Brackets(f, a, b, rule, i)
      invariant fa == f(lo) && fb == f(hi)
      invariant NoneConverged(f, a, b, rule, tol, i)
    {
      var m := (lo + hi) / 2.0;
      var fm := f(m);
      if Abs(fm) < tol {
        ConvergedOutcome(f, a, b, tol, maxIter, rule, i);
        return Estimate(m, i + 1);
      }
      lo, hi, fa, fb := Advance(f, a, b, rule, tol, i, lo, hi, fa, fb, m, fm);
      i := i + 1;
    }
    ExhaustedOutcome(f, a, b, tol, maxIter, rule);
    return Estimate((lo + hi) / 2.0, maxIter);
  }

  /** biseccion with the given narrowing rule (AsWritten is the source's). It fails with
      NoSignChange exactly when f(a) * f(b) > 0; otherwise it runs the loop, which with
      maxIter <= 0 returns (a + b) / 2 and maxIter at once. */
  method Bisect(f: real -> real, a: real, b: real, tol: real, maxIter: int, rule: NarrowRule)
    returns (res: Result<Estimate>)
    ensures res.Err? <==> f(a) * f(b) > 0.0
    ensures res.Err? ==> res.error == NoSignChange
    ensures res.Ok? && maxIter <= 0 ==> res.value == Estimate((a + b) / 2.0, maxIter)
    ensures res.Ok? && maxIter > 0 ==> Outcome(f, a, b, tol, maxIter, rule, res.value)
    ensures res.Ok? && a <= b ==> a <= res.value.root <= b
  {
    var fa := f(a);
    var fb := f(b);
    if fa * fb > 0.0 {
      return Err(NoSignChange);
    }
    if maxIter <= 0 {
      return Ok(Estimate((a + b) / 2.0, maxIter));
    }
    var e := Iterate(f, a, b, fa, fb, tol, maxIter, rule);
    return Ok(e);
  }

  /** biseccion as written (lines 377-395): Bisect with the source's test. */
  method Biseccion(f: real -> real, a: real, b: real, tol: real, maxIter: int) returns (res: Result<Estimate>)
    ensures res.Err? <==> f(a) * f(b) > 0.0
    ensures res.Err? ==> res.error == NoSignChange
    ensures res.Ok? && maxIter <= 0 ==> res.value == Estimate((a + b) / 2.0, maxIter)
    ensures res.Ok? && maxIter > 0 ==> Outcome(f, a, b, tol, maxIter, AsWritten, res.value)
    ensures res.Ok? && a <= b ==> a <= res.value.root <= b
  {
    res := Bisect(f, a, b, tol, maxIter, AsWritten);
  }

  /** biseccion called with its defaults tol = 1e-7 and max_iter = 100 (line 349). */
  method BiseccionDefaults(f: real -> real, a: real, b: real) returns (res: Result<Estimate>)
    ensures res.Err? <==> f(a) * f(b) > 0.0
    ensures res.Err? ==> res.error == NoSignChange
    ensures res.Ok? ==> Outcome(f, a, b, DefaultTol, DefaultMaxIter, AsWritten, res.value)
  {
    res := Biseccion(f, a, b, DefaultTol, DefaultMaxIter);
  }

  /** x is the midpoint of the k-th interval of the inclusive rule, which has width
      (b - a) / 2^k and f-values of opposite signs (or a zero) at its ends. */
  predicate SignChangeAround(f: real -> real, a: real, b: real, x: real, k: nat) {
    var br := Brackets(f, a, b, Inclusive, k);
    x == Mid(br) && br.hi - br.lo == (b - a) / Pow2(k) && SignChange(f(br.lo), f(br.hi))
  }

  /** Bisection with the inclusive test: the same results as Bisect, and besides, the returned
      point is the midpoint of the k-th interval, which has width (b - a) / 2^k and f-values of
      opposite signs (or a zero) at its ends. k is 0 when no iteration runs, the number of
      halvings before the midpoint that met tol when one did, and maxIter otherwise. */
  method BisectionKeepingSign(f: real -> real, a: real, b: real, tol: real, maxIter: int)
    returns (res: Result<Estimate>)
    ensures res.Err? <==> f(a) * f(b) > 0.0
    ensures res.Err? ==> res.error == NoSignChange
    ensures res.Ok? && maxIter <= 0 ==>
      res.value == Estimate((a + b) / 2.0, maxIter) && SignChangeAround(f, a, b, res.value.root, 0)
    ensures res.Ok? && maxIter > 0 ==>
      Outcome(f, a, b, tol, maxIter, Inclusive, res.value) &&
      var it := res.value.iterations;
      var k := if Abs(MidValue(f, a, b, Inclusive, it - 1)) < tol then it - 1 else maxIter;
      SignChangeAround(f, a, b, res.value.root, k)
    ensures res.Ok? && a <= b ==> a <= res.value.root <= b
  {
    res := Bisect(f, a, b, tol, maxIter, Inclusive);
    if res.Ok? {
      var k: nat := 0;
      if maxIter > 0 {
        var it := res.value.iterations;
        var m := Mid(Brackets(f, a, b, Inclusive, it - 1));
        if res.value.root == m && Abs(f(m)) < tol {
          k := it - 1;
        } else {
          assert Abs(MidValue(f, a, b, Inclusive, it - 1)) >= tol;
          k := maxIter;
        }
      }
      assert res.value.root == Mid(Brackets(f, a, b, Inclusive, k));
      BracketWidth(f, a, b, Inclusive, k);
      KeepsLeftIsProductTest(f(a), f(b));
      InclusiveKeepsSignChange(f, a, b, k);
      assert SignChangeAround(f, a, b, res.value.root, k);
    }
  }
}
