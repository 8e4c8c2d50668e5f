/** The failures the solvers raise, and the value a call returns instead of raising. */
module Results {

  /** The three errors the library raises explicitly (each a ValueError in the source). */
  datatype Error =
    | ZeroPivot(step: nat)  // a diagonal entry reached as pivot at elimination step `step` is 0
    | SingularMatrix        // Cramer's rule met det(A) == 0
    | NoSignChange          // bisection was given an interval with f(a) * f(b) > 0

  datatype Result<T> = Ok(value: T) | Err(error: Error)

  /** An optional argument: None stands for Python's `None` default. */
  datatype Option<T> = None | Some(value: T)
}
