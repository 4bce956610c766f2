/** Optional values, error-carrying results and pass/fail outcomes, as Go returns them. */
module Results {

  /** An optional value; `None` stands for a Go nil pointer. */
  datatype Option<+T> = None | Some(value: T)

  /** A value or an error, usable with `:-`. */
  datatype Result<+T, +E> = Success(value: T) | Failure(error: E) {

    predicate IsFailure() {
      Failure?
    }

    function PropagateFailure<U>(): Result<U, E>
      requires Failure?
    {
      Failure(error)
    }

    function Extract(): T
      requires Success?
    {
      value
    }
  }

  /** The result of a Go function that returns only an `error`. */
  datatype Outcome<+E> = Pass | Fail(error: E)
}
