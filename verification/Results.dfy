/** Failure-compatible results: an entrypoint either aborts with an error or yields a value. */
module Results {

  datatype Option<+T> = None | Some(value: T)

  datatype Result<+R, +E> = Success(value: R) | Failure(error: E) {
    predicate IsFailure() {
      Failure?
    }

    function PropagateFailure<U>(): Result<U, E>
      requires Failure?
    {
      Failure(error)
    }

    function Extract(): R
      requires Success?
    {
      value
    }
  }

  /** A guard: either it holds, or the call aborts with `error`. */
  datatype Guard<+E> = Holds | Aborts(error: E) {
    predicate IsFailure() {
      Aborts?
    }

    function PropagateFailure<U>(): Result<U, E>
      requires Aborts?
    {
      Failure(error)
    }
  }

  function Need<E>(condition: bool, error: E): Guard<E> {
    if condition then Holds else Aborts(error)
  }
}
