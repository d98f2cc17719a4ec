/** Optional values and success/failure results, standing in for Go's
    `(value, error)` pairs and nil-able pointers. */
module Wrappers {

  datatype Option<+T> = None | Some(value: T)

  /** Either the value an operation computed or the error it returned. */
  datatype Result<+T, +E> = Success(value: T) | Failure(error: E) {
    predicate IsFailure() {
      Failure?
    }

    function PropagateFailure<U>(): Result<U, E>
      requires Failure?
    {
      Failure(error)
    }

    function Extract(): T
      requires Success?
    {
      value
    }
  }
}
