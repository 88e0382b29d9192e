/** Failure-compatible wrappers shared by the pipeline model.

    - Option<T> stands for a JavaScript value that may be absent (`null` or
      `undefined` at the source).
    - Result<T, E> stands for a computation that either returns a value or
      throws the exception `E`; `:-` propagates the exception like an
      uncaught `throw` does.
 */
module Wrappers {

  datatype Option<+T> = None | Some(value: T)

  datatype Result<+T, +E> = Success(value: T) | Failure(error: E) {

    predicate IsFailure() {
      Failure?
    }

    function PropagateFailure<U>(): Result<U, E>
      requires Failure?
    {
      Failure(error)
    }

    function Extract(): T
      requires Success?
    {
      value
    }
  }
}
