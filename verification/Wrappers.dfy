/** Failure-compatible values shared by every other module. */
module Wrappers {

  datatype Option<+T> = None | Some(value: T)

  /** Stands for the `Result` of the program; works with Dafny's `:-`. */
  datatype Result<+T, +E> = Success(value: T) | Failure(error: E) {
    predicate IsFailure() {
      Failure?
    }

    function PropagateFailure<U>(): Result<U, E>
      requires Failure?
    {
      Failure(error)
    }

    function Extract(): T
      requires Success?
    {
      value
    }
  }
}
