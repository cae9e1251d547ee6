/** Optional values and results with an error, as used across the model. */
module Wrappers {

  /** A value that may be missing (Python's `None`); usable with `:-`. */
  datatype Option<+T> = None | Some(value: T) {
    predicate IsFailure() { None? }

    function PropagateFailure<U>(): Option<U>
      requires None?
    {
      None
    }

    function Extract(): T
      requires Some?
    {
      value
    }
  }

  /** The outcome of an operation that can raise. */
  datatype Result<+T, +E> = Success(value: T) | Failure(error: E)
}
