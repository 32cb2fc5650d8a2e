/** Option and Result values used in place of Python's `None` and raised exceptions. */
module Wrappers {

  /** A value that may be absent (`None` in Python). */
  datatype Option<T> = None | Some(value: T) {

    /** The wrapped value, or `default` when absent. */
    function GetOr(default: T): T {
      match this
      case Some(v) => v
      case None => default
    }
  }

  /** The outcome of an operation that either produces a value or raises. */
  datatype Result<T, E> = Success(value: T) | Failure(error: E)
}
