/** Failure-compatible wrappers: Python's `None`, exceptions and error returns
    are modelled as values of these types. */
module Wrappers {

  /** A value that may be absent (Python's `Optional[T]`). */
  datatype Option<+T> = None | Some(value: T) {
    /** The value, or `default` when absent. */
    function GetOr(default: T): T {
      match this
      case Some(v) => v
      case None => default
    }
  }

  /** A computation that either produced a value or raised an error. */
  datatype Result<+R, +E> = Success(value: R) | Failure(error: E)

  /** A computation that either completed or raised an error. */
  datatype Outcome<+E> = Pass | Fail(error: E)
}
