/** Optional values and success-or-error results shared by every module. */
module Wrappers {

  /** A value that may be absent (Python `None`, C# `null`, JavaScript `undefined`). */
  datatype Option<T> = None | Some(value: T) {
    function GetOr(default: T): T {
      match this
      case Some(v) => v
      case None => default
    }
  }

  /** The outcome of an operation that either produces a value or fails with an error. */
  datatype Result<T, E> = Success(value: T) | Failure(error: E)

  /** The outcome of an operation that produces nothing but may fail. */
  datatype Outcome<E> = Pass | Fail(error: E)
}
