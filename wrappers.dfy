/** Optional values and results with an error, used for PHP's `null` and exceptions. */
module Wrappers {

  /** A value that may be absent (PHP `null`, or a key that `isset` does not see). */
  datatype Option<+T> = None | Some(value: T) {
    function GetOr(default: T): T {
      match this
      case Some(v) => v
      case None => default
    }
  }

  /** The outcome of an operation that either returns a value or throws. */
  datatype Result<+T, +E> = Success(value: T) | Failure(error: E)
}
