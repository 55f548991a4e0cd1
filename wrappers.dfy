/** Optional values and success/failure results, standing in for Python's `None` and for exceptions. */
module Wrappers {

  datatype Option<+T> = None | Some(value: T) {
    function GetOr(default: T): T {
      match this
      case Some(v) => v
      case None => default
    }
  }

  /** `Failure(message)` is a raised exception carrying its message. */
  datatype Result<+R, +E> = Success(value: R) | Failure(error: E)
}
