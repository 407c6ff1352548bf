/** Optional values and results with an error, as used throughout the model. */
module Wrappers {

  /** A value that may be absent: `None` stands for a missing dictionary key
      or a JSON `null`. */
  datatype Option<+T> = None | Some(value: T) {

    /** The value, or `default` when absent (Python's `dict.get(key, default)`). */
    function GetOr(default: T): T {
      match this
      case Some(v) => v
      case None => default
    }
  }

  /** The outcome of an operation that can raise an exception. */
  datatype Result<+R, +E> = Success(value: R) | Failure(error: E)
}
