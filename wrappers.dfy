/** Optional values and error-carrying results shared by every module of the model. */
module Wrappers {

  /** A value that may be absent: Java's null or Optional.empty(), JavaScript's null or undefined. */
  datatype Option<+T> = None | Some(value: T) {

    /** The value, or `default` when absent. */
    function GetOr(default: T): T {
      match this
      case Some(v) => v
      case None => default
    }
  }

  /** The outcome of an operation that may throw: a value, or the exception it raised. */
  datatype Result<+T, +E> = Ok(value: T) | Err(error: E)
}
