/** Optional values and results with an error message, shared by every module. */
module Wrappers {

  /** A value that may be absent: `null`/`undefined` in the modelled code. */
  datatype Option<+T> = None | Some(value: T) {
    function GetOr(default: T): T {
      match this
      case Some(v) => v
      case None => default
    }
  }

  /** The outcome of an operation that may throw: a value, or the error thrown. */
  datatype Result<+T, +E> = Ok(value: T) | Err(error: E)
}
