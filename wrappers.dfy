/** Optional values and results with an error, shared by every module of the model. */
module Wrappers {

  /** A value that may be missing: `undefined` or `null` on the JavaScript side. */
  datatype Option<+T> = None | Some(value: T) {
    /** The value, or `default` when missing (JavaScript's `x || default` for values that are never falsy). */
    function GetOr(default: T): T {
      match this
      case Some(v) => v
      case None => default
    }
  }

  /** Either a value or the error that stopped its computation. */
  datatype Result<+R, +E> = Success(value: R) | Failure(error: E)
}
