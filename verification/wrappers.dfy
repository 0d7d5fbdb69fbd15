/** Optional values and fallible results, the shapes every component below returns. */
module Wrappers {

  /** A value that may be absent: JavaScript's `undefined`/`null` where the source tests for it. */
  datatype Option<+T> = None | Some(value: T) {

    /** The value, or `default` when there is none: JavaScript's `x ?? default`. */
    function GetOr(default: T): T
    {
      match this
      case Some(v) => v
      case None => default
    }
  }

  /** The outcome of a call that either succeeds with a value or throws an error. */
  datatype Result<+T, +E> = Ok(value: T) | Err(error: E)
}
