/** Failure-compatible wrappers used across the model. */
module Wrappers {

  /** A value that may be absent (a Go nil pointer or a missing optional result). */
  datatype Option<+T> = None | Some(value: T) {
    function GetOr(default: T): T {
      match this
      case Some(v) => v
      case None => default
    }
  }

  /** A Go `(value, error)` pair: either a value or an error message. */
  datatype Result<+R> = Success(value: R) | Failure(error: string)
}
