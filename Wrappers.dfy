/** Failure-compatible wrappers used throughout the model. */
module Wrappers {

  /** A value that may be absent: JavaScript's `undefined` results become `None`. */
  datatype Option<+T> = None | Some(value: T) {
    function GetOr(default: T): T {
      match this
      case Some(v) => v
      case None => default
    }
  }

  /** The outcome of a call that either succeeds or throws an error. */
  datatype Outcome<+E> = Pass | Fail(error: E)
}
