/** Failure-compatible wrappers used across the model: an optional value (the
    source's `T | undefined`) and a result that carries either a value or the
    error a thrown exception would have raised. */
module Wrappers {

  datatype Option<+T> = None | Some(value: T) {

    /** Returns the value held in Some, or the default for None. */
    function GetOr(default: T): T {
      match this
      case Some(v) => v
      case None => default
    }
  }

  datatype Result<+T, +E> = Success(value: T) | Failure(error: E)
}
