/** Option and Result, the nullable values and the thrown errors of the app. */
module Wrappers {

  /** A Kotlin nullable value: `null` is None. */
  datatype Option<T> = None | Some(value: T) {

    /** The Elvis operator `x ?: default`. */
    function GetOr(default: T): T {
      match this
      case Some(v) => v
      case None => default
    }
  }

  /** The outcome of an operation that may throw instead of returning. */
  datatype Result<T, E> = Success(value: T) | Failure(error: E)

  function Max(a: int, b: int): int {
    if a < b then b else a
  }
}
