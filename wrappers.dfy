/** Optional values (TypeScript's `T | undefined`) and results of a computation that may throw. */
module Wrappers {

  /** `None` is JavaScript's `undefined`. */
  datatype Option<+T> = None | Some(value: T) {

    /** The `??` operator: the value if present, otherwise `default`. */
    function GetOr(default: T): T {
      match this
      case Some(v) => v
      case None => default
    }
  }

  /** The outcome of an async function: the value it resolves to, or the error it rejects with. */
  datatype Result<+T, +E> = Success(value: T) | Failure(error: E)
}
