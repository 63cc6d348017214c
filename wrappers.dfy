/** Optional values (Go pointers, TypeScript `?` fields) and error-or-value results
    (Go's `(T, error)` pairs). */
module Wrappers {

  datatype Option<+T> = None | Some(value: T) {

    /** The value, or `default` when absent (Go `if p != nil`, TypeScript `??`). */
    function GetOr(default: T): T {
      match this
      case Some(v) => v
      case None => default
    }
  }

  datatype Result<+T, +E> = Ok(value: T) | Err(error: E)
}
