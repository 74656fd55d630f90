/** Optional values and success/failure results, used in place of C's NULL
    values and `0 / -1` return codes. */
module Wrappers {

  datatype Option<T> = None | Some(value: T) {
    /** The value, or `default` when absent (C's `p ? p : default`). */
    function GetOr(default: T): T {
      if Some? then value else default
    }
  }

  /** A value or an error. */
  datatype Result<T, E> = Success(value: T) | Failure(error: E)

  /** Success without a value, or an error (a C function returning 0 or -1). */
  datatype Outcome<E> = Pass | Fail(error: E)
}
