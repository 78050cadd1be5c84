/** Optional values (Kotlin's nullable types) and the outcome of a call that may throw. */
module Wrappers {

  /** A value that may be absent: `T?` in Kotlin, `null` being `None`. */
  datatype Option<+T> = None | Some(value: T) {

    /** The value, or `default` when absent: Kotlin's `?:` operator. */
    function GetOr(default: T): (r: T) {
      match this
      case Some(v) => v
      case None => default
    }
  }

  /** The result of a `suspend` call that either returns or throws `error`. */
  datatype Outcome<+E> = Pass | Fail(error: E)
}
