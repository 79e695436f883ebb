/** Optional values and pass/fail outcomes, standing in for Ruby's nil and raised errors. */
module Wrappers {

  datatype Option<+T> = None | Some(value: T) {

    /** The wrapped value, or `default` when there is none (Ruby's `x || default`). */
    function GetOr(default: T): T {
      match this
      case Some(v) => v
      case None => default
    }
  }

  /** The result of an operation that either completes or raises `error`. */
  datatype Outcome<+E> = Pass | Fail(error: E)
}
