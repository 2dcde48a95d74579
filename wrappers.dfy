/**
 * Optional values (a JavaScript `null` or `undefined` is `None`) and the
 * outcome of a call that may throw.
 */
module Wrappers {

  datatype Option<+T> = None | Some(value: T) {

    /** The value, or `default` when absent (JavaScript's `x ?? default`). */
    function GetOr(default: T): T
    {
      match this
      case Some(v) => v
      case None => default
    }
  }

  /** What a call that may raise an exception gives: its result, or the exception escaping it. */
  datatype Outcome<+T> = Returned(result: T) | Threw
}
