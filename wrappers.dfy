/** The optional value used wherever the PHP code reads a key that may be absent
    or returns `false` instead of an array. */
module Wrappers {

  datatype Option<+T> = None | Some(value: T) {

    /** The value, or `default` when absent (PHP's `?:` / `isset` fallbacks). */
    function GetOr(default: T): T {
      match this
      case Some(v) => v
      case None => default
    }
  }
}
