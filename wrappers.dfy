/** The optional-value type used wherever the application returns None. */
module Wrappers {

  datatype Option<+T> = None | Some(value: T) {

    /** The wrapped value, or `default` for None (Python's `x or default` on a missing key). */
    function GetOr(default: T): T {
      match this
      case Some(v) => v
      case None => default
    }
  }
}
