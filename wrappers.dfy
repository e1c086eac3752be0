/** Optional values, standing for Python's `None`. */
module Wrappers {

  datatype Option<+T> = None | Some(value: T) {

    /** `x or default` for an optional value. */
    function GetOr(default: T): T {
      match this
      case Some(v) => v
      case None => default
    }
  }
}
