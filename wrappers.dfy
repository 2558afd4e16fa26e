/** Optional values: an attribute or a response field that may be absent. */
module Wrappers {

  datatype Option<+T> = None | Some(value: T) {

    /** The value, or `default` when absent. */
    function GetOr(default: T): T {
      match this
      case Some(v) => v
      case None => default
    }
  }

  /** Outcome of a store call that may throw. */
  datatype Answer<+T> = Answered(value: T) | Threw
}
