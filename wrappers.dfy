/** Optional values: a JavaScript field that may be absent, or a number that may be NaN. */
module Wrappers {

  datatype Option<+T> = None | Some(value: T) {

    /** The `x || fallback` idiom for a value that is either present or absent. */
    function GetOr(fallback: T): T {
      match this
      case Some(v) => v
      case None => fallback
    }
  }
}
