/** Optional values, used for the browser queries that may yield nothing
    (a missing attribute, an element id with no element, a numeral that does
    not parse, a measurement call that throws). */
module Wrappers {

  datatype Option<+T> = None | Some(value: T) {

    /** The wrapped value, or `default` when there is none. */
    function GetOr(default: T): T {
      match this
      case Some(v) => v
      case None => default
    }
  }
}
