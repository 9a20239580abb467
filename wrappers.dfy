/** An optional value: an absent cookie, a row a query did not find, a foreign call that failed. */
module Wrappers {

  datatype Option<+T> = None | Some(value: T) {

    /** The value, or `default` when there is none (Go's "ignore the error, keep the zero value"). */
    function GetOr(default: T): T {
      match this
      case Some(v) => v
      case None => default
    }
  }
}
