/** The Option datatype: Ruby's `nil` (a missing record, a missing argument,
    an SQL NULL) is `None`. */
module Wrappers {

  datatype Option<+T> = None | Some(value: T) {

    /** Ruby's `x || default` on a value that may be nil. */
    function GetOr(default: T): T {
      match this
      case Some(v) => v
      case None => default
    }
  }
}
