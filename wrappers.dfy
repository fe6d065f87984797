/** The optional-value datatype used for JavaScript values that may be absent. */
module Wrappers {

  datatype Option<+T> = None | Some(value: T) {

    /** The value, or `default` when there is none. This is JavaScript's "or" fallback for
        a value whose only falsy form is absence, or the default itself. */
    function GetOr(default: T): T {
      match this
      case Some(v) => v
      case None => default
    }
  }
}
