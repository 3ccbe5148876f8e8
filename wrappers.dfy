/** The optional-value type used by the lookups and fallible calls of the model. */
module Wrappers {

  datatype Option<+T> = None | Some(value: T) {

    /** The value of a `Some`, or `default` for `None`. */
    function GetOr(default: T): T
    {
      match this
      case Some(v) => v
      case None => default
    }
  }
}
