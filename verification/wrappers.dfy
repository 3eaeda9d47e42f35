/** The optional-value datatype shared by the model. `None` is a missing
    value: `null` for the command's option, which the platform returns when
    it was not given, and `undefined` for an absent field of the result
    record. */
module Wrappers {

  datatype Option<+T> = None | Some(value: T) {

    /** Returns the value in `Some`, or `default` for `None`. */
    function GetOr(default: T): T
    {
      match this
      case Some(v) => v
      case None => default
    }
  }
}
