/** The optional-value datatype used throughout the model. `None` plays the
    part of JavaScript's `null`/`undefined`/`-1` "nothing here" results. */
module Wrappers {

  datatype Option<+T> = None | Some(value: T) {

    /** Returns the value in `Some`, or `default` for `None`. */
    function GetOr(default: T): T {
      match this
      case Some(v) => v
      case None => default
    }
  }
}
