/** The optional value used wherever the source has `undefined` or `null`. */
module Wrappers {

  datatype Option<+T> = None | Some(value: T) {

    /** `x ?? d`: the value, or the default when there is none */
    function GetOr(default: T): T {
      match this
      case Some(v) => v
      case None => default
    }
  }
}
