/** The optional value used for nullable columns, absent rows and JavaScript's `undefined`. */
module Wrappers {

  datatype Option<+T> = None | Some(value: T) {

    /** The contained value, or `default` when absent (JavaScript's `??`). */
    function GetOr(default: T): T
    {
      match this
      case Some(v) => v
      case None => default
    }
  }
}
