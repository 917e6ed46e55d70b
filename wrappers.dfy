/** The optional-value type used for JavaScript's `null` / `undefined`. */
module Wrappers {

  datatype Option<T> = None | Some(value: T) {

    /** The `??` operator: the value when present, otherwise `default`. */
    function GetOr(default: T): T {
      match this
      case Some(v) => v
      case None => default
    }
  }
}
