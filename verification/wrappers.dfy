/** The optional type shared by the model. */
module Wrappers {

  /** An optional value: the model's counterpart of a JavaScript `T | null`. */
  datatype Option<+T> = None | Some(value: T) {

    /** Returns the wrapped value, or `default` when there is none. */
    function GetOr(default: T): T {
      match this
      case Some(v) => v
      case None => default
    }
  }
}
