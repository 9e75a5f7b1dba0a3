/** Shared wrapper types: a JavaScript value that may be `null`/`undefined` is an `Option`. */
module Base {

  datatype Option<+T> = None | Some(value: T) {

    /** The value, or `default` when there is none (JavaScript's `x || default` on objects). */
    function GetOr(default: T): T {
      match this
      case Some(v) => v
      case None => default
    }
  }
}
