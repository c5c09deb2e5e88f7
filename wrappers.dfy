/** Option, used for the JavaScript `undefined` of optional fields and for
    operations that the JavaScript runtime would abort with a TypeError. */
module Wrappers {

  datatype Option<+T> = None | Some(value: T) {

    /** The value, or `default` when there is none (JavaScript `x ?? default`). */
    function GetOr(default: T): T
    {
      match this
      case Some(v) => v
      case None => default
    }
  }
}
