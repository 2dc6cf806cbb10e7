/** The optional-value datatype used throughout the model: a JavaScript
    `null`/`undefined`, an SQL NULL, or a lookup that found nothing. */
module Wrappers {

  datatype Option<+T> = None | Some(value: T) {

    /** The held value, or `default` for None, as SQL's `COALESCE(x, default)`. */
    function GetOr(default: T): T {
      match this
      case Some(v) => v
      case None => default
    }
  }
}
