/**
 The two shapes the popup script uses for "maybe a value": `null`/`undefined`
 (an `Option`) and an exception raised by the JavaScript runtime (a `Result`).
 */
module Wrappers {

  datatype Option<+T> = None | Some(value: T) {
    /** `x || fallback` for a value that is either present or undefined. */
    function GetOr(fallback: T): T {
      match this
      case Some(v) => v
      case None => fallback
    }
  }

  datatype Result<+T, +E> = Ok(value: T) | Err(error: E)
}
