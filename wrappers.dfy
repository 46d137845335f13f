/** Option and Result, the two failure-carrying shapes the rest of the model uses:
    `Option` for a JavaScript value that may be `undefined` or `null`,
    `Result` for an operation that may throw or reply with an error. */
module Wrappers {

  datatype Option<+T> = None | Some(value: T) {
    function GetOr(default: T): T {
      match this
      case Some(v) => v
      case None => default
    }
  }

  datatype Result<+R, +E> = Success(value: R) | Failure(error: E)
}
