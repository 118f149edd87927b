/** Option and Result values used where the source has `undefined` or throws an Error. */
module Outcomes {

  /** A value that may be absent (`undefined` / `null` in the source). */
  datatype Option<+T> = None | Some(value: T) {
    function GetOr(default: T): T {
      match this
      case Some(v) => v
      case None => default
    }
  }

  /** The outcome of an operation that either returns a value or throws an Error
      carrying a message. */
  datatype Result<+T> = Success(value: T) | Failure(error: string)
}
