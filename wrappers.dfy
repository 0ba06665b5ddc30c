/** Option and Result values: `undefined`/`null` results and thrown errors of the source. */
module Wrappers {

  datatype Option<+T> = None | Some(value: T) {
    function GetOr(default: T): T {
      match this
      case Some(v) => v
      case None => default
    }
  }

  /** A value, or the message of the Error the source throws instead. */
  datatype Result<+T> = Success(value: T) | Failure(error: string)
}
