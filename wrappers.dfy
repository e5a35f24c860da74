/** The optional values of the source: a JavaScript field that may be `undefined`. */
module Wrappers {

  datatype Option<+T> = None | Some(value: T) {

    /** `x ?? fallback` */
    function GetOr(fallback: T): T
    {
      match this
      case Some(v) => v
      case None => fallback
    }
  }

  /** The outcome of a computation that may throw a JavaScript exception. */
  datatype Result<+T> = Success(value: T) | Failure(error: string)
}
