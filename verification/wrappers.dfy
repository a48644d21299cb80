/** Failure-carrying values used by every handler of the model. */
module Wrappers {

  /** A value that may be missing: JavaScript's `undefined`/`null` versus a present value. */
  datatype Option<+T> = None | Some(value: T) {
    function GetOr(default: T): T {
      match this
      case Some(v) => v
      case None => default
    }
  }

  /** The outcome of an HTTP handler: the response body or an error status. */
  datatype Result<+R, +E> = Ok(value: R) | Err(error: E)

  /** An HTTP error response: its status code and the `error` message of its JSON body. */
  datatype HttpError = HttpError(code: int, message: string)
}
