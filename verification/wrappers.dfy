/** Optional values and results with an error, the failure-compatible shapes the
    rest of the model returns instead of raising. */
module Wrappers {

  /** A value that may be absent: Python's `None` or a missing key. */
  datatype Option<+T> = None | Some(value: T) {

    /** The value, or `default` when absent (Python's `d.get(k, default)`). */
    function GetOr(default: T): T {
      match this
      case Some(v) => v
      case None => default
    }
  }

  /** Either a value or the error that stopped the request. */
  datatype Result<+T, +E> = Success(value: T) | Failure(error: E)
}

/** The outcomes a request can end in besides success. */
module Errors {

  datatype Error =
    | ValidationError(detail: string)  // HTTP 400
    | NotFound                         // HTTP 404
    | Forbidden                        // HTTP 403: authenticated but not allowed
    | Unauthenticated                  // HTTP 401: no authenticated principal
    | ServerError                      // HTTP 500: an exception nothing handles
}
