/** Option and Result datatypes used throughout the rate-limiter model. */
module Wrappers {

  /** A value that may be absent: an optional argument, an optional expiry. */
  datatype Option<+T> = None | Some(value: T) {

    /** The value if there is one, `default` otherwise. */
    function GetOr(default: T): (r: T) {
      match this
      case Some(v) => v
      case None => default
    }
  }

  /** Either a value or an error: stands for Go's `(value, error)` pairs and panics. */
  datatype Result<+R, +E> = Success(value: R) | Failure(error: E)
}
