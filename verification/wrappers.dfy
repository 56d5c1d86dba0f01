/** Failure-carrying values used throughout the model: `Option` for Go's
    nil-able pointers and comma-ok lookups, `Result` for Go's `(value, error)`
    returns. Error texts are the messages the Go code formats. */
module Wrappers {

  datatype Option<+T> = None | Some(value: T) {
    function GetOr(default: T): T {
      match this
      case Some(v) => v
      case None => default
    }
  }

  datatype Result<+T> = Ok(value: T) | Err(msg: string) {
    function ToOption(): Option<T> {
      match this
      case Ok(v) => Some(v)
      case Err(_) => None
    }
  }
}
