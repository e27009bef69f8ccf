/** The two result shapes the models share. */
module Wrappers {

  /** A pointer that may be NULL, or a file that may be absent. */
  datatype Option<+T> = None | Some(value: T) {

    function GetOr(default: T): T {
      match this
      case Some(v) => v
      case None => default
    }
  }

  /** A call that returns a value or fails. */
  datatype Result<+T> = Ok(value: T) | Err
}
