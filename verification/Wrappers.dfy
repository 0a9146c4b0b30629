/** The two result shapes every module of the model returns. */
module Wrappers {

  /** A value that may be absent: a lookup that found nothing, an optional field. */
  datatype Option<+T> = None | Some(value: T) {
    function GetOr(default: T): T {
      match this
      case Some(v) => v
      case None => default
    }
  }

  /** A service call: its new state, or the error code it was refused with. */
  datatype Result<+T, +E> = Ok(value: T) | Refused(error: E)
}
