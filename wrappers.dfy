/** Failure-carrying results shared by every module of the exporter. */
module Wrappers {

  /** Python's `None` versus a present value. */
  datatype Option<+T> = None | Some(value: T) {
    function GetOr(default: T): T {
      match this
      case Some(v) => v
      case None => default
    }
  }

  /** A step that either produces a value or raises an exception carrying a message. */
  datatype Result<+T> = Ok(value: T) | Err(msg: string)
}
