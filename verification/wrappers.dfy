/** Small failure-carrying datatypes shared by every module of the model. */
module Wrappers {

  /** An optional value: `std::optional`, or a JavaScript value that may be missing. */
  datatype Option<+T> = None | Some(value: T) {
    function GetOr(default: T): T {
      match this
      case Some(v) => v
      case None => default
    }
  }

  /** Either a value or the error a call throws or reports. */
  datatype Result<+R, +E> = Ok(value: R) | Err(error: E)

  /** Success or an error, for calls that return nothing on success. */
  datatype Outcome<+E> = Pass | Fail(error: E)
}
