/** Failure-free wrappers shared by every module of the model. */
module Wrappers {
  datatype Option<+T> = None | Some(value: T) {
    function GetOr(other: T): T {
      if Some? then value else other
    }
  }

  datatype Result<+T> = Ok(value: T) | Err
}
