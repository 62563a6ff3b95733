/** Small value types shared by every component. */
module Wrappers {

  datatype Option<+T> = None | Some(value: T) {

    function GetOr(default: T): T {
      match this
      case Some(v) => v
      case None => default
    }
  }

  datatype Result<+T, +E> = Ok(value: T) | Err(error: E)

  /** The answer of one database lookup, which may itself fail. */
  datatype Lookup<+T> = Found(row: T) | Absent | Failed
}
