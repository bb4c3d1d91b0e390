/** The two result types shared by every module. */
module Wrappers {

  datatype Option<+T> = None | Some(value: T)

  /** A Swift `throws` or a Python `raise` is an `Err`. */
  datatype Result<+T, +E> = Ok(value: T) | Err(error: E)
}
