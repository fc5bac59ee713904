/** Small result types shared by the modules. */
module Wrappers {
  datatype Option<+T> = None | Some(value: T)

  /** The result of a call that may raise. */
  datatype Result<+T, +E> = Ok(value: T) | Err(error: E)
}
