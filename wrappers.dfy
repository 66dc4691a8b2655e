/** Optional values and error-carrying results shared by the other modules. */
module Wrappers {

  datatype Option<+T> = None | Some(value: T)

  /** The outcome of an operation that the program lets raise: a value or the error it raises. */
  datatype Result<+T, +E> = Ok(value: T) | Err(error: E)
}
