/** Failure-carrying result types shared by the other modules. */
module Wrappers {

  /** A value that may be absent. */
  datatype Option<T> = None | Some(value: T)

  /** Either a value or the error that was raised instead. */
  datatype Result<T, E> = Ok(value: T) | Err(error: E)
}
