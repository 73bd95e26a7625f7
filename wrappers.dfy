/** Failure-compatible wrappers shared by the other modules. */
module Wrappers {

  datatype Option<+T> = None | Some(value: T)

  /** The outcome of an operation that can throw: its value, or the message of the thrown Error. */
  datatype Result<+R, +E> = Ok(value: R) | Err(error: E)
}
