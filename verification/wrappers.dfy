/** Failure-carrying values shared by every module of the model. */
module Wrappers {

  /** A value that may be missing: JavaScript's `undefined`, or a call that threw. */
  datatype Option<+T> = None | Some(value: T)

  /** The outcome of an operation that can reject with an error message. */
  datatype Result<+T> = Ok(value: T) | Err(message: string)
}
