/** Option and Result, the two failure-carrying datatypes used throughout the model. */
module Wrappers {

  /** A possibly absent value: JavaScript's `null`/`undefined` versus a present value. */
  datatype Option<+T> = None | Some(value: T)

  /** The outcome of a controller call: a value, or the message of the `Error` it throws. */
  datatype Result<+T> = Ok(value: T) | Err(message: string)
}
