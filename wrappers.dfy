/** The optional-value and result datatypes used throughout the model. */
module Wrappers {

  datatype Option<+T> = None | Some(value: T)

  /** The outcome of a JavaScript operation that may throw: its value, or
      the message of the exception it throws. */
  datatype Result<+T> = Success(value: T) | Failure(error: string)
}
