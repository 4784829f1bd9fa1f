/** Failure-carrying datatypes shared by the modules of this model. */
module Wrappers {

  datatype Option<+T> = None | Some(value: T)

  /** The outcome of an operation that may raise: a value, or the name of the exception. */
  datatype Result<+T> = Ok(value: T) | Raised(error: string)
}
