/** The two failure-carrying datatypes the models share. */
module Wrappers {

  /** `undefined` or a value. */
  datatype Option<+T> = None | Some(value: T)

  /** A returned value or a thrown error. */
  datatype Result<+T, +E> = Ok(value: T) | Err(error: E)
}
