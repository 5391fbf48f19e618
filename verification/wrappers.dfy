/** Option and Result datatypes shared by the other modules. */
module Wrappers {

  /** A value that may be absent, as a JavaScript `null` or `undefined` is. */
  datatype Option<+T> = None | Some(value: T)

  /** The outcome of an operation that either yields a value or reports an error. */
  datatype Result<+R, +E> = Ok(value: R) | Err(error: E)
}
