/** Option and Result, the two failure-carrying shapes used throughout the model. */
module Wrappers {

  /** A value that may be absent: Go's nil, JavaScript's null or undefined. */
  datatype Option<+T> = None | Some(value: T)

  /** Either a value or an error, as returned by the TypeScript monads library. */
  datatype Result<+T, +E> = Ok(value: T) | Err(error: E)
}
