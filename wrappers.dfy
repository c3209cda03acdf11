/** Option and Result, the two wrapper datatypes the model uses. */
module Wrappers {

  /** `None` stands for a pandas NaN cell, `Some(v)` for a number. */
  datatype Option<+T> = None | Some(value: T)

  /** The outcome of an operation that may raise. */
  datatype Result<+T, +E> = Ok(value: T) | Err(error: E)
}
