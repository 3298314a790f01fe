/** Option and Result: the explicit absence and failure channels used throughout the model. */
module Wrappers {

  datatype Option<+T> = None | Some(value: T)

  /** A Ruby evaluation that either produced a value or raised an exception. */
  datatype Result<+R, +E> = Ok(value: R) | Raised(error: E)
}
