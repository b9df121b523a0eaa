/** Option and Result types shared by the registry and the converter. */
module Wrappers {

  datatype Option<+T> = None | Some(value: T)

  /** The outcome of a conversion step: a value, or the exception it raised. */
  datatype Result<+R, +E> = Success(value: R) | Failure(error: E)
}
