/** Option and Result types shared by every module of the model. */
module Wrappers {

  /** A value that may be absent (Python's `None`). */
  datatype Option<+T> = None | Some(value: T)

  /** The outcome of an operation that returns a value or raises an exception. */
  datatype Result<+T> = Ok(value: T) | Err(error: Error)

  /** The Python exceptions the modelled code raises. */
  datatype Error =
    | ValueError(message: string)
    | KeyError(key: string)
    | IndexError
    | ZeroDivisionError
}
