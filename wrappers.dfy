/** Option and Result values, and the JavaScript error objects the pipeline passes around. */
module Wrappers {

  datatype Option<+T> = None | Some(value: T)

  datatype Result<+T, +E> = Ok(value: T) | Err(error: E)

  /** A thrown JavaScript error; only its `message` is ever read by the application. */
  datatype Error = Error(message: string)
}
