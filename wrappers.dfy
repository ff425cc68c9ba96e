/** Option and Result, the two failure-carrying values the pipeline model uses. */
module Wrappers {

  datatype Option<+T> = None | Some(value: T)

  /** The outcome of a step that can raise: `Err` carries the exception's message. */
  datatype Result<+T> = Ok(value: T) | Err(msg: string)
}
