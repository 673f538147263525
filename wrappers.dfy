/** Option and Result wrappers shared by every module of the model. */
module Wrappers {
  datatype Option<T> = None | Some(value: T)

  /** A computation that either succeeds with a value or fails with a message. */
  datatype Result<T> = Ok(value: T) | Err(msg: string)
  {
    predicate IsOk() { Ok? }
  }
}
