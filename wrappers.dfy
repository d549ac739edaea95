/** Option and Result wrappers shared by every module of the model. */
module Wrappers {
  datatype Option<T> = None | Some(value: T)

  /** An operation that either succeeds with a value or fails with a message,
      the way the backend's promises resolve or reject. */
  datatype Result<T> = Ok(value: T) | Err(error: string)
}
