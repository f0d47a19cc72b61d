/** Failure-compatible wrappers shared by the whole model. */
module Wrappers {

  /** A value that may be absent. */
  datatype Option<+T> = None | Some(value: T)

  /** The outcome of executing an action: the next state, or the reason it was rejected. */
  datatype Result<+T> = Ok(value: T) | Failure(error: string)
}
