/** Failure-carrying values shared by every module of the model. */
module Wrappers {

  /** A value that may be absent (a missing dictionary key, a `None`). */
  datatype Option<+T> = None | Some(value: T)

  /** The result of a call that may let an exception escape to its caller. */
  datatype Result<+T> = Ok(value: T) | Raised
}
