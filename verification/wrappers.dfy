/** Optional values and success/failure values, used where the source returns
    `None` or turns an exception into a value. */
module Wrappers {

  /** A value that may be absent (Python's `None`, or a missing dictionary key). */
  datatype Option<+T> = None | Some(value: T)

  /** The outcome of a call into a library this model does not look inside:
      either its value or the message of the exception it raised. */
  datatype Result<+T> = Ok(value: T) | Raised(message: string)
}
