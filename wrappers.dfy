/** Optional values and outcomes that are either a value or an error, standing
    for the nullable references and the exceptions of the modelled code. */
module Wrappers {

  /** A value that may be absent (a `null` reference in the modelled code). */
  datatype Option<+T> = None | Some(value: T)

  /** Either a value or the error an operation raised. */
  datatype Result<+T, +E> = Success(value: T) | Failure(error: E)
}
