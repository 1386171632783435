/** Optional values and error returns shared by the modules of the feature layer. */
module Outcomes {

  /** A value that may be absent (Python's `Optional`, a pandas column that may be missing). */
  datatype Option<+T> = None | Some(value: T)

  /** The outcome of an operation that may raise instead of returning. */
  datatype Result<+T, +E> = Ok(value: T) | Err(error: E)
}
