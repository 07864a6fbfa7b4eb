/** The plain Option and Result datatypes shared by the modules of this model. */
module Wrappers {

  /** A value that may be missing (pandas NaN / Python None). */
  datatype Option<+T> = None | Some(value: T)

  /** The outcome of a step that can raise: a value, or the error that aborts the run. */
  datatype Result<+T, +E> = Success(value: T) | Failure(error: E)
}
