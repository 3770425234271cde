/** Absence and failure values shared by every module of the model. */
module Wrappers {

  /** `None` stands for Python's `None` (a query with no row, a NULL column). */
  datatype Option<+T> = None | Some(value: T)

  /** `Err` stands for an exception raised to the caller. */
  datatype Result<+T, +E> = Ok(value: T) | Err(error: E)
}
