/** Values that stand for Python's `None`, for raised exceptions and for guards that either
    return quietly or raise. */
module Outcomes {

  datatype Option<+T> = None | Some(value: T)

  /** A call that either returns a value or raises. */
  datatype Result<+T, +E> = Ok(value: T) | Err(error: E)

  /** A guard that either returns `None` or raises. */
  datatype Outcome<+E> = Pass | Fail(error: E)

  /** The Python exceptions raised by the deduplication code, or by Django inside it, with their
      messages. */
  datatype Exception = ValueError(message: string) | PermissionError(message: string) | FieldDoesNotExist(message: string)
}
