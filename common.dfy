/** Option and result types shared by the clinic model. */
module Common {

  /** A value that may be absent: an SQL NULL column, or a query that fetched no row. */
  datatype Option<+T> = None | Some(value: T)

  /** The outcome of an operation that yields a value or reports an error. */
  datatype Result<+T, +E> = Success(value: T) | Failure(error: E)

  /** The outcome of an operation that yields nothing or reports an error. */
  datatype Outcome<+E> = Pass | Fail(error: E)
}
