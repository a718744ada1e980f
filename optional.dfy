/** Failure-aware results: the NULL of SQL arithmetic and the KeyError of a dictionary lookup. */
module Optional {

  /** A value that may be missing (SQL NULL, pandas NaN). */
  datatype Option<+T> = None | Some(value: T)

  /** The outcome of an operation that can fail with an error of type E. */
  datatype Result<+T, +E> = Success(value: T) | Failure(error: E)
}
