/** The missing-value marker of a cell and the outcome of a lookup that can fail. */
module Optional {

  /** A cell value or the missing marker (pandas' None/NaN). */
  datatype Option<+T> = None | Some(value: T)

  /** A value, or the reason it could not be produced. */
  datatype Result<+R, +E> = Ok(value: R) | Err(error: E)
}
