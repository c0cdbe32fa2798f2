/** A value that may be missing: a NULL column, a key that is not there, a query without a row. */
module Options {
  datatype Option<+T> = None | Some(value: T)
}
