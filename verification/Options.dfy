/** The result of a lookup or a read that may come back empty. */
module Options {
  datatype Option<+T> = None | Some(value: T)
}
