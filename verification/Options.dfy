/** A value that may be missing: an empty tree slot, an open request window, a failed load. */
module Options {
  datatype Option<+T> = None | Some(value: T)
}
