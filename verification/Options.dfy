/** A value that may be missing: null pointers, absent arguments. */
module Options {
  datatype Option<+T> = None | Some(value: T)
}
