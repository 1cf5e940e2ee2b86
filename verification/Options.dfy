/** A value or nothing: the C code's NULL or error results. */
module Options {
  datatype Option<+T> = None | Some(value: T)
}
