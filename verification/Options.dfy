/** A value that may be absent: a NULL pointer, an unset field. */
module Options {
  datatype Option<+T> = None | Some(value: T)
}
