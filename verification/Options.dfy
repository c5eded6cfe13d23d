/** A value or nothing: what the original returns as a pointer that may be null. */
module Options {
  datatype Option<+T> = None | Some(value: T)
}
