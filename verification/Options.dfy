/** The optional values used throughout: a nullable pointer, or a call that may report nothing. */
module Options {
  datatype Option<+T> = None | Some(value: T)
}
