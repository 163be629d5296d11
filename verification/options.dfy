/** The optional value used wherever the handlers may produce nothing. */
module Options {
  datatype Option<+T> = None | Some(value: T)
}
