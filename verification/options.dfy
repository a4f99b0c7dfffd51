/** The optional value used wherever the source has `undefined` or "not found". */
module Options {
  datatype Option<+T> = None | Some(value: T)
}
