/** An optional value, used wherever the source has `undefined` or a missing map entry. */
module Options {
  datatype Option<+T> = None | Some(value: T)
}
