/** An optional value: `None` stands for a field that is `undefined` in the source. */
module Options {
  datatype Option<+T> = None | Some(value: T)
}
