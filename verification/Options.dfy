/** An optional value, for what the program writes as None. */
module Options {
  datatype Option<+T> = None | Some(value: T)
}
