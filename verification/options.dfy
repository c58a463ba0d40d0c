/** An optional value: a missing key, a nil pointer, or a call without a result. */
module Options {
  datatype Option<+T> = None | Some(value: T)
}
