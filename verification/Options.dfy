/** The conventional optional value, used where the Go code has a nil pointer. */
module Options {
  datatype Option<+T> = None | Some(value: T)
}
