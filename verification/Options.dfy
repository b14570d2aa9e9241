/** The optional value the other modules share: Go's nil pointers and (value, ok) pairs. */
module Options {
  datatype Option<+T> = None | Some(value: T)
}
