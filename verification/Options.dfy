/** A value that may be absent: Go's nil pointers and (value, ok) pairs. */
module Options {

  datatype Option<+T> = None | Some(value: T)
}
