/** A value that may be missing: Go's nil pointers and absent map entries. */
module Options {
  datatype Option<T> = None | Some(value: T)
}
