/** The optional value used across the models for Go's nil pointers and missing map entries. */
module Options {
  datatype Option<+T> = None | Some(value: T)
}
