/** The one wrapper type shared by the models: a value that may be absent. */
module Option {
  datatype Option<+T> = None | Some(value: T)
}
