/** The optional value used where the source has a value or null. */
module Options {
  datatype Option<T> = None | Some(value: T)
}
