/** A JavaScript value that is either `null` or present. */
module Options {
  datatype Option<T> = None | Some(value: T)
}
