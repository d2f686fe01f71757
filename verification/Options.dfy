/** An optional value: a null pointer, a missing result, a byte nobody has written. */
module Options {
  datatype Option<T> = None | Some(value: T)
}
