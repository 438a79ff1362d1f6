/** An optional value: a missing result, an unset field, an error without detail. */
module Options {
  datatype Option<T> = None | Some(value: T)
}
