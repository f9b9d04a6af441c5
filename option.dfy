/** A value that may be absent: an optional field, or the result of a search. */
module Options {
  datatype Option<T> = None | Some(value: T)
}
