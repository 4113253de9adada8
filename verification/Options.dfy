/** A value or its absence: the source's nil, error and missing key. */
module Options {
  datatype Option<T> = None | Some(value: T)
}
