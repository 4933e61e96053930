/** A value, or the null pointer or error code that the source returns in its place. */
module Options {
  datatype Option<T> = None | Some(value: T)
}
