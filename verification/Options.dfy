/** An optional value, for the source's null pointers and end-of-file results. */
module Options {
  datatype Option<T> = None | Some(value: T)
}
