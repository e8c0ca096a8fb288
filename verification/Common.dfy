/** A value that may be missing. */
module Common {
  datatype Option<T> = None | Some(value: T)
}
