/**
  Values that may be missing: NULL pointers and empty results.
 */
module Options {

  datatype Option<T> = None | Some(value: T)
}
