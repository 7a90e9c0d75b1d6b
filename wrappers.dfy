/** A value that may be absent, as a null pointer is in C. */
module Wrappers {
  datatype Option<T> = None | Some(value: T)
}
