/** The optional value: a C pointer that may be NULL, or a fetch that may fail. */
module Wrappers {
  datatype Option<+T> = None | Some(value: T)
}
