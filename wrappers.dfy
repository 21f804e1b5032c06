/** The optional value used where C returns a NULL pointer or leaves an out-parameter unwritten. */
module Wrappers {
  datatype Option<T> = None | Some(value: T)
}
