/** The usual failure-free optional value: a null pointer, a missing token, an unset field. */
module Wrappers {
  datatype Option<+T> = None | Some(value: T)
}
