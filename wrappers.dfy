/** The optional value standing for Iris's null pointers and "no hit" results. */
module Wrappers {
  datatype Option<T> = None | Some(value: T)
}
