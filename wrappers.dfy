/** The optional value used where the source returns a null pointer or a
    "no more entries" answer. */
module Wrappers {
  datatype Option<+T> = None | Some(value: T)
}
