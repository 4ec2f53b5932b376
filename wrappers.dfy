/** The optional value used for "no match" and for unset pointers. */
module Wrappers {
  datatype Option<+T> = None | Some(value: T)
}
