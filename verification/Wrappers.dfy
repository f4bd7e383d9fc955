/** The conventional Some/None datatype, used where the source returns a null pointer. */
module Wrappers {
  datatype Option<+T> = None | Some(value: T)
}
