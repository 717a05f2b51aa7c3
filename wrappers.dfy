/** The optional value used where the source returns a match or nothing. */
module Wrappers {
  datatype Option<+T> = None | Some(value: T)
}
