/** The optional value used where the source signals "nothing found" with an exception. */
module Wrappers {
  datatype Option<+T> = None | Some(value: T)
}
