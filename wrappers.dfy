/** The conventional optional value, used where the source yields a value or nothing. */
module Wrappers {
  datatype Option<+T> = None | Some(value: T)
}
