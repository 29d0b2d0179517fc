/** The conventional Some/None datatype, for values the operator may not have. */
module Wrappers {
  datatype Option<+T> = None | Some(value: T)
}
