/** The optional value used for tab fields that the host may leave undefined. */
module Wrappers {
  datatype Option<+T> = None | Some(value: T)
}
