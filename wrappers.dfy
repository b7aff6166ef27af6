/** The absent-or-present value used for the storage slot and the browser language. */
module Wrappers {
  datatype Option<+T> = None | Some(value: T)
}
