/** The optional value used for hit-test results and the selection. */
module Wrappers {
  datatype Option<+T> = None | Some(value: T)
}
