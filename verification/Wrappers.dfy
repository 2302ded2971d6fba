/** Failure-free optional values, used wherever the programs return NULL, None or -1. */
module Wrappers {
  datatype Option<+T> = None | Some(value: T)
}
