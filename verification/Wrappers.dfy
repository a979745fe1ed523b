/** A value that may be missing, as Go's `v, ok` results are. */
module Wrappers {
  datatype Option<+T> = None | Some(value: T)
}
