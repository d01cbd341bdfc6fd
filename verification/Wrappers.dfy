/** A value that may be missing, or a step of the source that panics. */
module Wrappers {
  datatype Option<+T> = None | Some(value: T)
}
