/** Failure-compatible return values shared by the whole model. */
module Wrappers {
  /** A value that may be missing; the source's raised exceptions become None. */
  datatype Option<+T> = None | Some(value: T)
}
