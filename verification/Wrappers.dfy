/** A value that may be missing: Go's nil slice or nil pointer, a failed lookup. */
module Wrappers {
  datatype Option<+T> = None | Some(value: T)
}
