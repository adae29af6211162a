/** A value that may be missing: a nil pointer, an absent key, a failed call. */
module Wrappers {

  datatype Option<+T> = None | Some(value: T)
}
