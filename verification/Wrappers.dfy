/** Values that may be missing: null pointers, failed look-ups, error codes that may be clear. */
module Wrappers {
  datatype Option<+T> = None | Some(value: T)
}
