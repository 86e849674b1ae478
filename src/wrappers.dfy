/** Option, the model's stand-in for Python's "no value" and for an exception that aborts a call. */
module Wrappers {
  datatype Option<+T> = None | Some(value: T)
}
