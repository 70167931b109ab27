/** Option, used for Python calls that may raise and for partial results. */
module Wrappers {
  datatype Option<+T> = None | Some(value: T)
}
