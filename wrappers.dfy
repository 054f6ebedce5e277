/** The conventional optional value, used for Python's `None` results and for
    computations that raise an exception. */
module Wrappers {
  datatype Option<+T> = None | Some(value: T)
}
