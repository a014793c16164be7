/** The conventional optional value: the model's stand-in for JavaScript's `null`
    and for Python's caught `ValueError`. */
module Wrappers {
  datatype Option<+T> = None | Some(value: T)
}
