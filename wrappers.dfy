/** The optional value used where the Python code would raise an IndexError or a KeyError. */
module Wrappers {
  datatype Option<+T> = None | Some(value: T)
}
