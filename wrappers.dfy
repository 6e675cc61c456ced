/** The optional value used across the model for Python's `None`. */
module Wrappers {

  datatype Option<+T> = None | Some(value: T)
}
