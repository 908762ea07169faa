/** The optional result used for operations that the tensor runtime rejects. */
module Wrappers {
  datatype Option<+T> = None | Some(value: T)
}
