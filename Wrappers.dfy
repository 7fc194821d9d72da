/** The optional value shared by the models: Python's `None` or a value. */
module Wrappers {
  datatype Option<T> = None | Some(value: T)
}
