/** The optional value used where the application returns `None`. */
module Wrappers {
  datatype Option<+T> = None | Some(value: T)
}
