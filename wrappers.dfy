/** The optional value used wherever the router returns `nil` or omits a key. */
module Wrappers {
  datatype Option<+T> = None | Some(value: T)
}
