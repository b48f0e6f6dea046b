/** The optional value used wherever the platform returns `nil` on failure. */
module Wrappers {

  datatype Option<+T> = None | Some(value: T)
}
