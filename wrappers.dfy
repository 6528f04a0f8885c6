/** The absent-or-present result of an operation that may return nothing. */
module Wrappers {

  datatype Option<+T> = None | Some(value: T)
}
