/** What the source passes as a value beside a has_ flag, or as an address that may be null. */
module Wrappers {

  datatype Option<+T> = None | Some(value: T)
}
