/** The optional value that the source writes as None, null or undefined. */
module Wrappers {
  datatype Option<+T> = None | Some(value: T)
}
