/** The optional value the source writes as `T | undefined`. */
module Wrappers {

  datatype Option<+T> = None | Some(value: T)
}
