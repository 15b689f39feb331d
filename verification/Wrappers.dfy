/** The optional value that the source writes as `Option`. */
module Wrappers {

  datatype Option<+T> = None | Some(value: T)
}
