/** The optional value used where the scripts return `None`. */
module Wrappers {
  datatype Option<+T> = None | Some(value: T)
}
