/** The optional value used for nullable state and for absent storage keys. */
module Wrappers {
  datatype Option<+T> = None | Some(value: T)
}
