/** Option, used for values the broker may or may not have. */
module Wrappers {
  datatype Option<+T> = None | Some(value: T)
}
