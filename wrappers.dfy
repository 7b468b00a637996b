/** An optional value: what a component renders, or nothing. */
module Wrappers {
  datatype Option<+T> = None | Some(value: T)
}
