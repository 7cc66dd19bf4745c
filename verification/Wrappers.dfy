/** An optional value: the source's null pointers and "not found" flags. */
module Wrappers {
  datatype Option<+T> = None | Some(value: T)
}
