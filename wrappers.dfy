/** The optional value that stands for a nullable result or a lookup that may fail. */
module Wrappers {
  datatype Option<+T> = None | Some(value: T)
}
