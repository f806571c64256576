/** The optional value both front ends use for "absent": Python's None, JavaScript's null or undefined. */
module Wrappers {
  datatype Option<+T> = None | Some(value: T)
}
