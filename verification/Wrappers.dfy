/** The optional value used wherever the source has a nullable column, an absent field or a missing row. */
module Wrappers {
  datatype Option<+T> = None | Some(value: T)
}
