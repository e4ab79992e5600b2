/** The optional value used for fields a caller may leave out. */
module Wrappers {

  /** `None` stands for an absent (null) field, `Some(v)` for a supplied one. */
  datatype Option<+T> = None | Some(value: T)
}
