/** The optional value used where the source works with a reference that may be null. */
module Wrappers {

  /** `None` stands for a null reference, `Some(v)` for a present one. */
  datatype Option<+T> = None | Some(value: T)
}
