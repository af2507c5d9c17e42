/** The optional-value datatype used for nullable browser values. */
module Wrappers {

  /** A value that may be absent (`null` / `undefined` on the browser side). */
  datatype Option<+T> = None | Some(value: T)
}
