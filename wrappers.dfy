/** The optional value used wherever JavaScript can produce NaN or an absent key. */
module Wrappers {
  datatype Option<+T> = None | Some(value: T)
}
