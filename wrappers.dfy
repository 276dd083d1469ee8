/** The optional value used where the source returns `null`, `NaN` or "not found". */
module Wrappers {
  datatype Option<+T> = None | Some(value: T)
}
