/** The optional value used wherever JavaScript has `undefined`/`null` or a call may throw. */
module Wrappers {
  datatype Option<+T> = None | Some(value: T)
}
