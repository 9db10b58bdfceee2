/** Option, for values that may be absent (an optional override, a file that was never opened). */
module Wrappers {
  datatype Option<+T> = None | Some(value: T)
}
