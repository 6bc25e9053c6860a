/** The Option datatype used for operations that may produce no value
    (a JavaScript NaN or an Invalid Date). */
module Wrappers {
  datatype Option<+T> = None | Some(value: T)
}
