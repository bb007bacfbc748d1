/** The Option type used for JavaScript's `null`/`undefined`-or-value results. */
module Wrappers {

  datatype Option<+T> = None | Some(value: T)
}
