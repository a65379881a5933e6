/** The optional value used for JavaScript's `null` references. */
module Wrappers {

  datatype Option<+T> = None | Some(value: T)
}
