/** The optional value: what the source writes as `undefined`, `null` or a value. */
module Wrappers {
  datatype Option<+T> = None | Some(value: T)
}
