/** The optional value used for `number | null` state and for the result of a lookup. */
module Wrappers {
  datatype Option<+T> = None | Some(value: T)
}
