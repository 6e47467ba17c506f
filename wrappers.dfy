/** The optional value used where the source returns `null` or takes an
    optional argument. */
module Wrappers {
  datatype Option<+T> = None | Some(value: T)
}
