/** Python's `None`-or-value, as used for optional strings and results. */
module Wrappers {

  datatype Option<+T> = None | Some(value: T)
}
