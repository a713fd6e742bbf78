/** The optional-value type shared by the flag modules. */
module Wrappers {
  datatype Option<+T> = None | Some(value: T)
}
