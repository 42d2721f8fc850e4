/** Results that may be absent, and Go's (value, error) returns. */
module Wrappers {
  datatype Option<+T> = None | Some(value: T)
}
