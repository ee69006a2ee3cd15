module Wrappers {
  /** An optional value: None where the code has None, a missing key or an escaping exception. */
  datatype Option<+T> = None | Some(value: T)
}
