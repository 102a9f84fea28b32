/** The optional value used wherever the server's Go code returns a value together with
    an "ok" flag or an error that it only tests for nil. */
module Wrappers {
  datatype Option<+T> = None | Some(value: T)
}
