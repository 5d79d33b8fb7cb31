/** The optional value used wherever the Rust code returns `Option` or would panic on bad input. */
module Wrappers {
  datatype Option<+T> = None | Some(value: T)
}
