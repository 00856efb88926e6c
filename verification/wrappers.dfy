/** Rust's `Option`, as the handlers return it. */
module Wrappers {

  datatype Option<+T> = None | Some(value: T)
}
