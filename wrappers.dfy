/** The optional value used wherever the game uses Rust's `Option` or a lookup that can miss. */
module Wrappers {
  datatype Option<+T> = None | Some(value: T)
}
