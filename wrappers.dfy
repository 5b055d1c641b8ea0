/** The optional value that Rust spells `Option<T>`. */
module Wrappers {
  datatype Option<+T> = None | Some(value: T)
}
