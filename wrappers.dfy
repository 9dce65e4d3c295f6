/** The optional value the firmware's Rust code returns as `Option`. */
module Wrappers {
  datatype Option<T> = None | Some(value: T)
}
