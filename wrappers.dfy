/** The optional-value type the Rust source gets from `std::option::Option`. */
module Wrappers {

  datatype Option<+T> = None | Some(value: T)
}
