/** A value that may be absent: `std::optional`, and the outcome of code that may throw. */
module Wrappers {
  datatype Option<+T> = None | Some(value: T)
}
