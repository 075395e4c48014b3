/** The two-constructor types the models share in place of `std::optional`. */
module Wrappers {

  datatype Option<+T> = None | Some(value: T)
}
