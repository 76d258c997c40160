/** An optional value: C#'s null reference, or a computation with no finite
    result. */
module Wrappers {
  datatype Option<T> = None | Some(value: T)
}
