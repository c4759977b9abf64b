/** Error values for the Python exceptions the core can raise, and the
    Result/Option wrappers used instead of exceptions and `None`. */
module Outcomes {

  /** The exception kinds the modelled code raises. */
  datatype Error =
    | ValueError         // explicit `raise ValueError(...)`
    | ZeroDivisionError  // `x / 0` or `i % 0`
    | IndexError         // indexing an empty list

  datatype Result<T> = Ok(value: T) | Err(error: Error)

  datatype Option<T> = None | Some(value: T)
}
