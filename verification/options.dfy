/** Values that may be undefined (pandas' NaN) and computations that may fail (a raised exception). */
module Options {

  /** `None` stands for a value the source leaves undefined, such as the mean of an empty group. */
  datatype Option<+T> = None | Some(value: T)

  /** The outcome of a step that the source lets raise. */
  datatype Result<+T, +E> = Ok(value: T) | Err(error: E)
}
