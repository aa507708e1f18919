/** Optional values and results shared by the model. */
module Options {
  datatype Option<+T> = None | Some(value: T)

  /** `Raised` stands for an exception that leaves the call. */
  datatype Result<+T, +E> = Ok(value: T) | Raised(error: E)
}
