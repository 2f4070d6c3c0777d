/** Option, Result and Outcome: the model's stand-ins for Python's `None` and for raised exceptions. */
module Results {

  datatype Option<+T> = None | Some(value: T)

  datatype Result<+T, +E> = Ok(value: T) | Err(error: E)

  /** The outcome of a step that returns nothing useful but may raise. */
  datatype Outcome<+E> = Pass | Fail(error: E)
}
