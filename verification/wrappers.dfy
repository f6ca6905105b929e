/** Outcome types shared by the whole model. */
module Wrappers {

  datatype Option<+T> = None | Some(value: T)

  /** `Err` stands for an exception that is raised or an error that is returned. */
  datatype Result<+T, +E> = Ok(value: T) | Err(error: E)
}
