/** Result types shared by every component. */
module Wrappers {

  datatype Option<+T> = None | Some(value: T)

  /** What a loader function returns: its value, or the error it reports. */
  datatype Result<+T, +E> = Ok(value: T) | Err(error: E)

  /** What a C function returning `int` reports: 0, or a negative error. */
  datatype Status<+E> = Done | Failed(error: E)
}
