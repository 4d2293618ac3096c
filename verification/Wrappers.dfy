/** The result types shared by the whole model. */
module Wrappers {
  datatype Option<+T> = None | Some(value: T)

  /** What an exception of the program becomes: the reason a transaction was rolled back. */
  datatype Error =
    | NotFound
    | VersionConflict
    | InvalidTransition
    | InvalidInput
    | Conflict
    | IntegrityError

  datatype Result<+T> = Ok(value: T) | Err(error: Error)
}
