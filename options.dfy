/** The optional value used for nullable returns and for collaborator calls that may fail. */
module Options {

  datatype Option<+T> = None | Some(value: T)

  /** Outcome of an accessor that can fail with a message (a Java `IllegalStateException`). */
  datatype Result<+T> = Ok(value: T) | Failed(message: string)
}
