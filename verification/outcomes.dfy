/** Optional values, fallible values, and the exceptions the upload code can
    raise, modelled as data instead of control flow. */
module Outcomes {

  /** A value that may be absent: Java's `null` or Guava's `Optional.absent()`. */
  datatype Option<+T> = None | Some(value: T)

  /** A value, or the message of the failure that prevented computing it. */
  datatype Result<+T> = Ok(value: T) | Err(message: string)

  /** The exceptions that escape an upload.
      - SshException: the acknowledgement protocol failed (SSHException).
      - JschException: the transport could not open a session or a channel.
      - IoException: the local file could not be opened, or a write to the
        channel failed.
      - NullPointerException: a required configuration value was null. */
  datatype Failure =
    | SshException(message: string)
    | JschException(message: string)
    | IoException(message: string)
    | NullPointerException

  /** How a Java call ended: it returned normally, or it threw. */
  datatype Outcome = Completed | Threw(failure: Failure)
}
