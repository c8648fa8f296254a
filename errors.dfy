/** The exceptions the recorders raise, as values. */
module Errors {

  /** Why an `IntegrityError` was raised. Both causes raise the same Python
      type; the client-side one carries no argument, the log-side one wraps the
      log client's own `IntegrityError`. */
  datatype IntegrityCause =
    | NonContiguousVersion   // the batch itself is malformed
    | LogConflict            // the log's append condition matched a stored event

  datatype Error =
    | IntegrityError(cause: IntegrityCause)
    | IndexError            // a missing tag, or a tag without a ':'
    | ValueError            // a version field that is not an integer
    | NotImplementedError   // snapshotting is not supported

  /** The errors that decoding a tag can raise. */
  predicate IsDecodeError(e: Error) {
    e == IndexError || e == ValueError
  }
}
