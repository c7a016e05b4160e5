/**
 Optional values, results, and the errors that end a `local up` run.
 Every place where the command logs a fatal message and exits becomes a
 `Failure` carrying one of the `Error` variants below.
 */
module Results {

  datatype Option<+T> = None | Some(value: T)

  datatype Result<+R, +E> = Success(value: R) | Failure(error: E)

  /** The fatal conditions of the command. Causes reported by code outside
      the model (the Compose parser, the AWS clients) are opaque strings. */
  datatype Error =
    | ComposeUnmarshalFailed(path: string, cause: string)
      // the Compose file could not be read or parsed
    | ClientCreationFailed(cause: string)
      // a decrypter client could not be constructed
    | ServiceLookupFailed(cause: string)
      // the AWS service owning a secret could not be determined
    | UnknownService(service: string)
      // the owning service is neither Secrets Manager nor SSM
    | DecryptFailed(cause: string)
      // the owning backend refused or failed to return the value
}
