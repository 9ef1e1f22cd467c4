/** Shared vocabulary of the account-security core: optional values, results,
    and the scalar types every component uses. */
module Common {

  /** A value that may be absent, standing for a nullable column or an empty `Optional`. */
  datatype Option<T> = None | Some(value: T) {
    function GetOr(default: T): T {
      match this
      case Some(v) => v
      case None => default
    }
  }

  /** The outcome of an operation that the source ends with an exception or an error reply. */
  datatype Result<T, E> = Success(value: T) | Failure(error: E)

  /** Instants are whole minutes on one clock: no operation needs calendar arithmetic. */
  type Time = int

  /** The generated numeric primary key of an account. */
  type UserId = int

  type Email = string

  /** An opaque random token (a UUID string in the source). */
  type Token = string

  /** A message that the mail sender accepted. */
  datatype Mail =
    | VerificationMail(to: Email, token: Token)
    | PinMail(to: Email, pin: string)
}
