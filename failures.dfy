/** Outcomes and the exception taxonomy of the banking core.
    Java exceptions become values: a failing call returns `Err`/`Fail`
    carrying an `Error`, and a successful one `Ok`/`Done`. */
module Failures {

  datatype Option<+T> = None | Some(value: T)

  /** The exceptions the core throws. */
  datatype Error =
    /** `BankingException(message)` */
    | BankingError(message: string)
    /** `AccountNotFoundException(detail)`: the detail is the constructor's argument,
        the account id or a message */
    | AccountNotFound(detail: string)
    /** `InsufficientFundsException(accountId, requested, available)` */
    | InsufficientFunds(accountId: string, requested: int, available: int)
    /** the database's rejection of an INSERT whose account id is already a key */
    | DuplicateKey(accountId: string)
    /** `BankingException(message, cause)`: a store method wrapping its own failure */
    | Wrapped(message: string, cause: Error)

  /** A call that returns a value or throws. */
  datatype Result<+T> = Ok(value: T) | Err(error: Error)

  /** A `void` call that returns normally or throws. */
  datatype Outcome = Done | Fail(error: Error)
}
