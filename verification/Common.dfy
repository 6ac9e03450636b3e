/** Failure-compatible results and the error values of the services. */
module Common {

  datatype Option<+T> = None | Some(value: T)

  datatype Result<+T, +E> = Success(value: T) | Failure(error: E) {
    predicate IsFailure() {
      Failure?
    }

    function PropagateFailure<U>(): Result<U, E>
      requires Failure?
    {
      Failure(error)
    }

    function Extract(): T
      requires Success?
    {
      value
    }
  }

  /** Domain errors, and the refusals of PostgreSQL and Redis the services pass on. */
  datatype Error =
    | SameAccount
    | InvalidAmount
    | DuplicateTransaction // the Redis gate already holds the key
    | AccountNotFound
    | AccountNotActive
    | InsufficientFunds
    | AmountRejected       // NUMERIC(18,4) overflow, or CHECK (amount > 0)
    | CheckViolation       // chk_different_accounts
    | UniqueViolation      // primary key or idempotency_key
    | ForeignKeyViolation
    | TransactionMissing   // the status update touched no row
    | SerializationFailure
    | DatabaseUnavailable  // any other database error before the commit
    | CommitUnknown        // Commit returned an error; the commit may have happened
    | RedisUnavailable
}
