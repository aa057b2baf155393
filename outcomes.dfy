/** What a transaction handler reports to its caller, in place of an HTTP
    status and message. */
module Outcomes {
  import opened Models
  import Repository

  datatype Outcome =
    | Completed(transaction: Transaction)
    | MissingIdempotencyKey
    | UnknownKey
    | KeyAlreadySucceeded
    | KeyInProcessing
    | KeyPreviouslyFailed
    | InvalidPayload
    | InvalidAmount
    | AccountNotFound
    | PersistenceError(cause: Repository.StoreError)
    | ExternalForwardingError
    | InsufficientFunds
}
