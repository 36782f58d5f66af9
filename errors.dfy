/**
 * The errors of the payment engine: the account package's sentinel values,
 * the decimal conversion error, the store's failures, the transaction runner's
 * wrappers and the service's three kinds of client-facing error.
 */
module Errors {

  /** The store operations; a failing one is reported as StoreFailure(op). */
  datatype StoreOp =
    | OpBegin | OpCommit | OpRollback
    | OpGetAccount | OpGetAccounts | OpGetPayments | OpInsertPayment | OpReplaceAccounts

  /** The three kinds a service error is classified into (HTTP 400, 404 and 500). */
  datatype Kind = BadRequest | NotFound | Internal

  datatype Error =
    // the text is not a decimal number
    | DecimalError(text: string)
    // the sentinel values of the account package
    | AccountNotFound
    | MismatchPayment
    | NotEnoughFunds
    | NotPositiveAmount
    | AccountFromMustBePositive
    | AccountToMustBePositive
    | MustBePositive
    | FromAndToMustBeDifferent
    // a failure reported by the store collaborator
    | StoreFailure(op: StoreOp)
    // an operation on a transaction that is no longer open
    | TxDone
    // the runner's wrappers around a failed rollback and a failed commit
    | RollbackFailed(rollbackCause: Error)
    | CommitFailed(commitCause: Error)
    // a client-facing error: its kind and its message
    | ServiceError(kind: Kind, message: Message)

  /** The message formats the service uses, with their arguments. */
  datatype Message =
    | PaymentInvalid(cause: Error)           // the request failed validation
    | GetAccountsFailed(cause: Error)        // fetching both accounts failed
    | ApplyToSenderFailed(cause: Error)      // the sender's balance update failed
    | ApplyToReceiverFailed(cause: Error)    // the receiver's balance update failed
    | ReplaceAccountsFailed(cause: Error)    // storing the updated accounts failed
    | InsertPaymentFailed(cause: Error)      // recording the payment failed
    | InvalidAccountId(id: int)              // a read named a non-positive id
    | GetPaymentsFailed(cause: Error)        // listing the payments failed
    | NoSuchAccount(id: int)                 // the account has no row
    | GetAccountFailed(cause: Error)         // reading the account failed otherwise
}
