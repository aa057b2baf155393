/** The values of the Go `constants` package: idempotency-key statuses,
    transaction statuses, transaction directions and the sentinel errors. */
module Constants {

  /** Status of an idempotency key. The store accepts any status string, so a
      status that is none of the four named constants is `Other`. `Other(name)`
      stands only for strings other than those four: a string equal to one of
      them is that constant, and the handlers' status switch treats it as such. */
  datatype KeyStatus = Waiting | Processing | Success | Failed | Other(name: string)

  /** Status of a stored transaction: "pending", "success" or "failed". */
  datatype TransactionStatus = TransactionPending | TransactionSuccess | TransactionFailed

  /** Transaction directions are plain strings in the source; the newer
      handlers write one of these two, the legacy handler copies the request's. */
  const DirectionCredit: string := "credit"
  const DirectionDebit: string := "debit"

  /** The sentinel errors of constants/errors.go. ErrThirdPartyFailure also
      stands for every failure of the settlement gateway, which in the source
      reports its own error values. */
  datatype Error = ErrInsufficientFunds | ErrThirdPartyFailure
}
