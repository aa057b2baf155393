/** Data transfer objects: the decoded request body and the record sent to the
    settlement gateway. Amounts are integer cents. */
module Dto {

  /** The request body of a transaction endpoint; also the shape of the record
      the store is asked to create (`CreateDBTransactionDTO`). */
  datatype CreateTransactionDto = CreateTransactionDto(amount: int, accountId: int, direction: string)

  /** What the gateway receives for a transaction. */
  datatype ForwardTransactionDto = ForwardTransactionDto(reference: string, accountId: int, amount: int)
}
