/** The settlement gateway (external/external.go) at its interface boundary:
    whether the third party accepts a forwarded transaction is supplied by the
    caller; the gateway keeps a log of what it was sent. */
module External {
  import opened Wrappers
  import opened Constants
  import opened Dto
  import opened Models

  class Gateway {
    /** Every forwarding request sent, oldest first. */
    ghost var requests: seq<ForwardTransactionDto>

    constructor ()
      ensures requests == []
    {
      requests := [];
    }

    /** Sends the transaction's reference, account and amount; fails when the
        third party does not accept it. Every failure of the source's gateway
        is folded into the one error ErrThirdPartyFailure: the gateway's own
        non-200 error (external/external.go:17, 74-77), and the marshalling,
        request and transport errors it passes on (external/external.go:59-73).
        No handler tells these errors apart. */
    method ForwardTransactionToThirdParty(transaction: Transaction, accepted: bool) returns (err: Option<Error>)
      modifies this
      ensures requests == old(requests) + [ForwardTransactionDto(transaction.reference, transaction.accountId, transaction.amount)]
      ensures err == None <==> accepted
      ensures err != None ==> err == Some(ErrThirdPartyFailure)
    {
      requests := requests + [ForwardTransactionDto(transaction.reference, transaction.accountId, transaction.amount)];
      err := if accepted then None else Some(ErrThirdPartyFailure);
    }
  }
}
