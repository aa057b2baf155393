/** The single-endpoint handler of controllers/controllers.go, which predates
    the idempotency key: it validates the body, files a pending record with
    the direction the body names, forwards it, and then debits the account
    when the direction is exactly "debit" and credits it otherwise. */
module LegacyControllers {
  import opened Wrappers
  import opened Constants
  import opened Dto
  import opened Models
  import opened Outcomes
  import Repository
  import External
  import Controllers

  class Controller {
    const repo: Repository.StorageRepository
    const external: External.Gateway

    /** Stored references are unique and no account is overdrawn. */
    ghost predicate Valid()
      reads this, repo, repo.users
    {
      repo.Valid() && forall u :: u in repo.users ==> u.balance >= 0
    }

    constructor (repo: Repository.StorageRepository, external: External.Gateway)
      requires repo.Valid() && forall u :: u in repo.users ==> u.balance >= 0
      ensures this.repo == repo && this.external == external
      ensures Valid()
    {
      this.repo := repo;
      this.external := external;
    }

    /** Forwards a freshly stored pending record and then moves the balance
        in the record's direction; a refused forward or a refused debit marks
        the record failed and leaves the ledger alone. */
    method Settle(account: UserAccount, transaction: Transaction, gatewayAccepts: bool) returns (outcome: Outcome)
      requires Valid()
      requires |repo.transactions| > 0 && transaction == repo.transactions[|repo.transactions| - 1]
      requires account in repo.users && transaction.amount > 0
      modifies repo, external, account
      ensures Valid()
      ensures outcome == if !gatewayAccepts then ExternalForwardingError
                         else if transaction.direction == DirectionDebit && old(account.balance) < transaction.amount then InsufficientFunds
                         else Completed(transaction.(status := TransactionSuccess))
      ensures external.requests == old(external.requests) + [Controllers.Forwarded(transaction)]
      ensures |repo.transactions| == |old(repo.transactions)|
      ensures repo.transactions == old(repo.transactions)[|old(repo.transactions)| - 1 :=
                transaction.(status := if outcome.Completed? then TransactionSuccess else TransactionFailed)]
      ensures account.balance == old(account.balance) + (if !outcome.Completed? then 0
                                                         else if transaction.direction == DirectionDebit then - transaction.amount
                                                         else transaction.amount)
    {
      var forwardErr := external.ForwardTransactionToThirdParty(transaction, gatewayAccepts);
      if forwardErr.Some? {
        var _ := repo.UpdateTransactionStatus(transaction, TransactionFailed);
        return ExternalForwardingError;
      }
      if transaction.direction == DirectionDebit {
        var debitErr := account.Debit(transaction.amount);
        if debitErr.Some? {
          var _ := repo.UpdateTransactionStatus(transaction, TransactionFailed);
          return InsufficientFunds;
        }
      } else {
        account.Credit(transaction.amount);
      }
      var updated := repo.UpdateTransactionStatus(transaction, TransactionSuccess);
      outcome := Completed(updated);
    }

    /** Files a pending record for a validated request and settles it. */
    method FileAndSettle(account: UserAccount, request: CreateTransactionDto, referenceCandidates: seq<(int, nat)>,
                         dbCreateSucceeds: bool, gatewayAccepts: bool) returns (outcome: Outcome)
      requires Valid()
      requires account in repo.users && request.amount > 0
      modifies repo, external, account
      ensures Valid()
      ensures outcome == PersistenceError(Repository.ReferenceExhausted) <==> Repository.AllReferencesTaken(old(repo.transactions), referenceCandidates)
      ensures outcome == PersistenceError(Repository.DbCreateFailed) <==>
                !Repository.AllReferencesTaken(old(repo.transactions), referenceCandidates) && !dbCreateSucceeds
      ensures outcome.PersistenceError? ==>
                repo.transactions == old(repo.transactions) && external.requests == old(external.requests) && account.balance == old(account.balance)
      ensures Controllers.StoreAccepts(old(repo.transactions), referenceCandidates, dbCreateSucceeds) ==>
                Controllers.SettlementDecided(outcome, request.direction == DirectionDebit, old(account.balance), request.amount, gatewayAccepts)
      ensures outcome.Completed? || outcome == ExternalForwardingError || outcome == InsufficientFunds ==>
                Controllers.FiledAndForwarded(old(repo.transactions), repo.transactions, old(external.requests), external.requests,
                                              request, request.direction, referenceCandidates, outcome.Completed?)
      ensures outcome.Completed? ==> outcome.transaction == repo.transactions[|old(repo.transactions)|]
      ensures account.balance == old(account.balance) + (if !outcome.Completed? then 0
                                                         else if request.direction == DirectionDebit then - request.amount
                                                         else request.amount)
      ensures outcome.Completed? || outcome.ExternalForwardingError? || outcome.InsufficientFunds? || outcome.PersistenceError?
    {
      var created := repo.CreateTransaction(request, referenceCandidates, dbCreateSucceeds);
      if created.Err? {
        return PersistenceError(created.error);
      }
      outcome := Settle(account, created.value, gatewayAccepts);
    }

    /** The legacy endpoint: validation in order, then the pending record,
        the forward and the balance change; "debit" is the only direction
        that debits. */
    method CreateTransaction(payload: Option<CreateTransactionDto>, referenceCandidates: seq<(int, nat)>,
                             dbCreateSucceeds: bool, gatewayAccepts: bool) returns (outcome: Outcome)
      requires Valid()
      modifies repo, external, repo.users
      ensures Valid()
      // validation, in order
      ensures outcome == InvalidPayload <==> payload.None?
      ensures payload.Some? ==> (outcome == InvalidAmount <==> payload.value.amount <= 0)
      ensures payload.Some? && payload.value.amount > 0 ==>
                (outcome == AccountNotFound <==> forall u :: u in repo.users ==> u.id != payload.value.accountId)
      // creating the pending record
      ensures outcome == PersistenceError(Repository.ReferenceExhausted) <==>
                Controllers.ValidRequest(payload, repo.users) && Repository.AllReferencesTaken(old(repo.transactions), referenceCandidates)
      ensures outcome == PersistenceError(Repository.DbCreateFailed) <==>
                Controllers.ValidRequest(payload, repo.users)
                && !Repository.AllReferencesTaken(old(repo.transactions), referenceCandidates) && !dbCreateSucceeds
      ensures outcome.InvalidPayload? || outcome.InvalidAmount? || outcome.AccountNotFound? || outcome.PersistenceError? ==>
                repo.transactions == old(repo.transactions) && external.requests == old(external.requests)
      // forwarding, then the ledger
      ensures Controllers.ValidRequest(payload, repo.users) && Controllers.StoreAccepts(old(repo.transactions), referenceCandidates, dbCreateSucceeds) ==>
                (var i := Repository.FirstMatch(repo.users, payload.value.accountId);
                 && i < |repo.users|
                 && Controllers.SettlementDecided(outcome, payload.value.direction == DirectionDebit, old(repo.users[i].balance),
                                                  payload.value.amount, gatewayAccepts))
      ensures outcome.Completed? || outcome == ExternalForwardingError || outcome == InsufficientFunds ==>
                && payload.Some?
                && Controllers.FiledAndForwarded(old(repo.transactions), repo.transactions, old(external.requests), external.requests,
                                                 payload.value, payload.value.direction, referenceCandidates, outcome.Completed?)
      ensures !outcome.Completed? ==> Controllers.BalancesKept(repo.users)
      ensures outcome.Completed? ==>
                && payload.Some?
                && outcome.transaction == repo.transactions[|old(repo.transactions)|]
                && Controllers.OnlyFirstMatchMoved(repo.users, payload.value.accountId, (if payload.value.direction == DirectionDebit then - payload.value.amount else payload.value.amount))
      ensures outcome.Completed? || outcome.ExternalForwardingError? || outcome.InsufficientFunds? || outcome.InvalidPayload?
              || outcome.InvalidAmount? || outcome.AccountNotFound? || outcome.PersistenceError?
    {
      var rejection, account := Controllers.ValidateRequest(repo, payload);
      if rejection.Some? {
        return rejection.value;
      }
      outcome := FileAndSettle(account, payload.value, referenceCandidates, dbCreateSucceeds, gatewayAccepts);
    }
  }

  /** Only the exact string "debit" debits: a request whose direction is
      anything else, "Debit" included, is settled as a credit. */
  method OtherDirectionsCredit(id: int, balance: int, amount: int, direction: string, timestamp: int, random: nat)
    returns (outcome: Outcome, finalBalance: int)
    requires balance >= 0 && amount > 0 && direction != DirectionDebit
    ensures outcome.Completed? && outcome.transaction.direction == direction
    ensures finalBalance == balance + amount
  {
    var account := new UserAccount(id, balance);
    var repo := new Repository.StorageRepository([account]);
    var gateway := new External.Gateway();
    var controller := new Controller(repo, gateway);
    assert account in controller.repo.users;
    Repository.EmptyStoreTakesNoReference([(timestamp, random)]);
    outcome := controller.CreateTransaction(Some(CreateTransactionDto(amount, id, direction)), [(timestamp, random)], true, true);
    finalBalance := account.balance;
  }
}
