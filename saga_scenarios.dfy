/** Request sequences against a freshly wired controller, each stating the
    outcome the handlers promise for it. */
module SagaScenarios {
  import opened Wrappers
  import opened Constants
  import opened Dto
  import opened Models
  import opened Outcomes
  import Idempotency
  import Repository
  import External
  import opened Controllers

  /** A new controller over one account, with `key` issued and WAITING. */
  method Wire(key: string, id: int, balance: int) returns (controller: Controller, account: UserAccount)
    requires balance >= 0
    ensures fresh(controller) && fresh(controller.repo) && fresh(controller.external) && fresh(controller.idempotencyStore) && fresh(account)
    ensures controller.Valid()
    ensures controller.repo.users == [account] && account.id == id && account.balance == balance
    ensures controller.repo.transactions == []
    ensures controller.idempotencyStore.keyTable == map[key := Waiting]
    ensures forall amount, direction :: amount > 0 ==>
              ValidRequest(Some(CreateTransactionDto(amount, id, direction)), controller.repo.users)
  {
    account := new UserAccount(id, balance);
    var repo := new Repository.StorageRepository([account]);
    var gateway := new External.Gateway();
    var store := new Idempotency.KeyBasedIdempotencyStore();
    assert [Some(key)][0].value !in store.keyTable;
    var _ := store.CreateNewIdempotencyKey([Some(key)]);
    controller := new Controller(repo, gateway, store);
    assert account in controller.repo.users;
  }

  /** Replaying a credit under the same key is turned away, and the account
      is credited once. */
  method ReplayedCreditAppliesOnce(key: string, id: int, balance: int, amount: int, timestamp: int, random: nat)
    returns (first: Outcome, second: Outcome, finalBalance: int, stored: nat)
    requires key != "" && balance >= 0 && amount > 0
    ensures first.Completed? && first.transaction.amount == amount && first.transaction.status == TransactionSuccess
    ensures second == KeyAlreadySucceeded
    ensures finalBalance == balance + amount
    ensures stored == 1
  {
    var controller, account := Wire(key, id, balance);
    var request := Some(CreateTransactionDto(amount, id, DirectionCredit));
    Repository.EmptyStoreTakesNoReference([(timestamp, random)]);
    first := controller.CreateCreditTransaction(key, request, [(timestamp, random)], true, true);
    second := controller.CreateCreditTransaction(key, request, [(timestamp, random)], true, true);
    finalBalance, stored := account.balance, |controller.repo.transactions|;
  }

  /** A debit of more than the balance is forwarded, then refused by the
      ledger: the balance stays, the key and the record end FAILED. */
  method DebitBeyondBalanceIsRefused(key: string, id: int, balance: int, timestamp: int, random: nat)
    returns (outcome: Outcome, finalBalance: int, status: Result<KeyStatus, Idempotency.KeyError>, record: TransactionStatus)
    requires balance >= 0
    ensures outcome == InsufficientFunds
    ensures finalBalance == balance
    ensures status == Ok(Failed)
    ensures record == TransactionFailed
  {
    var controller, account := Wire(key, id, balance);
    Repository.EmptyStoreTakesNoReference([(timestamp, random)]);
    outcome := controller.CreateDebitTransaction(key, Some(CreateTransactionDto(balance + 1, id, DirectionDebit)),
                                                 [(timestamp, random)], true, true);
    finalBalance := account.balance;
    status := controller.idempotencyStore.CheckIdempotencyKeyStatus(key);
    record := controller.repo.transactions[0].status;
  }

  /** The debit endpoint as written: when the database refuses the pending
      record, the key that was WAITING is left PROCESSING, so every retry
      under it is turned away as still in progress. */
  method DebitPersistenceFailureLeavesKeyProcessing(key: string, id: int, balance: int, amount: int, timestamp: int, random: nat)
    returns (first: Outcome, status: Result<KeyStatus, Idempotency.KeyError>, retry: Outcome)
    requires balance >= 0 && amount > 0
    ensures first == PersistenceError(Repository.DbCreateFailed)
    ensures status == Ok(Processing)
    ensures retry == KeyInProcessing
  {
    var controller, account := Wire(key, id, balance);
    var request := Some(CreateTransactionDto(amount, id, DirectionDebit));
    Repository.EmptyStoreTakesNoReference([(timestamp, random)]);
    first := controller.CreateDebitTransaction(key, request, [(timestamp, random)], false, true);
    status := controller.idempotencyStore.CheckIdempotencyKeyStatus(key);
    retry := controller.CreateDebitTransaction(key, request, [(timestamp, random)], true, true);
  }

  /** With the store failure marking the key, the same request sequence
      leaves the key FAILED and a retry is answered as a failed attempt. */
  method FixedDebitPersistenceFailureMarksKeyFailed(key: string, id: int, balance: int, amount: int, timestamp: int, random: nat)
    returns (first: Outcome, status: Result<KeyStatus, Idempotency.KeyError>, retry: Outcome)
    requires balance >= 0 && amount > 0
    ensures first == PersistenceError(Repository.DbCreateFailed)
    ensures status == Ok(Failed)
    ensures retry == KeyPreviouslyFailed
  {
    var controller, account := Wire(key, id, balance);
    var request := Some(CreateTransactionDto(amount, id, DirectionDebit));
    Repository.EmptyStoreTakesNoReference([(timestamp, random)]);
    first := controller.CreateDebitTransactionFixed(key, request, [(timestamp, random)], false, true);
    status := controller.idempotencyStore.CheckIdempotencyKeyStatus(key);
    retry := controller.CreateDebitTransactionFixed(key, request, [(timestamp, random)], true, true);
  }
}
