/** The transaction saga (controllers/transactions.go): the credit and debit
    handlers that drive the idempotency store, the transaction store, the
    settlement gateway and the ledger. The decoded request body, whether the
    database accepts the new record and whether the gateway accepts the
    forwarded transaction are inputs; the clock and random source reach the
    reference generator as a sequence of candidates. */
module Controllers {
  import opened Wrappers
  import opened Constants
  import opened Dto
  import opened Models
  import opened Outcomes
  import Idempotency
  import Repository
  import External

  /** The handlers go on to process a key that is WAITING, or whose status is
      none of the four the status switch names. */
  ghost predicate Admitted(table: map<string, KeyStatus>, key: string)
  {
    key in table && (table[key] == Waiting || table[key].Other?)
  }

  /** The body decoded, its amount is positive and its account exists. */
  ghost predicate ValidRequest(payload: Option<CreateTransactionDto>, users: seq<UserAccount>)
  {
    payload.Some? && payload.value.amount > 0 && exists u :: u in users && u.id == payload.value.accountId
  }

  /** The store can file a new record: a candidate reference is free and the database accepts it. */
  ghost predicate StoreAccepts(transactions: seq<Transaction>, candidates: seq<(int, nat)>, dbCreateSucceeds: bool)
  {
    dbCreateSucceeds && !Repository.AllReferencesTaken(transactions, candidates)
  }

  /** The status writes an admitted key receives: PROCESSING first when it was
      WAITING, then `rest`. */
  ghost function AdmissionWrites(table: map<string, KeyStatus>, key: string, rest: seq<(string, KeyStatus)>): seq<(string, KeyStatus)>
    requires key in table
  {
    (if table[key] == Waiting then [(key, Processing)] else []) + rest
  }

  /** `t` was created for this request and endpoint under a reference that no
      earlier record holds, formatted from one of the candidates. */
  ghost predicate CreatedFor(t: Transaction, request: CreateTransactionDto, direction: string,
                             before: seq<Transaction>, candidates: seq<(int, nat)>)
  {
    && t.accountId == request.accountId && t.amount == request.amount && t.direction == direction
    && (forall u :: u in before ==> u.reference != t.reference)
    && exists i :: 0 <= i < |candidates| && t.reference == Repository.FormatReference(candidates[i].0, candidates[i].1)
  }

  /** How a filed request is settled: the gateway decides first; a debit
      then needs a balance of at least the amount, a credit needs nothing. */
  ghost predicate SettlementDecided(outcome: Outcome, debits: bool, balanceBefore: int, amount: int, gatewayAccepts: bool)
  {
    && (outcome == ExternalForwardingError <==> !gatewayAccepts)
    && (outcome == InsufficientFunds <==> gatewayAccepts && debits && balanceBefore < amount)
    && (outcome.Completed? <==> gatewayAccepts && (!debits || balanceBefore >= amount))
  }

  /** Exactly one record was appended to the store, created for this request
      and endpoint and ending SUCCESS or FAILED as `completed` says, and the
      gateway was sent exactly that record. */
  ghost predicate FiledAndForwarded(before: seq<Transaction>, after: seq<Transaction>,
                                    sentBefore: seq<ForwardTransactionDto>, sentAfter: seq<ForwardTransactionDto>,
                                    request: CreateTransactionDto, direction: string, candidates: seq<(int, nat)>, completed: bool)
  {
    && |after| == |before| + 1
    && after[..|before|] == before
    && CreatedFor(after[|before|], request, direction, before, candidates)
    && after[|before|].status == (if completed then TransactionSuccess else TransactionFailed)
    && sentAfter == sentBefore + [Forwarded(after[|before|])]
  }

  /** No account's balance moved. */
  twostate predicate BalancesKept(users: seq<UserAccount>)
    reads users
  {
    forall u :: u in users ==> u.balance == old(u.balance)
  }

  /** The first account with this ID moved by `delta` and no other account moved. */
  twostate predicate OnlyFirstMatchMoved(users: seq<UserAccount>, id: int, delta: int)
    reads users
  {
    var i := Repository.FirstMatch(users, id);
    && i < |users|
    && users[i].balance == old(users[i].balance) + delta
    && forall u :: u in users && u != users[i] ==> u.balance == old(u.balance)
  }

  function Forwarded(t: Transaction): ForwardTransactionDto
  {
    ForwardTransactionDto(t.reference, t.accountId, t.amount)
  }

  /** The checks every handler makes of the body, in order: that it decoded,
      that the amount is positive, that the account exists. */
  method ValidateRequest(repo: Repository.StorageRepository, payload: Option<CreateTransactionDto>) returns (rejection: Option<Outcome>, account: UserAccount?)
    ensures rejection == None <==> ValidRequest(payload, repo.users)
    ensures payload.None? ==> rejection == Some(InvalidPayload)
    ensures payload.Some? && payload.value.amount <= 0 ==> rejection == Some(InvalidAmount)
    ensures payload.Some? && payload.value.amount > 0 && (forall u :: u in repo.users ==> u.id != payload.value.accountId) ==>
              rejection == Some(AccountNotFound)
    ensures rejection == None ==>
              && payload.Some?
              && Repository.FirstMatch(repo.users, payload.value.accountId) < |repo.users|
              && account == repo.users[Repository.FirstMatch(repo.users, payload.value.accountId)]
  {
    if payload.None? {
      return Some(InvalidPayload), null;
    }
    if payload.value.amount <= 0 {
      return Some(InvalidAmount), null;
    }
    account := repo.FindAccountById(payload.value.accountId);
    rejection := if account == null then Some(AccountNotFound) else None;
  }

  class Controller {
    const repo: Repository.StorageRepository
    const external: External.Gateway
    const idempotencyStore: Idempotency.KeyBasedIdempotencyStore

    /** Stored references are unique and no account is overdrawn. */
    ghost predicate Valid()
      reads this, repo, repo.users
    {
      repo.Valid() && forall u :: u in repo.users ==> u.balance >= 0
    }

    constructor (repo: Repository.StorageRepository, external: External.Gateway, idempotencyStore: Idempotency.KeyBasedIdempotencyStore)
      requires repo.Valid() && forall u :: u in repo.users ==> u.balance >= 0
      ensures this.repo == repo && this.external == external && this.idempotencyStore == idempotencyStore
      ensures Valid()
    {
      this.repo := repo;
      this.external := external;
      this.idempotencyStore := idempotencyStore;
    }

    /** The status switch both handlers run on a key: an unknown key and a key
        that is SUCCESS, PROCESSING or FAILED are turned away untouched; a
        WAITING key is advanced to PROCESSING; any other status passes as it is. */
    method AdmitKey(key: string) returns (rejection: Option<Outcome>)
      modifies idempotencyStore
      ensures rejection == Some(UnknownKey) <==> key !in old(idempotencyStore.keyTable)
      ensures rejection == Some(KeyAlreadySucceeded) <==> key in old(idempotencyStore.keyTable) && old(idempotencyStore.keyTable)[key] == Success
      ensures rejection == Some(KeyInProcessing) <==> key in old(idempotencyStore.keyTable) && old(idempotencyStore.keyTable)[key] == Processing
      ensures rejection == Some(KeyPreviouslyFailed) <==> key in old(idempotencyStore.keyTable) && old(idempotencyStore.keyTable)[key] == Failed
      ensures rejection == None <==> Admitted(old(idempotencyStore.keyTable), key)
      ensures rejection != None ==> unchanged(idempotencyStore)
      ensures rejection == None ==>
                && idempotencyStore.keyTable == (if old(idempotencyStore.keyTable)[key] == Waiting
                                                 then old(idempotencyStore.keyTable)[key := Processing] else old(idempotencyStore.keyTable))
                && idempotencyStore.updates == old(idempotencyStore.updates) + AdmissionWrites(old(idempotencyStore.keyTable), key, [])
    {
      var status := idempotencyStore.CheckIdempotencyKeyStatus(key);
      if status.Err? {
        return Some(UnknownKey);
      }
      match status.value {
        case Success =>
          return Some(KeyAlreadySucceeded);
        case Waiting =>
          var _ := idempotencyStore.UpdateIdempotencyKeyStatus(key, Processing);
        case Processing =>
          return Some(KeyInProcessing);
        case Failed =>
          return Some(KeyPreviouslyFailed);
        case Other(_) =>
      }
      rejection := None;
    }

    /** Forwards a freshly stored pending credit and, once the gateway accepts
        it, credits the account; the key and the record end SUCCESS on success
        and FAILED otherwise, and a refused forward leaves the ledger alone. */
    method SettleCredit(key: string, account: UserAccount, transaction: Transaction, gatewayAccepts: bool) returns (outcome: Outcome)
      requires Valid()
      requires |repo.transactions| > 0 && transaction == repo.transactions[|repo.transactions| - 1]
      requires account in repo.users && transaction.amount > 0
      modifies idempotencyStore, repo, external, account
      ensures Valid()
      ensures outcome == (if gatewayAccepts then Completed(transaction.(status := TransactionSuccess)) else ExternalForwardingError)
      ensures idempotencyStore.keyTable == old(idempotencyStore.keyTable)[key := if gatewayAccepts then Success else Failed]
              || (key !in old(idempotencyStore.keyTable) && idempotencyStore.keyTable == old(idempotencyStore.keyTable))
      ensures idempotencyStore.updates == old(idempotencyStore.updates) + [(key, if gatewayAccepts then Success else Failed)]
      ensures external.requests == old(external.requests) + [Forwarded(transaction)]
      ensures |repo.transactions| == |old(repo.transactions)|
      ensures repo.transactions == old(repo.transactions)[|old(repo.transactions)| - 1 :=
                transaction.(status := if gatewayAccepts then TransactionSuccess else TransactionFailed)]
      ensures account.balance == old(account.balance) + (if gatewayAccepts then transaction.amount else 0)
    {
      var forwardErr := external.ForwardTransactionToThirdParty(transaction, gatewayAccepts);
      if forwardErr.Some? {
        var _ := idempotencyStore.UpdateIdempotencyKeyStatus(key, Failed);
        var _ := repo.UpdateTransactionStatus(transaction, TransactionFailed);
        return ExternalForwardingError;
      }
      account.Credit(transaction.amount);
      var _ := idempotencyStore.UpdateIdempotencyKeyStatus(key, Success);
      var updated := repo.UpdateTransactionStatus(transaction, TransactionSuccess);
      outcome := Completed(updated);
    }

    /** Files a pending credit for a validated request and settles it; a
        store failure marks the key FAILED and touches nothing else. */
    method FileAndSettleCredit(key: string, account: UserAccount, request: CreateTransactionDto, referenceCandidates: seq<(int, nat)>,
                               dbCreateSucceeds: bool, gatewayAccepts: bool) returns (outcome: Outcome)
      requires Valid() && key in idempotencyStore.keyTable
      requires account in repo.users && request.amount > 0
      modifies idempotencyStore, repo, external, account
      ensures Valid()
      ensures idempotencyStore.keyTable == old(idempotencyStore.keyTable)[key := if outcome.Completed? then Success else Failed]
      ensures idempotencyStore.updates == old(idempotencyStore.updates) + [(key, if outcome.Completed? then Success else Failed)]
      ensures outcome == PersistenceError(Repository.ReferenceExhausted) <==> Repository.AllReferencesTaken(old(repo.transactions), referenceCandidates)
      ensures outcome == PersistenceError(Repository.DbCreateFailed) <==>
                !Repository.AllReferencesTaken(old(repo.transactions), referenceCandidates) && !dbCreateSucceeds
      ensures outcome.PersistenceError? ==>
                repo.transactions == old(repo.transactions) && external.requests == old(external.requests) && account.balance == old(account.balance)
      ensures StoreAccepts(old(repo.transactions), referenceCandidates, dbCreateSucceeds) ==>
                SettlementDecided(outcome, false, old(account.balance), request.amount, gatewayAccepts)
      ensures outcome.Completed? || outcome == ExternalForwardingError ==>
                FiledAndForwarded(old(repo.transactions), repo.transactions, old(external.requests), external.requests,
                                  request, DirectionCredit, referenceCandidates, outcome.Completed?)
      ensures outcome.Completed? ==> outcome.transaction == repo.transactions[|old(repo.transactions)|]
      ensures account.balance == old(account.balance) + (if outcome.Completed? then request.amount else 0)
      ensures outcome.Completed? || outcome.ExternalForwardingError? || outcome.PersistenceError?
    {
      var created := repo.CreateTransaction(CreateTransactionDto(request.amount, request.accountId, DirectionCredit),
                                            referenceCandidates, dbCreateSucceeds);
      if created.Err? {
        var _ := idempotencyStore.UpdateIdempotencyKeyStatus(key, Failed);
        return PersistenceError(created.error);
      }
      outcome := SettleCredit(key, account, created.value, gatewayAccepts);
    }

    /** What the credit handler does once the key is admitted: validate the
        body, file a pending credit, then settle it; every way out marks the
        key, SUCCESS only when the credit completed. */
    method ProcessCredit(key: string, payload: Option<CreateTransactionDto>, referenceCandidates: seq<(int, nat)>,
                         dbCreateSucceeds: bool, gatewayAccepts: bool) returns (outcome: Outcome)
      requires Valid() && key in idempotencyStore.keyTable
      modifies idempotencyStore, repo, external, repo.users
      ensures Valid()
      ensures idempotencyStore.keyTable == old(idempotencyStore.keyTable)[key := if outcome.Completed? then Success else Failed]
      ensures idempotencyStore.updates == old(idempotencyStore.updates) + [(key, if outcome.Completed? then Success else Failed)]
      ensures outcome == InvalidPayload <==> payload.None?
      ensures payload.Some? ==> (outcome == InvalidAmount <==> payload.value.amount <= 0)
      ensures payload.Some? && payload.value.amount > 0 ==>
                (outcome == AccountNotFound <==> forall u :: u in repo.users ==> u.id != payload.value.accountId)
      ensures outcome == PersistenceError(Repository.ReferenceExhausted) <==>
                ValidRequest(payload, repo.users) && Repository.AllReferencesTaken(old(repo.transactions), referenceCandidates)
      ensures outcome == PersistenceError(Repository.DbCreateFailed) <==>
                ValidRequest(payload, repo.users) && !Repository.AllReferencesTaken(old(repo.transactions), referenceCandidates) && !dbCreateSucceeds
      ensures outcome.InvalidPayload? || outcome.InvalidAmount? || outcome.AccountNotFound? || outcome.PersistenceError? ==>
                repo.transactions == old(repo.transactions) && external.requests == old(external.requests) && BalancesKept(repo.users)
      ensures ValidRequest(payload, repo.users) && StoreAccepts(old(repo.transactions), referenceCandidates, dbCreateSucceeds) ==>
                (var i := Repository.FirstMatch(repo.users, payload.value.accountId);
                 && i < |repo.users|
                 && SettlementDecided(outcome, false, old(repo.users[i].balance), payload.value.amount, gatewayAccepts))
      ensures outcome.Completed? || outcome == ExternalForwardingError ==>
                && payload.Some?
                && FiledAndForwarded(old(repo.transactions), repo.transactions, old(external.requests), external.requests,
                                     payload.value, DirectionCredit, referenceCandidates, outcome.Completed?)
      ensures outcome == ExternalForwardingError ==> BalancesKept(repo.users)
      ensures outcome.Completed? ==>
                && payload.Some?
                && outcome.transaction == repo.transactions[|old(repo.transactions)|]
                && OnlyFirstMatchMoved(repo.users, payload.value.accountId, payload.value.amount)
      ensures outcome.Completed? || outcome.ExternalForwardingError? || outcome.InvalidPayload? || outcome.InvalidAmount?
              || outcome.AccountNotFound? || outcome.PersistenceError?
    {
      var rejection, account := ValidateRequest(repo, payload);
      if rejection.Some? {
        var _ := idempotencyStore.UpdateIdempotencyKeyStatus(key, Failed);
        return rejection.value;
      }
      outcome := FileAndSettleCredit(key, account, payload.value, referenceCandidates, dbCreateSucceeds, gatewayAccepts);
    }

    method CreateCreditTransaction(key: string, payload: Option<CreateTransactionDto>, referenceCandidates: seq<(int, nat)>,
                                   dbCreateSucceeds: bool, gatewayAccepts: bool) returns (outcome: Outcome)
      requires Valid()
      modifies idempotencyStore, repo, external, repo.users
      ensures Valid()
      // the key gate
      ensures outcome == MissingIdempotencyKey <==> key == ""
      ensures outcome == UnknownKey <==> key != "" && key !in old(idempotencyStore.keyTable)
      ensures outcome == KeyAlreadySucceeded <==> key != "" && key in old(idempotencyStore.keyTable) && old(idempotencyStore.keyTable)[key] == Success
      ensures outcome == KeyInProcessing <==> key != "" && key in old(idempotencyStore.keyTable) && old(idempotencyStore.keyTable)[key] == Processing
      ensures outcome == KeyPreviouslyFailed <==> key != "" && key in old(idempotencyStore.keyTable) && old(idempotencyStore.keyTable)[key] == Failed
      ensures !(key != "" && Admitted(old(idempotencyStore.keyTable), key)) ==>
                unchanged(idempotencyStore, repo, external) && BalancesKept(repo.users)
      // an admitted key is advanced first and ends SUCCESS or FAILED
      ensures key != "" && Admitted(old(idempotencyStore.keyTable), key) ==>
                && idempotencyStore.keyTable == old(idempotencyStore.keyTable)[key := if outcome.Completed? then Success else Failed]
                && idempotencyStore.updates == old(idempotencyStore.updates)
                   + AdmissionWrites(old(idempotencyStore.keyTable), key, [(key, if outcome.Completed? then Success else Failed)])
      // validation, in order
      ensures key != "" && Admitted(old(idempotencyStore.keyTable), key) ==> (outcome == InvalidPayload <==> payload.None?)
      ensures key != "" && Admitted(old(idempotencyStore.keyTable), key) && payload.Some? ==>
                (outcome == InvalidAmount <==> payload.value.amount <= 0)
      ensures key != "" && Admitted(old(idempotencyStore.keyTable), key) && payload.Some? && payload.value.amount > 0 ==>
                (outcome == AccountNotFound <==> forall u :: u in repo.users ==> u.id != payload.value.accountId)
      // creating the pending record
      ensures outcome == PersistenceError(Repository.ReferenceExhausted) <==>
                key != "" && Admitted(old(idempotencyStore.keyTable), key) && ValidRequest(payload, repo.users)
                && Repository.AllReferencesTaken(old(repo.transactions), referenceCandidates)
      ensures outcome == PersistenceError(Repository.DbCreateFailed) <==>
                key != "" && Admitted(old(idempotencyStore.keyTable), key) && ValidRequest(payload, repo.users)
                && !Repository.AllReferencesTaken(old(repo.transactions), referenceCandidates) && !dbCreateSucceeds
      ensures outcome in {InvalidPayload, InvalidAmount, AccountNotFound} || outcome.PersistenceError? ==>
                repo.transactions == old(repo.transactions) && external.requests == old(external.requests) && BalancesKept(repo.users)
      // forwarding, then the ledger
      ensures key != "" && Admitted(old(idempotencyStore.keyTable), key) && ValidRequest(payload, repo.users)
              && StoreAccepts(old(repo.transactions), referenceCandidates, dbCreateSucceeds) ==>
                (var i := Repository.FirstMatch(repo.users, payload.value.accountId);
                 && i < |repo.users|
                 && SettlementDecided(outcome, false, old(repo.users[i].balance), payload.value.amount, gatewayAccepts))
      ensures outcome.Completed? || outcome == ExternalForwardingError ==>
                && payload.Some?
                && FiledAndForwarded(old(repo.transactions), repo.transactions, old(external.requests), external.requests,
                                     payload.value, DirectionCredit, referenceCandidates, outcome.Completed?)
      ensures outcome == ExternalForwardingError ==> BalancesKept(repo.users)
      ensures outcome.Completed? ==>
                && payload.Some?
                && outcome.transaction == repo.transactions[|old(repo.transactions)|]
                && OnlyFirstMatchMoved(repo.users, payload.value.accountId, payload.value.amount)
      ensures outcome != InsufficientFunds
    {
      if key == "" {
        return MissingIdempotencyKey;
      }
      var keyRejection := AdmitKey(key);
      if keyRejection.Some? {
        return keyRejection.value;
      }

      outcome := ProcessCredit(key, payload, referenceCandidates, dbCreateSucceeds, gatewayAccepts);
    }

    /** Forwards a freshly stored pending debit and, once the gateway accepts
        it, debits the account; a refused forward or a balance below the
        amount marks the key and the record FAILED and leaves the ledger alone. */
    method SettleDebit(key: string, account: UserAccount, transaction: Transaction, gatewayAccepts: bool) returns (outcome: Outcome)
      requires Valid()
      requires |repo.transactions| > 0 && transaction == repo.transactions[|repo.transactions| - 1]
      requires account in repo.users
      modifies idempotencyStore, repo, external, account
      ensures Valid()
      ensures outcome == if !gatewayAccepts then ExternalForwardingError
                         else if old(account.balance) < transaction.amount then InsufficientFunds
                         else Completed(transaction.(status := TransactionSuccess))
      ensures idempotencyStore.keyTable == old(idempotencyStore.keyTable)[key := if outcome.Completed? then Success else Failed]
              || (key !in old(idempotencyStore.keyTable) && idempotencyStore.keyTable == old(idempotencyStore.keyTable))
      ensures idempotencyStore.updates == old(idempotencyStore.updates) + [(key, if outcome.Completed? then Success else Failed)]
      ensures external.requests == old(external.requests) + [Forwarded(transaction)]
      ensures |repo.transactions| == |old(repo.transactions)|
      ensures repo.transactions == old(repo.transactions)[|old(repo.transactions)| - 1 :=
                transaction.(status := if outcome.Completed? then TransactionSuccess else TransactionFailed)]
      ensures account.balance == old(account.balance) - (if outcome.Completed? then transaction.amount else 0)
    {
      var forwardErr := external.ForwardTransactionToThirdParty(transaction, gatewayAccepts);
      if forwardErr.Some? {
        var _ := idempotencyStore.UpdateIdempotencyKeyStatus(key, Failed);
        var _ := repo.UpdateTransactionStatus(transaction, TransactionFailed);
        return ExternalForwardingError;
      }
      var debitErr := account.Debit(transaction.amount);
      if debitErr.Some? {
        var _ := idempotencyStore.UpdateIdempotencyKeyStatus(key, Failed);
        var _ := repo.UpdateTransactionStatus(transaction, TransactionFailed);
        return InsufficientFunds;
      }
      var _ := idempotencyStore.UpdateIdempotencyKeyStatus(key, Success);
      var updated := repo.UpdateTransactionStatus(transaction, TransactionSuccess);
      outcome := Completed(updated);
    }

    /** Files a pending debit for a validated request and settles it. A store
        failure returns at once: the key receives no write and keeps the
        status it was admitted with. */
    method FileAndSettleDebit(key: string, account: UserAccount, request: CreateTransactionDto, referenceCandidates: seq<(int, nat)>,
                              dbCreateSucceeds: bool, gatewayAccepts: bool) returns (outcome: Outcome)
      requires Valid() && key in idempotencyStore.keyTable
      requires account in repo.users
      modifies idempotencyStore, repo, external, account
      ensures Valid()
      ensures outcome.PersistenceError? ==> unchanged(idempotencyStore)
      ensures !outcome.PersistenceError? ==>
                && idempotencyStore.keyTable == old(idempotencyStore.keyTable)[key := if outcome.Completed? then Success else Failed]
                && idempotencyStore.updates == old(idempotencyStore.updates) + [(key, if outcome.Completed? then Success else Failed)]
      ensures outcome == PersistenceError(Repository.ReferenceExhausted) <==> Repository.AllReferencesTaken(old(repo.transactions), referenceCandidates)
      ensures outcome == PersistenceError(Repository.DbCreateFailed) <==>
                !Repository.AllReferencesTaken(old(repo.transactions), referenceCandidates) && !dbCreateSucceeds
      ensures outcome.PersistenceError? ==>
                repo.transactions == old(repo.transactions) && external.requests == old(external.requests) && account.balance == old(account.balance)
      ensures StoreAccepts(old(repo.transactions), referenceCandidates, dbCreateSucceeds) ==>
                SettlementDecided(outcome, true, old(account.balance), request.amount, gatewayAccepts)
      ensures outcome.Completed? || outcome == ExternalForwardingError || outcome == InsufficientFunds ==>
                FiledAndForwarded(old(repo.transactions), repo.transactions, old(external.requests), external.requests,
                                  request, DirectionDebit, referenceCandidates, outcome.Completed?)
      ensures outcome.Completed? ==> outcome.transaction == repo.transactions[|old(repo.transactions)|]
      ensures account.balance == old(account.balance) - (if outcome.Completed? then request.amount else 0)
      ensures outcome.Completed? || outcome.ExternalForwardingError? || outcome.InsufficientFunds? || outcome.PersistenceError?
    {
      var created := repo.CreateTransaction(CreateTransactionDto(request.amount, request.accountId, DirectionDebit),
                                            referenceCandidates, dbCreateSucceeds);
      if created.Err? {
        return PersistenceError(created.error);
      }
      outcome := SettleDebit(key, account, created.value, gatewayAccepts);
    }

    /** What the debit handler does once the key is admitted: validate the
        body, file a pending debit, then settle it. Every way out but a store
        failure marks the key, SUCCESS only when the debit completed. */
    method ProcessDebit(key: string, payload: Option<CreateTransactionDto>, referenceCandidates: seq<(int, nat)>,
                        dbCreateSucceeds: bool, gatewayAccepts: bool) returns (outcome: Outcome)
      requires Valid() && key in idempotencyStore.keyTable
      modifies idempotencyStore, repo, external, repo.users
      ensures Valid()
      ensures outcome.PersistenceError? ==> unchanged(idempotencyStore)
      ensures !outcome.PersistenceError? ==>
                && idempotencyStore.keyTable == old(idempotencyStore.keyTable)[key := if outcome.Completed? then Success else Failed]
                && idempotencyStore.updates == old(idempotencyStore.updates) + [(key, if outcome.Completed? then Success else Failed)]
      ensures outcome == InvalidPayload <==> payload.None?
      ensures payload.Some? ==> (outcome == InvalidAmount <==> payload.value.amount <= 0)
      ensures payload.Some? && payload.value.amount > 0 ==>
                (outcome == AccountNotFound <==> forall u :: u in repo.users ==> u.id != payload.value.accountId)
      ensures outcome == PersistenceError(Repository.ReferenceExhausted) <==>
                ValidRequest(payload, repo.users) && Repository.AllReferencesTaken(old(repo.transactions), referenceCandidates)
      ensures outcome == PersistenceError(Repository.DbCreateFailed) <==>
                ValidRequest(payload, repo.users) && !Repository.AllReferencesTaken(old(repo.transactions), referenceCandidates) && !dbCreateSucceeds
      ensures outcome.InvalidPayload? || outcome.InvalidAmount? || outcome.AccountNotFound? || outcome.PersistenceError? ==>
                repo.transactions == old(repo.transactions) && external.requests == old(external.requests)
                && BalancesKept(repo.users)
      ensures ValidRequest(payload, repo.users) && StoreAccepts(old(repo.transactions), referenceCandidates, dbCreateSucceeds) ==>
                (var i := Repository.FirstMatch(repo.users, payload.value.accountId);
                 && i < |repo.users|
                 && SettlementDecided(outcome, true, old(repo.users[i].balance), payload.value.amount, gatewayAccepts))
      ensures outcome.Completed? || outcome == ExternalForwardingError || outcome == InsufficientFunds ==>
                && payload.Some?
                && FiledAndForwarded(old(repo.transactions), repo.transactions, old(external.requests), external.requests,
                                     payload.value, DirectionDebit, referenceCandidates, outcome.Completed?)
      ensures !outcome.Completed? ==> BalancesKept(repo.users)
      ensures outcome.Completed? ==>
                && payload.Some?
                && outcome.transaction == repo.transactions[|old(repo.transactions)|]
                && OnlyFirstMatchMoved(repo.users, payload.value.accountId, - payload.value.amount)
      ensures outcome.Completed? || outcome.ExternalForwardingError? || outcome.InsufficientFunds? || outcome.InvalidPayload?
              || outcome.InvalidAmount? || outcome.AccountNotFound? || outcome.PersistenceError?
    {
      var rejection, account := ValidateRequest(repo, payload);
      if rejection.Some? {
        var _ := idempotencyStore.UpdateIdempotencyKeyStatus(key, Failed);
        return rejection.value;
      }
      outcome := FileAndSettleDebit(key, account, payload.value, referenceCandidates, dbCreateSucceeds, gatewayAccepts);
    }

    /** The debit endpoint as written: the key is not checked for emptiness
        (an empty key is simply unknown to the store), and a failure to file
        the pending record returns without marking the key, so a key that
        was WAITING is left PROCESSING. */
    method CreateDebitTransaction(key: string, payload: Option<CreateTransactionDto>, referenceCandidates: seq<(int, nat)>,
                                  dbCreateSucceeds: bool, gatewayAccepts: bool) returns (outcome: Outcome)
      requires Valid()
      modifies idempotencyStore, repo, external, repo.users
      ensures Valid()
      // the key gate
      ensures outcome == UnknownKey <==> key !in old(idempotencyStore.keyTable)
      ensures outcome == KeyAlreadySucceeded <==> key in old(idempotencyStore.keyTable) && old(idempotencyStore.keyTable)[key] == Success
      ensures outcome == KeyInProcessing <==> key in old(idempotencyStore.keyTable) && old(idempotencyStore.keyTable)[key] == Processing
      ensures outcome == KeyPreviouslyFailed <==> key in old(idempotencyStore.keyTable) && old(idempotencyStore.keyTable)[key] == Failed
      ensures !Admitted(old(idempotencyStore.keyTable), key) ==>
                unchanged(idempotencyStore, repo, external) && BalancesKept(repo.users)
      // an admitted key is advanced first; it ends SUCCESS or FAILED unless the store failed
      ensures Admitted(old(idempotencyStore.keyTable), key) && outcome.PersistenceError? ==>
                && idempotencyStore.keyTable == old(idempotencyStore.keyTable)[key := if old(idempotencyStore.keyTable)[key] == Waiting then Processing
                                                                                     else old(idempotencyStore.keyTable)[key]]
                && idempotencyStore.updates == old(idempotencyStore.updates) + AdmissionWrites(old(idempotencyStore.keyTable), key, [])
      ensures Admitted(old(idempotencyStore.keyTable), key) && !outcome.PersistenceError? ==>
                && idempotencyStore.keyTable == old(idempotencyStore.keyTable)[key := if outcome.Completed? then Success else Failed]
                && idempotencyStore.updates == old(idempotencyStore.updates)
                   + AdmissionWrites(old(idempotencyStore.keyTable), key, [(key, if outcome.Completed? then Success else Failed)])
      // validation, in order
      ensures Admitted(old(idempotencyStore.keyTable), key) ==> (outcome == InvalidPayload <==> payload.None?)
      ensures Admitted(old(idempotencyStore.keyTable), key) && payload.Some? ==> (outcome == InvalidAmount <==> payload.value.amount <= 0)
      ensures Admitted(old(idempotencyStore.keyTable), key) && payload.Some? && payload.value.amount > 0 ==>
                (outcome == AccountNotFound <==> forall u :: u in repo.users ==> u.id != payload.value.accountId)
      // creating the pending record
      ensures outcome == PersistenceError(Repository.ReferenceExhausted) <==>
                Admitted(old(idempotencyStore.keyTable), key) && ValidRequest(payload, repo.users)
                && Repository.AllReferencesTaken(old(repo.transactions), referenceCandidates)
      ensures outcome == PersistenceError(Repository.DbCreateFailed) <==>
                Admitted(old(idempotencyStore.keyTable), key) && ValidRequest(payload, repo.users)
                && !Repository.AllReferencesTaken(old(repo.transactions), referenceCandidates) && !dbCreateSucceeds
      ensures outcome.InvalidPayload? || outcome.InvalidAmount? || outcome.AccountNotFound? || outcome.PersistenceError? ==>
                repo.transactions == old(repo.transactions) && external.requests == old(external.requests)
      // forwarding, then the ledger
      ensures Admitted(old(idempotencyStore.keyTable), key) && ValidRequest(payload, repo.users)
              && StoreAccepts(old(repo.transactions), referenceCandidates, dbCreateSucceeds) ==>
                (var i := Repository.FirstMatch(repo.users, payload.value.accountId);
                 && i < |repo.users|
                 && SettlementDecided(outcome, true, old(repo.users[i].balance), payload.value.amount, gatewayAccepts))
      ensures outcome.Completed? || outcome == ExternalForwardingError || outcome == InsufficientFunds ==>
                && payload.Some?
                && FiledAndForwarded(old(repo.transactions), repo.transactions, old(external.requests), external.requests,
                                     payload.value, DirectionDebit, referenceCandidates, outcome.Completed?)
      ensures !outcome.Completed? ==> BalancesKept(repo.users)
      ensures outcome.Completed? ==>
                && payload.Some?
                && outcome.transaction == repo.transactions[|old(repo.transactions)|]
                && OnlyFirstMatchMoved(repo.users, payload.value.accountId, - payload.value.amount)
      ensures outcome != MissingIdempotencyKey
    {
      var keyRejection := AdmitKey(key);
      if keyRejection.Some? {
        return keyRejection.value;
      }
      assert BalancesKept(repo.users);
      outcome := ProcessDebit(key, payload, referenceCandidates, dbCreateSucceeds, gatewayAccepts);
    }

    /** The debit endpoint with a store failure marking the key FAILED, as the
        credit endpoint does: every admitted key then ends SUCCESS or FAILED. */
    method CreateDebitTransactionFixed(key: string, payload: Option<CreateTransactionDto>, referenceCandidates: seq<(int, nat)>,
                                       dbCreateSucceeds: bool, gatewayAccepts: bool) returns (outcome: Outcome)
      requires Valid()
      modifies idempotencyStore, repo, external, repo.users
      ensures Valid()
      ensures outcome == UnknownKey <==> key !in old(idempotencyStore.keyTable)
      ensures outcome == KeyAlreadySucceeded <==> key in old(idempotencyStore.keyTable) && old(idempotencyStore.keyTable)[key] == Success
      ensures outcome == KeyInProcessing <==> key in old(idempotencyStore.keyTable) && old(idempotencyStore.keyTable)[key] == Processing
      ensures outcome == KeyPreviouslyFailed <==> key in old(idempotencyStore.keyTable) && old(idempotencyStore.keyTable)[key] == Failed
      ensures !Admitted(old(idempotencyStore.keyTable), key) ==>
                unchanged(idempotencyStore, repo, external) && BalancesKept(repo.users)
      ensures Admitted(old(idempotencyStore.keyTable), key) ==>
                && idempotencyStore.keyTable == old(idempotencyStore.keyTable)[key := if outcome.Completed? then Success else Failed]
                && idempotencyStore.updates == old(idempotencyStore.updates)
                   + AdmissionWrites(old(idempotencyStore.keyTable), key, [(key, if outcome.Completed? then Success else Failed)])
      ensures outcome == PersistenceError(Repository.ReferenceExhausted) <==>
                Admitted(old(idempotencyStore.keyTable), key) && ValidRequest(payload, repo.users)
                && Repository.AllReferencesTaken(old(repo.transactions), referenceCandidates)
      ensures outcome == PersistenceError(Repository.DbCreateFailed) <==>
                Admitted(old(idempotencyStore.keyTable), key) && ValidRequest(payload, repo.users)
                && !Repository.AllReferencesTaken(old(repo.transactions), referenceCandidates) && !dbCreateSucceeds
      ensures Admitted(old(idempotencyStore.keyTable), key) ==> (outcome == InvalidPayload <==> payload.None?)
      ensures Admitted(old(idempotencyStore.keyTable), key) && payload.Some? ==> (outcome == InvalidAmount <==> payload.value.amount <= 0)
      ensures Admitted(old(idempotencyStore.keyTable), key) && payload.Some? && payload.value.amount > 0 ==>
                (outcome == AccountNotFound <==> forall u :: u in repo.users ==> u.id != payload.value.accountId)
      ensures outcome.InvalidPayload? || outcome.InvalidAmount? || outcome.AccountNotFound? || outcome.PersistenceError? ==>
                repo.transactions == old(repo.transactions) && external.requests == old(external.requests)
      ensures Admitted(old(idempotencyStore.keyTable), key) && ValidRequest(payload, repo.users)
              && StoreAccepts(old(repo.transactions), referenceCandidates, dbCreateSucceeds) ==>
                (var i := Repository.FirstMatch(repo.users, payload.value.accountId);
                 && i < |repo.users|
                 && SettlementDecided(outcome, true, old(repo.users[i].balance), payload.value.amount, gatewayAccepts))
      ensures outcome.Completed? || outcome == ExternalForwardingError || outcome == InsufficientFunds ==>
                && payload.Some?
                && FiledAndForwarded(old(repo.transactions), repo.transactions, old(external.requests), external.requests,
                                     payload.value, DirectionDebit, referenceCandidates, outcome.Completed?)
      ensures !outcome.Completed? ==> BalancesKept(repo.users)
      ensures outcome.Completed? ==>
                && payload.Some?
                && outcome.transaction == repo.transactions[|old(repo.transactions)|]
                && OnlyFirstMatchMoved(repo.users, payload.value.accountId, - payload.value.amount)
      ensures outcome != MissingIdempotencyKey
    {
      outcome := CreateDebitTransaction(key, payload, referenceCandidates, dbCreateSucceeds, gatewayAccepts);
      if outcome.PersistenceError? {
        var _ := idempotencyStore.UpdateIdempotencyKeyStatus(key, Failed);
      }
    }
  }
}
