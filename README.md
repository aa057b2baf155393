# Simple banking saga, modelled in Dafny

This project models the core of a small banking service written in Go. The
service accepts credit and debit requests for user accounts. Each request runs
as a saga:

1. An **idempotency key** is issued by a key registry and checked before any
   work starts. A key is WAITING, PROCESSING, SUCCESS or FAILED.
2. The request body is validated.
3. A **pending transaction** is filed under a fresh `TRX-<timestamp>-<random>`
   reference.
4. The transaction is forwarded to a **third-party settlement gateway**.
5. The **ledger** is credited or debited.
6. The key and the transaction are marked SUCCESS or FAILED.

There is also an older single endpoint that predates the key registry. It
picks credit or debit from a direction field in the request.

Every stateful part of the source is a Dafny class that is updated in place:

- `Idempotency.KeyBasedIdempotencyStore` holds the key table, a map.
- `Repository.StorageRepository` holds the account list and the transaction
  table, a sequence that stands in for the database.
- `Models.UserAccount` holds a mutable balance.
- `External.Gateway` keeps a record of every forwarded request.
- `Controllers.Controller` and `LegacyControllers.Controller` wire them together.

Each handler is proved against a contract that covers every branch of the
source:

- the outcome of the key gate;
- the validation outcomes, in order;
- persistence failures;
- forwarding failures;
- insufficient funds;
- success;
- the full new state: the key table, the log of key-status writes, the
  transaction table, the forwarded requests and every balance.

The controllers keep a class invariant: stored references are distinct, and no
account balance is ever negative.

Amounts and balances are integer cents. Some values come from outside the
program; the caller supplies them as parameters:

- the UUID source: a sequence of candidate keys, where `None` stands for a
  generator error;
- the clock and random source: a sequence of `(timestamp, random)` candidates;
- whether the database accepts a new record: a boolean;
- whether the gateway accepts a forwarded transaction: a boolean;
- the decoded request body: an `Option`, where `None` stands for a body that
  does not decode.

What a handler reports is the datatype `Outcomes.Outcome`, in place of an HTTP
status and message.

Files:

- `wrappers.dfy`: `Option` and `Result`.
- `constants.dfy`: key statuses, transaction statuses, directions and sentinel
  errors.
- `dto.dfy`: the request body and the gateway record.
- `models.dfy`: the transaction record and the account ledger.
- `idempotency.dfy`: the key registry and a model of its interface.
- `repository.dfy`: the reference format and the transaction store.
- `external.dfy`: the gateway.
- `outcomes.dfy`: handler outcomes.
- `transactions.dfy`: the credit and debit handlers.
- `saga_scenarios.dfy`: request sequences against a freshly wired controller.
- `legacy_controllers.dfy`: the legacy endpoint.

## Model

| member | source | states |
|---|---|---|
| Models.UserAccount.Credit | models/user-account.go:19-28 | the balance grows by exactly the amount |
| Models.UserAccount.Debit | models/user-account.go:30-42 | it succeeds iff the balance is at least the amount, and then subtracts exactly the amount; otherwise it returns ErrInsufficientFunds and leaves the balance as it was; a non-negative balance stays non-negative |
| Models.CreditThenDebitRestores | models/user-account.go:15-42 | crediting and then debiting the same amount on a non-negative balance succeeds and restores the balance; the ID never changes |
| Models.DebitWholeBalance | models/user-account.go:35-39 | debiting exactly the whole balance is allowed, because the comparison is strict, and leaves zero |
| Models.DebitBeyondBalance | models/user-account.go:35-38 | debiting one cent more than the balance is refused and changes nothing |
| Idempotency.KeyBasedIdempotencyStore.constructor | idempotency/idempotency-store.go:16-18 | a new store has an empty key table |
| Idempotency.KeyBasedIdempotencyStore.GenerateIdempotencyKey | idempotency/idempotency.go:10-24 | the result is the first candidate that is not yet a key, and a generator error ends the search; the search is exhausted iff every candidate is already a key; the table is only read |
| Idempotency.KeyBasedIdempotencyStore.CreateNewIdempotencyKey | idempotency/idempotency.go:26-35 | a key that was absent is inserted at WAITING, and every other entry stays; on error the table is unchanged |
| Idempotency.KeyBasedIdempotencyStore.CheckIdempotencyKeyStatus | idempotency/idempotency.go:43-51 | a present key gives its stored status and an absent key an error; the table is not modified |
| Idempotency.KeyBasedIdempotencyStore.UpdateIdempotencyKeyStatus | idempotency/idempotency.go:53-62 | a present key is overwritten with any status; an absent key is an error and nothing is inserted; the set of keys never changes |
| Idempotency.KeyBasedIdempotencyStore.ConfirmIdempotencyKeyAsProcessed | idempotency/idempotency.go:37-41 | exactly that key is removed; for an absent key this is a no-op |
| Idempotency.InterfaceNeverRemovesKeys | idempotency/idempotency-store.go:5-9 | along any run of create, check and update calls, every key of an earlier table is a key of every later table |
| Idempotency.ConfirmIsOutsideTheInterface | idempotency/idempotency.go:37-41 | removing any present key from any table is not an effect any create, check or update call can have |
| Idempotency.FreshStoreKnowsNoKey | idempotency/idempotency-store.go:16-18 | on a fresh store, check and update fail for every key |
| Idempotency.UpdateEnforcesNoTransition | idempotency/idempotency.go:53-62 | a created key starts at WAITING, and any status can then be written over any status, SUCCESS back to WAITING included |
| Idempotency.ConfirmedKeyIsUnknown | idempotency/idempotency.go:37-51 | after a key is confirmed as processed, checking it fails |
| Repository.NatToDecimal | repository/storage-repository.go:31 | `%d` of a non-negative number is a non-empty string of decimal digits |
| Repository.DecimalRoundTrip | repository/storage-repository.go:31 | the decimal digits printed for a number read back as that number |
| Repository.SignedDecimalRoundTrip | repository/storage-repository.go:31 | `%d` of a signed number starts with a minus exactly when the number is negative, and the digits after it read back as its magnitude |
| Repository.FormatReference | repository/storage-repository.go:31 | every reference starts with the prefix `TRX-` and has more after it |
| Repository.FormatReferenceInjective | repository/storage-repository.go:31 | two `TRX-<timestamp>-<random>` references are equal iff their timestamps and their random numbers are equal |
| Repository.StorageRepository.constructor | repository/storage-repository.go:18-20 | a new store holds the given accounts over an empty in-memory transaction table, so it starts valid |
| Repository.FirstMatch | repository/storage-repository.go:40-51 | the position of the first account with the ID, or the list's length exactly when no account has it |
| Repository.StorageRepository.FindAccountById | repository/storage-repository.go:40-51 | the first account whose ID matches, or null when there is none |
| Repository.FirstWithReference | repository/storage-repository.go:70-83 | the first record with the reference, or nothing exactly when no record has it |
| Repository.StorageRepository.FetchTransactionDetailsByReference | repository/storage-repository.go:70-83 | a stored record with that reference, or nothing exactly when the reference is empty or no stored record has it |
| Repository.StorageRepository.GenerateTransactionReference | repository/storage-repository.go:22-38 | the result is formatted from the first candidate that no stored record holds, so it is held by no stored record; the search is exhausted iff every candidate is taken |
| Repository.EmptyStoreTakesNoReference | repository/storage-repository.go:34-37 | in an empty store the first candidate reference is free |
| Repository.StorageRepository.CreateTransaction | repository/storage-repository.go:53-63 | a pending record is appended whose account, amount and direction are copied from the request, under a fresh reference formatted from a candidate; it succeeds iff a candidate is free and the database accepts the record, and a failure leaves the table as it was; references stay distinct |
| Repository.StorageRepository.UpdateTransactionStatus | repository/storage-repository.go:65-68 | only the status of the given record changes; every other field and every other record stays |
| Repository.SuccessiveCreationsHaveDistinctReferences | repository/storage-repository.go:34-37 | two successive creations on one store get different references |
| External.Gateway.ForwardTransactionToThirdParty | external/external.go:52-58 | the reference, account and amount are sent; the call fails with ErrThirdPartyFailure iff the third party does not accept them |
| Controllers.Controller.constructor | controllers/transactions.go:23-25 | the controller is wired to the given store, gateway and key registry and starts in its invariant; it requires a store whose references are non-empty and distinct and whose balances are non-negative, which the source does not ask for |
| Controllers.ValidateRequest | controllers/transactions.go:56-78 | the checks run in order: a body that did not decode, then an amount of zero or less, then an unknown account; passing all three yields the first account with the ID |
| Controllers.Controller.AdmitKey | controllers/transactions.go:38-55 | an unknown key, or a key that is SUCCESS, PROCESSING or FAILED, is turned away with the table untouched; a WAITING key is advanced to PROCESSING; any other status passes unchanged |
| Controllers.Controller.SettleCredit | controllers/transactions.go:91-110 | the transaction is forwarded; a refused forward marks the key and the record FAILED and leaves the balance alone; an accepted one credits exactly the amount and marks both SUCCESS |
| Controllers.Controller.FileAndSettleCredit | controllers/transactions.go:79-110 | a store failure marks the key FAILED and touches nothing else; otherwise the outcome follows the gateway, and a new credit record ends SUCCESS or FAILED with the balance moved only on success |
| Controllers.Controller.ProcessCredit | controllers/transactions.go:56-110 | validation in order, then filing, then settlement; every way out marks the key, SUCCESS exactly when the credit completed |
| Controllers.Controller.CreateCreditTransaction | controllers/transactions.go:32-111 | an empty key, an unknown key or a key already SUCCESS, PROCESSING or FAILED is rejected with no state changed; an admitted key is advanced to PROCESSING first and always ends SUCCESS or FAILED; invalid bodies and store failures create and forward nothing; forwarding precedes the ledger; on success a record with direction "credit" ends SUCCESS and exactly the first matching account gains exactly the amount |
| Controllers.Controller.SettleDebit | controllers/transactions.go:167-185 | the transaction is forwarded first; a refused forward, or a balance below the amount, marks the key and the record FAILED and leaves the balance alone; otherwise exactly the amount is debited and both end SUCCESS |
| Controllers.Controller.FileAndSettleDebit | controllers/transactions.go:156-185 | a store failure returns without writing the key or anything else; otherwise the outcome is decided by the gateway and then by the balance |
| Controllers.Controller.ProcessDebit | controllers/transactions.go:134-185 | validation in order, then filing, then settlement; every way out except a store failure marks the key |
| Controllers.Controller.CreateDebitTransaction | controllers/transactions.go:113-186 | no emptiness check on the key; an unknown or SUCCESS/PROCESSING/FAILED key is rejected with no state changed; a store failure leaves an admitted key at the status it was admitted with; insufficient funds is reported after the forward, with the key and the record FAILED and no balance changed; on success a "debit" record ends SUCCESS and exactly the first matching account loses exactly the amount |
| Controllers.Controller.CreateDebitTransactionFixed | controllers/transactions.go:113-186 | with the store failure at lines 162-166 marking the key, every admitted key ends SUCCESS or FAILED; everything else is as in the debit endpoint: the same key gate, validation in order, store failures that file and forward nothing, the gateway and then the balance deciding the outcome, and on success exactly the first matching account losing exactly the amount |
| SagaScenarios.ReplayedCreditAppliesOnce | controllers/transactions.go:43-48 | a credit replayed under the same key is reported as already processed, and the account is credited once with one record stored |
| SagaScenarios.DebitBeyondBalanceIsRefused | controllers/transactions.go:168-181 | a debit of more than the balance ends as insufficient funds, with the balance kept and the key and the record FAILED |
| SagaScenarios.DebitPersistenceFailureLeavesKeyProcessing | controllers/transactions.go:162-166 | as written, a refused record leaves a WAITING key at PROCESSING, and a retry under the key is turned away as still in progress |
| SagaScenarios.FixedDebitPersistenceFailureMarksKeyFailed | controllers/transactions.go:162-166 | with the fix, the same sequence leaves the key FAILED, and the retry is answered as a failed attempt |
| LegacyControllers.Controller.constructor | controllers/controllers.go:19-21 | the controller is wired to the given store and gateway and starts in its invariant; it requires a store whose references are non-empty and distinct and whose balances are non-negative, which the source does not ask for |
| LegacyControllers.Controller.Settle | controllers/controllers.go:48-67 | a refused forward marks the record failed; then "debit" debits, and a refused debit marks the record failed; any other direction credits; the ledger moves only when the record ends success |
| LegacyControllers.Controller.FileAndSettle | controllers/controllers.go:43-67 | a store failure changes nothing; otherwise the record is created with the direction the request names and is settled |
| LegacyControllers.Controller.CreateTransaction | controllers/controllers.go:23-68 | validation in order with no side effect on failure; a forwarding failure or a refused debit leaves every balance unchanged; on success exactly the first matching account moves by the amount, down for "debit" and up for any other direction |
| LegacyControllers.OtherDirectionsCredit | controllers/controllers.go:55-64 | a direction other than exactly "debit" is settled as a credit |

## Left out

- HTTP layer: header reading, JSON decoding, the response helpers and status codes are not modelled. Handlers return an `Outcome` value. The source's status codes are inconsistent between the two endpoints for a FAILED key; that does not affect any modelled side effect.
- Concurrency: the mutexes of the account and the key store are not modelled, and neither is the race between checking a key and advancing it. The model is single-threaded.
- Key creation deadlock: `CreateNewIdempotencyKey` takes the store's lock and then calls the generator, which takes the same non-reentrant lock again (idempotency/idempotency.go:27, 17). The model runs the two as one critical section.
- Unbounded retries: the key generator and the reference generator retry by unbounded recursion. The model runs a bounded loop over supplied candidates and reports exhaustion as an error (`KeyGenerationExhausted`, `ReferenceExhausted`). The source has no such errors.
- Foreign calls: `uuid.NewUUID`, `time.Now` and `rand.Int63` become candidate sequences. The gorm database becomes an in-memory table. `DB.Create` failing becomes a boolean input. The database errors of `DB.Save` are ignored by every handler and are not modelled.
- Lookup errors: in `FetchTransactionDetailsByReference`, a lookup error other than "not found" is only logged (repository/storage-repository.go:77). The model's in-memory lookup cannot fail.
- Floating point: amounts are `float64` in the source and balances are decimals rounded to cents. The model uses integer cents throughout. The source has a rounding gap that this drops: validation uses the unrounded amount while the ledger rounds, so an amount such as 0.001 passes validation and credits nothing.
- Models.UserAccount.Credit: this does not model rounding the amount to cents, because amounts are already integer cents. Its `error` result is always nil in the source, so the handler's branch for a failed credit (controllers/transactions.go:101-106) is unreachable and not modelled.
- Repository.StorageRepository.UpdateTransactionStatus: this requires that the record is already stored, because every handler passes the record it has just created. The source mutates that record through a pointer and saves it. The model replaces the stored entry and returns the updated value.
- Status values: the source writes the key statuses SUCCESS and FAILED as transaction statuses too. The model gives transactions their own status type ("pending", "success", "failed").
- Gateway transport: the HTTP transport and JSON marshalling of the gateway (external/external.go, mock/client.go) are not modelled. Whether the gateway accepts a transaction is an input. `FetchTransactionDetailsFromThirdParty` is not called by the core and is not modelled.
- Stub handlers: `FetchTransactionDetails`, `FetchUserAccountDetails` and `Hello` are empty or trivial and are not modelled.
- Legacy root package: controllers.go, repository.go, structs.go, external.go, db.go and routes.go at the repository root are an earlier prototype using float balances. They are not part of this model.
- repository/repository.go: it duplicates the storage repository and does not compile against the current account type. It is not part of this model.
- Controllers.Controller.constructor: requires a starting state the source does not check, because the handlers' contracts rest on it as a class invariant: stored references are non-empty and distinct, and no balance is negative. The handlers' contracts hold for any store in that state. The source's accounts meet it: they start at 400.0 on every run (repository/mock-db.go:10-14). Its transaction table is the sqlite file `db.sqlite` (config/db.go:16, wrapped at main.go:26-29), which keeps the records of earlier runs. Every one of those references was written as `TRX-<timestamp>-<random>` after the same collision check against the table (repository/storage-repository.go:31-37), so in a single-threaded history they are non-empty and distinct.
- LegacyControllers.Controller.constructor: requires the same starting state, for the same reason.
- Repository.StorageRepository.constructor: the model's table always starts empty. The source's table starts with whatever `db.sqlite` already holds, so a store that starts with records cannot be built in the model. The handler contracts still cover any store that satisfies `Valid()`.
- Bootstrap and routing: main.go, routes/routes.go and config/db.go are not part of this model. The account fixtures of repository/mock-db.go are replaced by the account sequence a store is built with.

## Findings

| source | as written | input that shows it | evidently intended | confidence | as-written member | corrected member |
|---|---|---|---|---|---|---|
| controllers/transactions.go:162-166 | when the store fails to file the pending debit, the handler returns without writing the key, so a key admitted as WAITING is left at PROCESSING and every retry under it is refused as still in progress | a WAITING key, a valid debit of a positive amount on an existing account, and a database that refuses the record | mark the key FAILED, as the credit endpoint does at controllers/transactions.go:86-89 and as the unit test at tests/unit/controllers/transactions_test.go:137 expects | not executed | SagaScenarios.DebitPersistenceFailureLeavesKeyProcessing | Controllers.Controller.CreateDebitTransactionFixed |
