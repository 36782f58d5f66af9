# Wallet service payment engine, in Dafny

This project models the payment engine of the wallet service and proves properties of the model. It covers:

- the account and payment domain (`internal/account`);
- the service that applies a payment to two accounts and reads accounts and payments (`internal/walletservice/service.go`);
- the transaction runner it uses (`internal/storage/transactional.go`).

Modules, one per concern:

| module | file | what it holds |
|---|---|---|
| `Wrappers` | wrappers.dfy | `Option` and `Result` |
| `Money` | money.dfy | Exact decimals (integer mantissa and scale). The parser for decimal text, the comparison, exact addition and subtraction, rounding to hundredths, and the two-decimal rendering of `StringFixed(2)`. |
| `Errors` | errors.dfy | The sentinel errors, store failures, the runner's commit and rollback wrappers, and the three kinds of service error (BadRequest, NotFound, Internal). |
| `Times` | times.dfy | Opaque timestamps, and the clock as a class that counts its readings. |
| `Payments` | payment.dfy | `Payment`, `PaymentRequest`, request validation and `ToPayment`. |
| `Accounts` | account.dfy | The `Account` class, its in-place `ApplyPayment`, the value-level `Apply` that specifies it, and `ValidateAccountID`. |
| `Storage` | storage.dfy | The store as an in-memory collaborator, described below. |
| `Transfer` | transfer.dfy | The transaction callback of `ApplyPayment` and `getAccountsByPayment`, including its fetch loop. |
| `Transactional` | transactional.dfy | `ExecTx`: begin, run the callback, then commit or roll back. The deferred rollback may rewrite the result. |
| `Service` | service.dfy | The `WalletService` class: `ApplyPayment`, `GetAccount` and `GetPayments`. |
| `AccountExamples`, `ServiceExamples` | account_examples.dfy, service_examples.dfy | The rows of the packages' test tables, restated as lemmas about the model. |

The store in `Storage` holds:

- account rows keyed by id;
- payments in insertion order;
- at most one open transaction, whose writes are staged;
- a log of every call made.

A call goes through a handle: `Db` works on the committed data directly, and `Tx` works inside the open transaction. A fixed set of operations fails whenever called. Every store operation is a function from the old state to the new state and a result. `MemStore` is a class whose methods apply those functions to its state. The service, the transfer body and the runner are methods over `MemStore` and `Clock` objects. Each method is proved equal to a specification function (`ApplyPaymentSpec`, `PaymentTx`, `ExecTxSpec`, `GetAccountSpec`, `GetPaymentsSpec`). The properties are lemmas about those functions.

When a payment names one stored account as both sender and receiver, the fetch loop hands back one shared object for both. The model keeps that alias (`Transfer.Aliased`, `Transfer.Updated`): the payment is applied twice to the one balance, the second time from the first result.

Where the code and the design description disagree, the model follows the code:

- A failed rollback replaces the original error (transactional.go:67-70). It does not stay subordinate to it.
- Every account the fetch has to create reads the clock again (service.go:104, 108). It is not stamped with the payment's time.

## Model

| member | source | states |
|---|---|---|
| Money.ParseAcceptsGrammar | internal/account/account.go:24-31 | Decimal text is accepted exactly when it is an optional '-' followed by digits, or by digits '.' digits. |
| Money.ParseRejectsComma | internal/account/account_test.go:155-188 | Any text containing a comma is not a decimal. |
| Money.ParseWhole | internal/account/account.go:24-31 | Digits alone parse to their value at scale 0. With a leading '-' they parse to its negation. |
| Money.ParseNat | internal/account/account.go:24-31 | The shortest decimal rendering of a natural number parses to that number at scale 0. |
| Money.ParseNatFraction | internal/account/account.go:24-31 | "w.f", with w and f rendered in digits, parses to w·10^k + f at scale k, k being the number of digits of f. |
| Money.DigitsValueAppend | internal/account/account.go:24-31 | The value of two digit strings joined is the first one's value shifted left by the second one's length, plus the second one's value. |
| Money.NatDigitsCanonical | internal/account/account.go:38-41 | Digit text with no leading zero is the rendering of its own value. |
| Money.LessIsNegativeDifference | internal/account/account.go:35 | `LessThan` holds exactly when the exact difference is negative. |
| Money.RoundIsNearest | internal/account/account.go:38-41 | The rounded hundredths are a nearest hundredth to the exact value. Of two equally near, it is the one farther from zero. |
| Money.RoundsToUnique | internal/account/account.go:38-41 | Only one count of hundredths is nearest in that sense, so the rounding rule defines the result. |
| Money.RoundNonNegative | internal/account/account.go:38 | A non-negative value rounds to non-negative hundredths. |
| Money.FormatRoundTrip | internal/account/account.go:38-41 | The two-decimal rendering of c hundredths has two fractional digits and parses back to exactly c hundredths. |
| Money.FormatWhole | internal/account/account.go:38-41 | A whole number n of units, that is 100·n hundredths, is written as n's digits followed by ".00". |
| Money.SubCents | internal/account/account.go:38 | Subtracting amounts in whole hundredths needs no rounding. |
| Money.AddCents | internal/account/account.go:41 | Adding amounts in whole hundredths needs no rounding. |
| Money.RoundExact | internal/account/account.go:38-41 | A value with at most two fractional digits is rounded to two places without change. |
| Accounts.Account.Create | internal/account/account.go:15-21 | A new account has the given id and creation time and the balance "1000". |
| Accounts.Account.Load | internal/storage/storage.go:70-77 | The account object built for a stored row holds exactly that row. |
| Times.Clock.Now | internal/walletservice/service.go:25-36 | Each call of `now` returns the clock's next reading and counts the call. |
| Accounts.Account.ApplyPayment | internal/account/account.go:23-48 | Only the balance changes, and only on success, where it becomes Apply's text. On failure the error is Apply's and the balance is as before. |
| Accounts.ApplyMalformed | internal/account/account.go:24-31 | A malformed balance or amount is a conversion error naming the text. The balance is checked first, so its error wins when both are malformed. |
| Accounts.ApplyDebit | internal/account/account.go:33-38 | For the sender: refused with NotEnoughFunds exactly when the balance is less than the amount. Otherwise the new balance is balance − amount rounded to the nearest hundredth, and never negative. The sender test comes first, so a payment to oneself is a debit. |
| Accounts.ApplyCredit | internal/account/account.go:40-41 | For the receiver, the new balance is balance + amount rounded to the nearest hundredth. |
| Accounts.ApplyMismatch | internal/account/account.go:43-44 | An account that is neither sender nor receiver is refused with MismatchPayment. |
| Accounts.ApplyWritesCanonical | internal/account/account.go:38-41 | Every balance written has two fractional digits. It parses back, at scale 2, to the rounded difference for the sender or the rounded sum for the receiver. Rendering that value again reproduces the text. |
| Accounts.Conservation | internal/account/account.go:33-41 | With balances and amount in whole hundredths, the sender loses exactly the amount and the receiver gains exactly the amount. |
| Accounts.ValidateAccountID | internal/account/account.go:50-55 | No error exactly when the id is positive; the error is MustBePositive. |
| AccountExamples.SameScale | internal/account/account.go:33-41 | Two decimals at one scale compare, add and subtract by their mantissas alone. |
| AccountExamples.RoundAtScale | internal/account/account.go:38-41 | A value with at most two fractional digits rounds to its mantissa rescaled to hundredths. |
| AccountExamples.DebitSameScale | internal/account/account.go:33-38 | For the sender, with balance and amount at one scale of at most two digits: NotEnoughFunds exactly when the amount's mantissa is larger, otherwise the rendering of the difference in hundredths. |
| AccountExamples.CreditSameScale | internal/account/account.go:40-41 | For the receiver, with balance and amount at one scale of at most two digits: the rendering of the sum in hundredths. |
| AccountExamples.TenthsParse | internal/account/account.go:24-31 | "w.f" with one fractional digit f parses to 10·w + f tenths. |
| AccountExamples.HundredthsParse | internal/account/account.go:24-31 | "w.f" with two fractional digits f (10 ≤ f < 100) parses to 100·w + f hundredths. |
| AccountExamples.DebitNormal | internal/account/account_test.go:18-34 | "1000" less "501" is "499.00". |
| AccountExamples.DebitNotEnoughFunds | internal/account/account_test.go:35-51 | "1001" cannot be taken from "1000". |
| AccountExamples.DebitWholeBalance | internal/account/account_test.go:52-68 | "1000" less "1000" is "0.00". |
| AccountExamples.DebitFraction | internal/account/account_test.go:69-85 | "1000.6" less "100.8" is "899.80". |
| AccountExamples.CreditNormal | internal/account/account_test.go:87-103 | "1000" plus "501" is "1501.00". |
| AccountExamples.CreditFromZero | internal/account/account_test.go:104-120 | "0" plus "501" is "501.00". |
| AccountExamples.CreditTenths | internal/account/account_test.go:121-137 | "10.1" plus "15.9" is "26.00". |
| AccountExamples.CreditHundredths | internal/account/account_test.go:138-154 | "10.13" plus "15.98" is "26.11". |
| AccountExamples.MalformedTexts | internal/account/account_test.go:155-188 | "10,1" with "1,1" reports the balance. "10.1" with "1,1" reports the amount. |
| AccountExamples.ThirdDigitBreaksConservation | internal/account/account.go:38-41 | An amount of "0.125" leaves a sender of "1" at "0.88" (0.875 rounds up) and gives a receiver of "0" "0.13" (0.125 rounds up), so a hundredth is created. |
| Payments.ValidatePaymentRequest | internal/account/payment_test.go:11-71 | Accepted exactly when the amount parses to a positive value and the two ids are positive and distinct. An unparseable amount is a conversion error naming the text. A request that fails exactly one other check gets that check's error: NotPositiveAmount, AccountFromMustBePositive, AccountToMustBePositive or FromAndToMustBeDifferent. Every rejection of a parseable amount is one of these four. |
| Payments.ValidatedPaymentIsValid | internal/account/payment_test.go:73-120 | The payment built from an accepted request is valid. It carries the request's sender, receiver and amount, the given time, and id 0. |
| Payments.ValidationTestCases | internal/account/payment_test.go:17-57 | The tests' requests give the expected outcomes: 1→2 "500" accepted; "321,13" a conversion error; "-1" NotPositiveAmount; from 0, to 0 and 1→1 the matching errors; ToPayment of 1→2 "500" at t is payment 0, 1→2, "500", t. |
| Storage.Upsert | internal/storage/storage.go:101-111 | Replacing one account inserts a missing id and otherwise updates only the balance; other rows are unchanged. |
| Storage.UpsertPair | internal/storage/storage.go:101-111 | Replacing two accounts with distinct ids sets both balances, creates either that was missing, and leaves every other row as it was. |
| Storage.UpsertAllOthers | internal/storage/storage.go:101-111 | An id that none of the replaced rows has keeps its row, or stays absent. |
| Storage.UpsertAllWellKeyed | internal/storage/storage.go:101-111 | Replacing accounts keeps every row stored under its own id. |
| Storage.RowsFor | internal/storage/storage.go:70-77 | A batched read returns no more rows than ids asked for. It includes the row of every stored id asked for, and every row it returns is the stored row of an id asked for. |
| Storage.RowsForPair | internal/storage/storage.go:70-77 | Reading two distinct ids gives the first one's row, if stored, then the second one's, if stored. |
| Storage.PaymentsFor | internal/storage/storage.go:79-91 | Each payment the account sent or received is listed as often as it is stored, and no other payment is listed. |
| Storage.CallError | internal/storage/storage.go:58-111 | A store call runs exactly when its handle can be used and its operation is not failing. A transaction handle is usable only while the transaction is open. |
| Storage.GetAccountStep | internal/storage/storage.go:58-68 | A missing row is AccountNotFound. Otherwise the row, unless the call fails. |
| Storage.GetAccountsStep | internal/storage/storage.go:70-77 | The rows with the given ids, missing ids simply absent, unless the call fails. |
| Storage.GetPaymentsStep | internal/storage/storage.go:79-91 | The account's payments, unless the call fails. |
| Storage.WriteStep | internal/storage/storage.go:93-111 | A write through Db is published at once. Through Tx it is staged. A failed write changes nothing but the log. |
| Storage.BeginStep | internal/storage/transactional.go:57-60 | Begin opens an empty transaction or fails with nothing else changed. |
| Storage.CommitStep | internal/storage/transactional.go:78-81 | A commit publishes the staged writes. A failed commit publishes nothing and leaves the transaction open. |
| Storage.RollbackStep | internal/storage/transactional.go:67-70 | A rollback discards the staged writes and never changes committed data. |
| Storage.ReplaceThenAppend | internal/storage/storage.go:93-111 | Staging the replace and then the insert amounts to upserting the rows and appending the payment. |
| Storage.MemStore.constructor | internal/storage/storage.go:40-52 | A new store holds the given data, with no transaction open and no call made. |
| Storage.MemStore.Begin | internal/storage/transactional.go:57-60 | The store's new state and the error are those of BeginStep. |
| Storage.MemStore.Commit | internal/storage/transactional.go:78-81 | The store's new state and the error are those of CommitStep. |
| Storage.MemStore.Rollback | internal/storage/transactional.go:62-71 | The store's new state and the error are those of RollbackStep. |
| Storage.MemStore.GetAccounts | internal/storage/storage.go:70-77 | One fresh account object per row found, in row order, and the new store state. |
| Storage.MemStore.GetAccount | internal/storage/storage.go:58-68 | A fresh object for the row, or the error, and the new store state. |
| Storage.MemStore.GetPayments | internal/storage/storage.go:79-91 | The listing or the error, and the new store state, are those of GetPaymentsStep. |
| Storage.MemStore.ReplaceAccounts | internal/storage/storage.go:101-111 | The store's new state and the error are those of WriteStep for a replace. |
| Storage.MemStore.InsertPayment | internal/storage/storage.go:93-99 | The store's new state and the error are those of WriteStep for an insert. |
| Transfer.Pick | internal/walletservice/service.go:91-99 | The loop's pick for an id is a fetched row with that id, and there is none exactly when no fetched row has it. |
| Transfer.Synthesize | internal/walletservice/service.go:101-109 | A found account is used as it is, with no clock reading. A missing one is created with its id, balance "1000" and the clock's next reading. |
| Transfer.FindAccounts | internal/walletservice/service.go:91-99 | The fetch loop leaves the sender and receiver variables null exactly when no row has that id. Otherwise each holds the last fetched account with that id. When the payment names one account twice, both variables hold the same object. |
| Transfer.GetAccountsByPayment | internal/walletservice/service.go:85-112 | A fetch error is returned with no account built and no clock reading. Otherwise the fetched sender and receiver are returned, each missing one created fresh with the default balance at the clock's next reading. The two are one object exactly when the payment names one account twice and it was found. |
| Transfer.PickFetched | internal/walletservice/service.go:86-99 | The loop finds an id exactly when it was asked for and is stored, and then finds the stored row. |
| Transfer.ClockReadPerCreatedAccount | internal/walletservice/service.go:101-109 | The body reads the clock once for each of the payment's accounts the store does not hold, and not at all when the fetch fails. |
| Transfer.MissingAccountsCreated | internal/walletservice/service.go:101-109 | Sender and receiver carry the payment's ids. A missing one is new, with balance "1000" and the next clock reading, the sender's taken first. A found one is a fetched row. |
| Transfer.RunPaymentTx | internal/walletservice/service.go:47-74 | The callback method does to the store and the clock exactly what PaymentTx describes, for any sender and receiver, including one account shared by both. |
| Transfer.FetchOnceThenWrites | internal/walletservice/service.go:47-74 | The callback reads once, first, with ids [from, to] in that order. Everything it calls afterwards is at most two writes through the same handle. |
| Transfer.UpdateFailureStoresNothing | internal/walletservice/service.go:53-61 | Once the fetch succeeds: a failing sender update is BadRequest naming the sender's error, and a failing receiver update after a successful sender update is BadRequest naming the receiver's error. Either way nothing is written and only the fetch is logged. With both updates done, only an Internal error can follow. When the two are one object, the receiver's update starts from the sender's new balance. |
| Transfer.PersistCalls | internal/walletservice/service.go:63-73 | Persisting replaces the accounts and then, only if that succeeded, inserts the payment. A failed replace is an Internal error. |
| Transfer.PersistWrites | internal/walletservice/service.go:63-73 | Persisting keeps the earlier calls and appends one or two writes, all through the body's handle. |
| Transfer.ReplaceFailureSkipsInsert | internal/walletservice/service.go:63-66 | With ReplaceAccounts failing, the callback fails and never calls InsertPayment. Once the accounts are fetched and both balances update, the error is exactly Internal wrapping the replace's store failure. |
| Transfer.SelfPaymentDebitsTwice | internal/walletservice/service.go:53-63 | A payment from a stored account to itself applies the payment twice to the one account object, the second time from the balance the first one wrote. A failure of the first is the sender's error, a failure of the second the receiver's. On success both entries to store carry the final balance. |
| Transfer.UnstoredSelfPaymentDuplicates | internal/walletservice/service.go:85-112 | A payment from a missing account to itself creates two separate accounts with that id, at successive clock readings. Each is debited once from "1000" as the sender. A failed debit is the sender's error; otherwise both rows, with the same balance, go to the replace. |
| Transfer.SuccessPersists | internal/walletservice/service.go:47-74 | A successful callback is the fetch followed by persisting the updated sender and receiver. |
| Transfer.UpdatedIds | internal/walletservice/service.go:63 | The accounts handed to ReplaceAccounts are the sender and then the receiver. |
| Transfer.SuccessReplacesThenInserts | internal/walletservice/service.go:63-73 | A successful callback's calls are, in order: the fetch, ReplaceAccounts([sender, receiver]) with the updated balances, and InsertPayment. |
| Transfer.TxBodyStages | internal/walletservice/service.go:47-74 | Through the transaction the callback never changes committed data. It succeeds exactly when the balances update and none of its store calls fails. It then has staged the replace and the insert, in that order. |
| Transfer.DbBodyPublishes | internal/walletservice/service.go:47-76 | Through the service's own store the body leaves the transaction's staged writes alone. It succeeds exactly when the balances update and none of its three store calls fails, and then both updated accounts and the payment are committed. When only the insert fails, it returns the insert's Internal error with the updated accounts already committed. |
| Transactional.ExecTx | internal/storage/transactional.go:55-84 | The runner method does to the store and the clock exactly what ExecTxSpec describes for its callback, for any payment. |
| Transactional.BeginFailureSkipsBody | internal/storage/transactional.go:57-60 | A failed begin is returned as it is. The callback never runs and no other call is made. |
| Transactional.ExecTxOutcome | internal/storage/transactional.go:56-84 | See below. |
| Transactional.SuccessfulRun | internal/storage/transactional.go:73-83 | A run that returns nil has begun, has run the callback successfully, and ended with a commit. |
| Transactional.StagingRunAllOrNothing | internal/storage/transactional.go:62-84 | A callback that only stages writes gives a run that publishes all of them or none. |
| Transactional.TxBodyFits | internal/walletservice/service.go:47-74 | Inside a newly opened transaction the transfer body leaves committed data alone and, when it succeeds, has staged exactly the replace of the updated accounts and the insert. |
| Transactional.TxTransferAtomic | internal/storage/transactional.go:55-84 | Run through the transaction, the transfer succeeds exactly when both balances update and no store call fails. It then commits both accounts and the payment. Otherwise committed data is unchanged. |
| Transactional.TransferCalls | internal/storage/transactional.go:55-84 | For either handle, a successful transfer run makes exactly five calls, in order: begin, then fetch [from, to], replace and insert through that handle, then commit. |
| Transactional.DbTransferSucceeds | internal/storage/transactional.go:55-84 | The run as written, whose body uses the service's own store, succeeds exactly when both balances update and no store call fails. It then commits both updated accounts and the payment. |
| Transactional.DbTransferNotAtomic | internal/walletservice/service.go:47-76 | As written, with a failing insert: the run fails with the insert's Internal error, yet the replaced balances are committed. |
| Service.WalletService.ApplyPayment | internal/walletservice/service.go:39-82 | The method's effect on the store and the clock, and its result, are those of ApplyPaymentSpec for the handle the callback's store calls go through: Db as the code is written, Tx for the corrected body. |
| Service.WalletService.GetAccount | internal/walletservice/service.go:130-145 | The method's result and store state are those of GetAccountSpec; a found account is a fresh object holding the row. |
| Service.WalletService.GetPayments | internal/walletservice/service.go:115-127 | The method's result and store state are those of GetPaymentsSpec. |
| Service.WalletService.constructor | internal/walletservice/service.go:28-37 | The service works on the given store and clock. |
| Service.ValidRequestRunsTx | internal/walletservice/service.go:39-82 | A valid request takes one clock reading for the payment, runs the transfer through ExecTx, and returns the payment if the run returns nil, or the run's error. |
| Service.InvalidRequestRejected | internal/walletservice/service.go:39-43 | An invalid request is a BadRequest wrapping the validation error. The store and the clock are untouched, so ExecTx never runs. |
| Service.ApplyPaymentAtomic | internal/walletservice/service.go:39-82 | A payment succeeds exactly when the request is valid, both balances update and no store call fails. It then returns the payment built from the request at the clock's first reading, with id 0, and commits the two updated accounts and the payment. On any failure committed data is unchanged. |
| Service.ApplyPaymentSucceeds | internal/walletservice/service.go:39-82 | For either handle, the service as written included, a payment succeeds exactly when the request is valid, both balances update and no store call fails. It then returns the payment built at the clock's first reading and commits the two updated accounts and the payment. |
| Service.ApplyPaymentCalls | internal/walletservice/service.go:45-82 | For either handle, a successful payment calls begin, GetAccounts([from, to]), ReplaceAccounts with the updated sender and receiver, InsertPayment, and commit, in that order, the middle three through that handle. |
| Service.ApplyPaymentClockReads | internal/walletservice/service.go:45-109 | With the transaction opened and the fetch succeeding, a valid request reads the clock once for the payment and once more for each of its accounts the store does not hold, whatever the handle. |
| Service.ApplyPaymentHappyPath | internal/walletservice/service.go:39-82 | For either handle, a valid request between two stored accounts whose balances update, with no store failure, returns the payment. It makes the five calls in order, commits both updated accounts and the payment, and reads the clock once. |
| Service.AsWrittenInsertFailureKeepsBalances | internal/walletservice/service.go:47-79 | As written, with a valid request whose balances update to some rows and with only the insert failing, the service returns the insert's Internal error while exactly those rows are committed and no payment is. |
| Service.AppliedBalancesAreRead | internal/walletservice/service.go:130-145 | After a successful payment through either handle, reading the sender and the receiver returns their updated balances. |
| Service.AppliedPaymentIsListed | internal/walletservice/service.go:115-127 | After a successful payment through either handle, listing either account's payments ends with it, after that account's earlier payments. |
| Service.ReadsStoredBalance | internal/walletservice/service.go:130-145 | Reading a stored account with a positive id returns its stored balance. |
| Service.ListsAppendedPayment | internal/walletservice/service.go:115-127 | When a payment is the last one stored, listing its sender's or receiver's payments ends with it, after that account's earlier ones. |
| Service.GetAccountOutcome | internal/walletservice/service.go:130-145 | See below. |
| Service.GetPaymentsOutcome | internal/walletservice/service.go:115-127 | A non-positive id is BadRequest with no store call. A store failure is Internal. Otherwise the result is `PaymentsFor` of the committed payments: exactly the payments the account sent or received, each as often as it is stored and in the order recorded. |
| ServiceExamples.NormalResponse | internal/walletservice/service_test.go:53-134 | The service as written (Db), accounts 1 and 2 at 1000, request 1→2 "500": returns payment 0, 1→2, "500" at the clock's time. The calls are begin, GetAccounts([1, 2]), ReplaceAccounts with "500.00" and "1500.00", InsertPayment, commit. |
| ServiceExamples.NormalResponseStores | internal/walletservice/service_test.go:86-121 | After the normal response of the service as written, accounts 1 and 2 hold "500.00" and "1500.00", the payment is the one stored, and the clock was read once. |
| ServiceExamples.SenderBalance | internal/walletservice/service_test.go:94-109 | The test's sender, 1000 paying 500, is written as "500.00". |
| ServiceExamples.ReceiverBalance | internal/walletservice/service_test.go:94-109 | The test's receiver, 1000 receiving 500, is written as "1500.00". |
| ServiceExamples.ScenarioUpdate | internal/walletservice/service_test.go:71-109 | Both test accounts are found, neither is created, and the replace carries "500.00" and "1500.00", sender first. |
| ServiceExamples.ScenarioUpsert | internal/walletservice/service_test.go:94-109 | Storing the two updated accounts changes only their balances. |
| ServiceExamples.AsWrittenFailedInsert | internal/walletservice/service.go:47-79 | As written, the same request with a failing insert returns Internal, yet leaves the accounts at 500.00 and 1500.00 with no payment recorded. |
| ServiceExamples.ScenarioDbResult | internal/walletservice/service.go:68-79 | As written, the scenario's request with a failing insert returns the insert's Internal error. |
| ServiceExamples.ScenarioDbCommitted | internal/walletservice/service.go:63-79 | As written, the scenario's request with a failing insert leaves both new balances committed and no payment. |
| ServiceExamples.CorrectedFailedInsert | internal/walletservice/service.go:47-79 | Through the transaction, the same failing insert leaves the committed data as it was. |

The states cell of two rows, in full:

- `Transactional.ExecTxOutcome`: for any callback, once begin has succeeded:
  - The run succeeds exactly when the callback and the commit do. The staged writes are then published and no rollback is called.
  - A failed callback is followed by a rollback and no commit.
  - A failed commit is wrapped and followed by a rollback.
  - After any failure, committed data is what the callback left.
  - A failed rollback's wrapped error replaces the original error.
- `Service.GetAccountOutcome`:
  - A non-positive id is BadRequest, with no store call.
  - A missing row is NotFound.
  - Any other store failure is Internal.
  - Otherwise the result is the committed row.

## Left out

- HTTP transport, the client, the server, process start-up, logging and metrics decorators: these are adapters around the engine.
- The go-pg queries in internal/storage/storage.go: the store is an in-memory collaborator with the same contract. Missing ids are absent from a batched read. A replace is an upsert that updates only the balance. A listing matches sender or receiver. No row is "not found".
- A replace that names one id twice: the model applies the rows one after the other and succeeds, whereas PostgreSQL's `INSERT … ON CONFLICT (id) DO UPDATE` rejects a statement that touches one row twice. Any payment naming one account as both sender and receiver produces such a batch. A stored account gives two copies of the one object (Transfer.SelfPaymentDebitsTwice). A missing one gives two fresh rows, each debited once from "1000" (Transfer.UnstoredSelfPaymentDuplicates). Request validation refuses both before any store call.
- The store-assigned payment id: the returned payment keeps id 0, as the service test expects. The store writes nothing back into it.
- Order of rows from the database: a batched read returns rows in the order of the ids asked for, and payments are listed in insertion order. SQL promises neither order; the fetch loop keeps the last row per id, so the order does not matter to it.
- Error texts and HTTP status codes: errors are a datatype that keeps the kind (BadRequest, NotFound, Internal), the message's shape and its cause, not the formatted string. Go's error wrapping is a constructor around the cause.
- The decimal library beyond what the code uses: the parser accepts the plain grammar (optional '-', digits, optional '.' and digits). Exponents, a leading '+' and a bare leading or trailing '.' are rejected, and the library may accept those. Rounding to two places is modelled as half away from zero; no test depends on a tie.
- 64-bit ids and timestamps: ids are unbounded integers and a timestamp is an opaque value. The clock is a function from the number of the reading to a time. `Payment.CreatedAt` is declared as a duration but used as a time; it is modelled as a time.
- `context.Context`, cancellation, concurrency and database isolation levels: calls are sequential and no other client touches the store.
- Faults: an operation in the store's fault set fails every time it is called. Faults that depend on the call or on time are not modelled.
- The state of a go-pg transaction after a failed commit: the model keeps the transaction open, so that the deferred rollback discards its writes.
- Transactional.ExecTx: the callback is a datatype naming the transfer body (the payment and the handle it uses), since a method cannot be passed as a value. The specification `ExecTxSpec` and its lemmas hold for any callback function.
- Payments.ValidatePaymentRequest: its body is not part of internal/account/payment.go. The model follows the tests, which fix each rejection but not the order of the checks. The order used is: amount parses, amount positive, sender positive, receiver positive, ids distinct.
- Service.WalletService.ApplyPayment: takes the handle its callback's store calls go through as a parameter, which the Go method does not have. `Db` is the code as written and `Tx` the corrected body; see Findings.
- Accounts.Conservation: stated only for balances and amount in whole hundredths. With a third fractional digit rounding can create or destroy a hundredth, as AccountExamples.ThirdDigitBreaksConservation shows.

## Findings

| source | as written | input that shows it | evidently intended | confidence | as-written member | corrected member |
|---|---|---|---|---|---|---|
| internal/walletservice/service.go:47-86 | The transaction callback ignores its storage argument and reads and writes through the service's own store (`s.storage`, also in `getAccountsByPayment`). ReplaceAccounts is therefore published at once, outside the transaction. | Accounts 1 and 2 at "1000", request 1→2 "500", InsertPayment failing: the call returns an Internal error, yet the accounts stay at "500.00" and "1500.00" with no payment recorded. | Every store call goes through the transaction, so a failed insert rolls back the replaced balances (all or nothing). | not executed | ServiceExamples.AsWrittenFailedInsert | Service.ApplyPaymentAtomic |
