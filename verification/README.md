# OmniLedger: transfers, fundings, rate limiting and ledger views, modelled and proved in Dafny

OmniLedger moves money between accounts. A balance is never stored: it is the sum of an append-only
ledger. A transfer passes a Redis idempotency gate, locks two account rows in UUID order, sums the
sender's balance, and writes one transaction row and two ledger rows in one serializable database
transaction. A funding mints money with a single credit. This project models those programs and the
tables, locks, unique indexes and Redis keys they share, and proves what they guarantee together.

Verify everything with `dafny verify dfyconfig.toml` (Dafny 4.11).

## How the model is built

- `Money`, `Uuids`, `Ledger`: decimals and their NUMERIC(18,4) storage (amounts are reals, stored amounts
  integers of 10^-4), canonical UUID text, the tables and the balance.
- `Serial`, `SerialProperties`: the sequential specification. One transfer, one funding or one change of an
  account row applied to the tables; a history is a list of such operations, legal if each passes its own
  checks at its place. The ledger laws are proved of every legal history.
- `Protocol`: the concurrent machine. Any number of requests, each at one of fifteen program points,
  with a snapshot, row locks and uncommitted rows of its own. Steps: a statement completes, a database call
  fails, a commit is done but reported as an error, a Redis call fails with or without effect, a server
  dies, Redis drops a key, an account is opened or changes status.
- `ProtocolInvariant`, `Refinement`: what every step keeps; every reachable state is the outcome of a legal
  history, so the ledger laws hold of every interleaving.
- `Refusals`: why requests are refused; every error is true of its request, in every run.
- `Alone`: the converse. A request that meets no other does exactly what the sequential specification
  says, errors included.
- `Runs`, `StaleSnapshot`: building runs; what row locks do not ensure, and exactly which commits are refused.
- `Progress`, `Deadlock`: who waits for whom, why transfers cannot wait in a circle, and exactly which traffic
  can.
- `Idempotency`, `Replays`: which keys Redis holds, what the gate decides, and exactly which faults break it.
- `Store`, `Services`: the Go methods in their own imperative form, on objects that are updated in place,
  with a fault for each call that can fail, proved against the same sequential specification.
- `RateLimiter`, `RateLimiterRace`: the sliding-window limiter as a class, and its checks interleaved.
- `Views`, `History`: the SQL balance queries and the paged history.

Assumptions. Generated UUIDs are distinct: the index of a process is its transaction id. The snapshot of a
serializable transaction is taken by its first statement, before that statement's lock is granted. A row
changed since the snapshot cannot be locked. PostgreSQL refuses at least those commits where two
transactions each missed ledger rows the other wrote, and may refuse any other; so the runs of the
model include the real ones. Where an exact condition for a commit is given, the commits refused are only
those. EXPIRE takes whole seconds; the configured window is one minute (cmd/api/main.go:79).

## Where the code and its documentation differ

- "No deadlocks ... prevents circular waits" (the repository's README.md:319) holds of transfers among
  themselves, in any traffic, but not of all traffic: a funding locks its target first and then, through the
  foreign key on `from_account_id`, the source row, whatever their order. `Deadlock.DeadlockExactly` gives the
  exact condition. PostgreSQL resolves such a deadlock by failing one transaction (a `Fail` step).
- The row locks do not make the balance check safe by themselves (the repository's README.md:118): the sum may
  be older than the lock. `StaleSnapshot.LocksAloneAreNotEnough` shows the run; the refused commit is what saves it.
  `StaleSnapshot.CommitAllowedExactly`: at its commit a transfer has to be refused if and only if, since its
  snapshot, a transfer out of its sender or one from its receiver back to its sender has committed.
- The page count and the page of a history are read by two queries outside a transaction
  (internal/store/store.go:257-283), so a page may be non-empty although it lies beyond the page count sent
  with it (`History.HandleGetHistory`).
- Not every completed transaction has two ledger rows (sql/V1__init_schema.sql:83-85): a funding has one, so
  the table of transactions and the ledger differ by exactly the fundings (`SerialProperties.TablesAgree`).
- "If the transfer succeeds, the key persists, replays return 409" (the repository's README.md:143) fails after
  an eviction, and after a commit whose acknowledgement is lost, because the deferred delete then removes the key of a
  committed transfer. `Replays.ReplayPassesExactly`: these two faults, each alone, and no others. The unique
  index still refuses the replay (`Idempotency.CommittedKeyIsFinal`).
- "If the transfer fails, the key is automatically cleaned up" (the repository's README.md:144) fails when the
  server dies past the gate, when the deferred delete is not applied, and when SET NX is applied but reported as an error: the
  key is then stuck, retries are duplicates until it expires, and nothing was transferred.
  `Replays.KeySticksExactly`: these three faults, each alone, and no others.
- The source of a funding is checked once, before the transaction starts, so a funding may commit although its
  source was frozen meanwhile (`StaleSnapshot.FrozenSourceStillFunds`). `Refinement.FundingSourceWasActive`
  says what the check does ensure and exactly when the source is still active at the commit.

## Model

| member | source | states |
|---|---|---|
| Uuids.TextOrderIsNumericOrder | internal/service/transfer.go:88-92 | Comparing canonical UUID texts is comparing the 128-bit numbers, for all pairs. |
| Uuids.TextIsInjective | internal/service/transfer.go:88-92 | Different accounts have different texts, so the lock order never ties. |
| Uuids.TextRoundTrip | internal/service/transfer.go:90 | The text of an account id has the canonical 8-4-4-4-12 lower-case form, and reading it back gives the 128-bit number. |
| Uuids.LockOrder | internal/service/transfer.go:89-92 | The pair picked by comparing texts is the numerically ordered pair. |
| Uuids.LockOrderIsSymmetric | internal/service/transfer.go:88-92 | A transfer and its reverse lock the same two rows in the same sequence, the smaller first. |
| SerialProperties.ApplyEffect | internal/service/transfer.go:94-170 | A successful operation appends exactly its debit and credit (or single credit) and one Completed row, changes no account, has a fresh id and key and, for a transfer, stores at most the sender's balance. |
| SerialProperties.ApplySucceedsExactly | internal/service/transfer.go:94-170 | A transfer or funding succeeds if and only if its amount can be stored, its accounts differ, exist and are active, the sender has the amount, and neither its id nor its key is in the table (a funding: only its target must be active). |
| SerialProperties.ApplyErrorIsTruthful | internal/service/transfer.go:54-206 | Each error of a sequential operation states a fact about the request or the tables it met. |
| SerialProperties.StoredAmountsAreSafe | internal/service/transfer.go:127-163 | Row, debit and credit store the same positive units, nearest to the request with halves rounded up, and within the balance; unstorable amounts abort everything. |
| Money.RoundsHalfAwayFromZero | sql/V1__init_schema.sql:63 | A number of units is what is stored if and only if it lies within half a unit of the decimal, a half being rounded away from zero. |
| SerialProperties.BalancesAreNonNegative | internal/service/transfer.go:122-129 | After every legal history every balance is at least zero. |
| SerialProperties.BalanceGrowsWithoutDebits | internal/service/transfer.go:122-163 | While no transfer out of an account commits, its balance cannot fall. |
| SerialProperties.MoneyIsConserved | internal/service/transfer_test.go:242-248 | The sum of all balances is the sum of the stored amounts of the fundings. |
| SerialProperties.KeysAndIdsAreUnique | sql/V1__init_schema.sql:60-65 | No two operations of a legal history share an idempotency key or a transaction id. |
| SerialProperties.TransactionsAreTheHistory | internal/service/transfer.go:131-167 | A row is in the transactions table exactly when it is the Completed record of an operation of the history. |
| SerialProperties.DoubleEntry | internal/service/transfer.go:143-163 | The ledger rows of each transfer are one debit of the sender then one credit of the receiver; of each funding one credit. |
| SerialProperties.NoOrphanEntries | sql/V1__init_schema.sql:92 | Every ledger row belongs to a committed operation. |
| SerialProperties.TablesAgree | internal/store/store.go:255-279 | Ledger balance is completed received minus completed sent plus what was minted with the account as source. |
| SerialProperties.TablesOnlyGrow | sql/V1__init_schema.sql:113-131 | Ledger and transactions of a prefix of the history are prefixes of the later ones. |
| ProtocolInvariant.CommitIsSerial | internal/service/transfer.go:94-170 | A commit that is not refused is the sequential operation on the tables as they are now, although the balance was summed on an older snapshot. |
| ProtocolInvariant.StepKeepsInv | internal/service/transfer.go:54-206 | Every step, faults included, keeps exclusive row locks, exclusive pending keys, legal history, each request's private rows and passed checks, and that the source of every admitted or committed funding was active at an earlier point of the history. |
| ProtocolInvariant.ReachableStatesSatisfyInv | internal/store/store.go:33-50 | The invariant holds in every reachable state. |
| Refinement.EveryRunIsSerializable | internal/store/store.go:31-50 | In every reachable state the tables are the result of executing the committed requests one at a time in commit order, each passing its own checks (a funding its source check at an earlier point of that order); acknowledged requests are among them, and committed ones are acknowledged unless the acknowledgement or the server was lost. |
| Refinement.FundingSourceWasActive | internal/service/funding.go:41-48 | In every run each committed funding was admitted at a step, between its arrival and its commit, at which its source was active; the source is still active at the commit if and only if its last status change in between, if any, is to Active. |
| Refinement.CommitOrderRespectsRealTime | internal/store/store.go:31-50 | What had committed before a request arrived precedes it in that order. |
| Refinement.RefusedRequestsLeaveNoTrace | internal/store/store.go:41-44 | A request refused with any error but an unknown commit has no row in either table. |
| Refusals.EveryRefusalIsTruthful | internal/service/transfer.go:54-206 | In every run the error of every refused request is true of it: it names tables, an operation or a fault between the arrival and the refusal (too little money, a missing or inactive account, a committed key, a key at the gate, an amount that cannot be stored, a changed row or an overtaking transfer, a failed call). |
| Refusals.CommitReports | internal/store/store.go:46-48 | A transfer that advances from its commit ends with a serialization failure if and only if it was overtaken; every other commit is acknowledged. |
| Refusals.ChangedBySet | internal/store/store.go:54-68 | A row visible in the snapshot can still be locked if and only if no operation since has set it, even if it was set back to the same status. |
| Refinement.NoOverdraft | internal/service/transfer.go:96-129 | Every balance is non-negative in every reachable state. |
| Refinement.Conservation | internal/service/transfer.go:143-163 | In every reachable state all balances together are what the committed fundings minted. |
| Refinement.AtMostOncePerKey | sql/V1__init_schema.sql:65 | At most one committed transaction per idempotency key in every run, whatever Redis and the servers do. |
| Refinement.CommittedRowsAreComplete | internal/service/transfer.go:131-167 | Every committed row is Completed, copies its request, and has exactly its double-entry (or single-entry) ledger rows. |
| Refinement.EveryEntryHasItsTransaction | sql/V1__init_schema.sql:89-96 | In every reachable state each ledger row is one of the rows of an existing transaction. |
| Refinement.TransactionsAgreeWithLedger | internal/service/funding.go:56-77 | The two tables agree on every account in every reachable state, up to the fundings recorded as sent but never debited. |
| Refinement.PastBalancesCanBeRecomputed | sql/V1__init_schema.sql:113-131 | Along any run both tables only grow, and a past balance is the current one less the net of the rows appended since. |
| Progress.OnlyFourStatementsWait | internal/service/transfer.go:105-113 | Only the two ordered locks, the insert and a funding's foreign-key lock can wait; the re-fetches never do. |
| Progress.WaitsEndOrCircle | internal/service/transfer.go:94-113 | In any state following waits reaches a request that can execute its next statement, unless some requests wait for each other in a circle. |
| Progress.CircleHasAClash | internal/service/funding.go:46-66 | Every circular wait among any subset of the requests contains a funding and another request that locks the source of that funding first, or targets it in a funding, or uses its key. |
| Progress.NoCircularWait | internal/service/transfer.go:88-113 | While no open transfer locks the source of an open funding first, no open funding targets the source of another, and funding keys are distinct from all others, no requests wait for each other in a circle. |
| Progress.FindRunnable | internal/service/transfer.go:88-113 | Under these three conditions a chain of waits leads from any unfinished request to one that can execute its next statement. |
| Progress.NoDeadlock | internal/service/transfer.go:88-113 | Under these three conditions some request can execute its next statement whenever one is unfinished. |
| Progress.SchedulesGoOn | internal/service/transfer.go:88-113 | Under these three conditions any schedule of the open requests, however unfair, takes no more statements than they have left and can go on as long as one of them is unfinished. |
| Progress.EveryRequestFinishes | internal/service/transfer.go:54-206 | Under these three conditions all open requests can be run to their ends, with no new arrivals or faults. |
| Progress.TransfersNeverDeadlock | internal/service/transfer.go:88-104 | In every reachable state, whatever fundings are open, no circular wait consists of transfers only. |
| Deadlock.DeadlockExactly | internal/service/funding.go:46-66 | For every set of request kinds: some interleaving reaches a circular wait if and only if the arrows from the account a request locks first to the one it locks second (a funding: from target to source) contain a circle; without any fault if the requests of the circle have different keys, and only after an eviction if two transfers in it share one. |
| Deadlock.TransferDeadlocksExactly | internal/service/transfer.go:88-104 | Copies of a valid transfer and fundings from one source can wait in a circle, with or without faults, if and only if that source is the row the transfer locks first. |
| Progress.WorkIsBounded | internal/service/transfer.go:54-206 | In every run at most fourteen statements are executed per request, in any order and with any faults. |
| Idempotency.GateIsExclusive | internal/service/transfer.go:64-84 | Without eviction, whatever else fails, at most one request per key is past the gate and its key is in Redis. |
| Idempotency.QuietKeysAreExact | internal/service/transfer.go:64-84 | Without Redis faults, crashes or lost acknowledgements the Redis keys are exactly the keys in flight and the completed keys. |
| Idempotency.KeysAreMarked | internal/service/transfer.go:188-189 | While no key is evicted and no Redis write is lost, the key of a transfer in flight is marked as processing, and that of an acknowledged transfer that has returned holds its transaction id. |
| Idempotency.KeysAreExact | internal/service/transfer.go:64-84 | Without eviction or lost acknowledgements, whatever crashes and Redis errors there are, Redis holds exactly the keys in flight, the committed keys and the keys left behind by a crash or a Redis error. |
| Idempotency.EveryKeyIsExplained | internal/service/transfer.go:64-84 | In every run, all faults included, a key in Redis is in flight, committed or left behind by a crash or a Redis error. |
| Idempotency.GateDecidesExactly | internal/service/transfer.go:65-71 | Without eviction or lost acknowledgements a valid transfer passes if and only if its key is neither in flight, nor committed, nor left behind; otherwise it is a duplicate. |
| Idempotency.ReplayIsDuplicate | internal/service/transfer.go:69-71 | Without eviction or lost acknowledgements a replay after success is a duplicate, whatever else fails. |
| Idempotency.LeftKeyIsStuck | internal/service/transfer.go:73-84 | Without eviction a key left behind stays in Redis for the rest of the run, nobody with it is in flight, and every later attempt with it is a duplicate. |
| Replays.ReplayPassesExactly | internal/service/transfer.go:73-84 | Some run lets a committed transfer pass the gate again if and only if keys may be evicted or acknowledgements of commits may be lost; each alone suffices and no other fault does. |
| Replays.KeySticksExactly | internal/service/transfer.go:73-84 | Some run leaves a key in Redis that is neither in flight nor committed if and only if servers may crash, or the deferred delete may be lost, or an applied SET NX may be reported as an error. |
| Idempotency.FailedTransferReleasesKey | internal/service/transfer.go:73-84 | Without eviction or lost acknowledgements a deferred delete that is applied frees the key for a retry and touches no other key. |
| Idempotency.CommittedKeyIsFinal | internal/service/transfer.go:139-141 | In every run, once a key is committed every other open transaction with it is refused at its insert. |
| Idempotency.EvictionBreaksTheGate | docker-compose.yml:35 | For every valid transfer one eviction lets a second attempt in, and the first one's deferred delete then removes the key the second holds. |
| Alone.AdmittedRequestIsSerial | internal/store/store.go:33-50 | An undisturbed request ends with the tables, the outcome and the error of the sequential operation. |
| StaleSnapshot.SnapshotDecides | internal/service/transfer.go:94-170 | A request whose checks pass on its snapshot reaches its commit whatever has committed since, if its rows are unchanged. |
| StaleSnapshot.CommitAllowedExactly | internal/store/store.go:34-36 | A commit need not be refused if and only if it is a funding, or no transfer out of its sender and none from its receiver back to its sender has committed since its snapshot. |
| StaleSnapshot.UndisturbedCommitsExactly | internal/service/transfer.go:94-170 | From any statement on, a request the others leave alone commits if and only if its rows are unchanged since its snapshot, its checks pass on the snapshot, its key is unused and, for a transfer, it has not been overtaken as above; an overtaken one is told of the serialization failure. |
| StaleSnapshot.LocksAloneAreNotEnough | internal/store/store.go:34-36 | For every amount some run has a transfer holding both locks, past its balance check, about to commit, while its sender's committed balance is zero; its commit is refused. |
| StaleSnapshot.FrozenSourceStillFunds | internal/service/funding.go:41-48 | For every amount some run commits a funding whose source is frozen: the input for which the check of `FundingSourceWasActive` does not last. |
| Store.Tx.GetAccountForUpdate | internal/store/store.go:54-68 | Returns and locks the row, or reports that it is missing, or that the connection broke. |
| Store.Tx.GetBalance | internal/store/store.go:72-88 | Returns the derived balance and changes nothing. |
| Store.Tx.CreateTransaction | internal/store/store.go:91-102 | Appends the new row or reports exactly the violated constraint. |
| Store.Tx.InsertLedgerEntry | internal/store/store.go:119-130 | Appends one entry with the stored amount or refuses the amount. |
| Store.Tx.UpdateTransactionStatus | internal/store/store.go:105-116 | Sets the status of the row with the id and of no other, or reports that there is none. |
| Store.WithStatus | internal/store/store.go:106 | Changes exactly the rows with the id. |
| Store.Store.EndTx | internal/store/store.go:41-49 | Rolls back on error; otherwise commits, is refused, or commits with the acknowledgement lost. |
| Store.RedisClient.SetNX | internal/service/transfer.go:65 | Sets an absent key and says whether it did; a reported error may have set it. |
| Services.TransferService.LockAndCheck | internal/service/transfer.go:96-129 | Locks first, second, sender, receiver in that sequence; the result is that of the first failing check, or the broken connection if it breaks before that check is reached. |
| Services.TransferService.RecordTransfer | internal/service/transfer.go:131-169 | Writes the row, debit and credit and promotes it, or reports the violated constraint or the broken connection, whichever comes first. |
| Services.TransferService.TransferInTx | internal/service/transfer.go:94-170 | The statements have exactly the result of the sequential transfer, unless the connection breaks before the statement that decides it. |
| Services.TransferService.TransferFunds | internal/service/transfer.go:54-206 | Succeeds exactly when the gate is free, the sequential transfer succeeds and nothing breaks; then the tables are those of the sequential transfer and the key stays. Past the gate the error is that of the sequential transfer, of the connection if it breaks first, or of the commit (refused, or unknown if the acknowledgement is lost). Failures other than a lost acknowledgement leave the tables alone and release the key. |
| Services.TransferService.GetBalance | internal/service/transfer.go:209-227 | Returns the balance of an existing account, or reports a missing one, a broken connection, a refused or an unknown commit, each exactly when it is the case; changes nothing. |
| Services.FundingService.FundAccount | internal/service/funding.go:33-97 | Succeeds exactly when the source lookup works and the source is active, the sequential funding succeeds and nothing breaks; failures but a lost acknowledgement change nothing, and each error is reported exactly when it is the case. |
| RateLimiter.RateLimiter.Check | internal/middleware/ratelimit.go:67-87 | For increasing timestamps reaching Redis within the slack of the expiry, decision and remaining budget equal those of counting all accepted requests of the window; rejected attempts leave no trace; a pipeline error is passed on and, if no command was applied, changes no later decision. |
| RateLimiter.RateLimiter.Limit | internal/middleware/ratelimit.go:36-64 | For the same timestamps a request is served exactly when fewer than MaxRequests were accepted in its window, or when Redis fails. |
| RateLimiter.CheckTracks | internal/middleware/ratelimit.go:69-80 | Trimming, whole-key expiry, adding and undoing keep the set equal to the accepted requests of the last window, and no window exceeds the limit. |
| RateLimiter.AcceptKeepsBound | internal/middleware/ratelimit.go:77-86 | Accepting below the limit keeps the bound for every window, not only the current one. |
| RateLimiter.ExpirySlackIsExact | internal/middleware/ratelimit.go:72 | Whole-key expiry changes no decision if and only if a check reaches Redis within the slack: one second for a window of whole seconds, and what EXPIRE leaves of it otherwise. |
| RateLimiter.OneMinuteWindow | internal/middleware/ratelimit.go:72 | For the configured minute: a key lives 61 seconds after its last check, and the delay that changes no decision is exactly 1,000,000,000 nanoseconds. |
| RateLimiterRace.RaceBound | internal/middleware/ratelimit.go:67-87 | With at most k checks in flight, whose commands may interleave but reach Redis within the slack, every window of every run lets through at most MaxRequests + k - 1 requests, whole-key expiry included. |
| RateLimiterRace.DecidesExactly | internal/middleware/ratelimit.go:67-87 | In every run a check is let through if and only if its window holds fewer than MaxRequests, counting accepted requests, checks in flight already added, and rejected ones whose removal failed. |
| RateLimiterRace.RejectionsAreJustified | internal/middleware/ratelimit.go:77-86 | While every rejected check removes its entry, a check is rejected only if accepted requests of its window and other checks in flight reach MaxRequests; with none in flight it is let through exactly when the accepted ones alone do not. |
| RateLimiterRace.RaceBoundIsReached | internal/middleware/ratelimit.go:67-87 | Some run reaches that bound, for every positive limit and k, if the window is at least MaxRequests + k - 1 and the slack at least k nanoseconds. |
| Views.AllBalancesAgree | sql/V1__init_schema.sql:160-200 | Locked sum, read-only sum, stored function and left-join view give the balance of every account, with or without entries; the function fails exactly outside eighteen digits. |
| Views.MaintainedAgrees | internal/store/store.go:228-244 | The derived balance equals an incrementally maintained one. |
| Views.OrderDoesNotMatter | internal/store/store.go:74-82 | The balance does not depend on the order of the rows. |
| History.HistoryIsComplete | internal/store/store.go:257-283 | The history holds every row whose sender or receiver is the account exactly as often as the table does and no other, newest first (strictly, if the creation times of its rows differ), labelled sent or received. |
| History.PageCountIsExact | internal/handler/account_handler.go:122 | TotalPages is the exact integer ceiling. |
| History.PageSizes | internal/handler/account_handler.go:110-122 | Pages before the last are full, the last is not empty, later ones are empty. |
| History.PagesPartitionTheList | internal/handler/account_handler.go:110-122 | Pages 1 to TotalPages concatenate to the whole list. |
| History.GrowthSkipsNothing | internal/handler/account_handler.go:110-122 | Pages fetched one after the other while transactions are added may repeat rows but skip none: every item there at the start has been on a page or is still to come. |
| History.HandleGetHistory | internal/handler/account_handler.go:99-130 | Whatever the parameters, the answer is a page of the full history, with the number of rows that name the account in the table as it was counted and the page count of that number; it is empty exactly beyond the last page of the table as it was listed, so never within the count. |
| History.VerifyOwnership | internal/handler/account_handler.go:146-150 | Finds the first account with the id, or reports that the user has none. |

## Left out

- PostgreSQL's serializable algorithm beyond snapshots, row locks, unique indexes, checks, foreign keys and the commit conflict above.
- A process as an object updated in place: the concurrent machine is on values; the in-place form of the same programs is sequential (`Services`).
- The `GetBalance` service as a concurrent process: it writes nothing and takes one lock.
- Trimming and counting as separate interleaved commands of a rate-limit check, checks that reach Redis later than the slack, and float rounding of scores.
- Eviction of a rate-limit key, and checks after a pipeline that failed half-way: no bound is claimed for them.
- Ties of created_at between queries: the database may order equal times differently for each page; the model fixes one order.
- RedisClient.SetNX: does not model the 24-hour time-to-live as a clock, because the concurrent machine lets any key expire at any moment (an eviction step).
- Float rounding in the page count and integer overflow of huge page numbers.
- HTTP handlers, JSON, cookies, routing, configuration, logging and the frontend: no property beyond plumbing.
- Registration, login, tokens and the blacklist: field checks and library cryptography.
- The email worker: nothing enqueues a job.
