# VaultCore: verified models of its protocols

VaultCore is a banking back end. Its hard logic is a handful of protocols whose
steps interleave: optimistic ledger transactions, leased account locks, a
sliding-window rate limiter, a circuit breaker with two drivers, a two-level
account cache, a resumable event stream with bounded deduplication, cursor
pagination, and the browser's single-flight token refresh.

Each protocol is modelled twice. Once as values: a state, a step function and a
`Run` over any sequence of events, about which the properties of whole runs are
proved. And once in the form the source has: classes whose methods update fields
in place, with the source's loops and early returns, each method proved against
the functions the runs are made of, or, where two classes share a run, by a third
that joins them (`Link` joins the event hub and the browser's client). The two
caches' own get, set and delete (`AccountCacheService`) stand by themselves.

| files | protocol |
|---|---|
| `Ledger.dfy`, `LedgerOutcomes.dfy`, `LedgerSerial.dfy`, `LedgerKeys.dfy`, `LedgerWaits.dfy`, `LedgerSolo.dfy` | interleaved transactions: what each answers and leaves, serializability, entry chain, conservation, idempotency keys, deadlock, the uninterrupted call |
| `LedgerStore.dfy`, `LedgerPaging.dfy` | the repository's operations, each shown to be one call of the interleaved model; its page walk |
| `AccountLocks.dfy`, `LockService.dfy` | leased multi-account locks |
| `RateLimiter.dfy`, `RateLimiterService.dfy` | the sliding-window script, the service and the tiers |
| `CircuitBreaker.dfy`, `BreakerHistory.dfy`, `GatewayProxy.dfy` | the breaker, when it moves, `execute` and the gateway's proxy |
| `AccountCache.dfy`, `AccountService.dfy` | cache-aside reads and their staleness |
| `EventStream.dfy`, `EventHub.dfy`, `EventStreamClient.dfy`, `EventLink.dfy`, `EventDedup.dfy` | broadcast, resume, the browser's client, the two joined, deduplication |
| `TokenRefresh.dfy` | the response interceptor |

## Assumptions

- The database is read-committed: a statement sees committed rows and its own
  transaction's writes; a conditional update whose row has the expected version waits
  for another transaction that has written the row, then tests the version again; an
  idempotency key is unique. A reference id is unique too (model `Transaction` in
  `prisma/schema.prisma`), and no two calls that create a record are given the same one.
  A deadlock or a lost connection is the `Crash` event, and so is a blocked statement
  that the transaction's time limit ends.
- Outside the ledger only transfer records are ever marked: the payment service marks
  its own. (A deposit's or withdrawal's record that somebody un-marked would let its key
  move money again.)
- Money is an integer number of minor units; an account is an index into the
  table; an idempotency key is compared only for equality.
- Redis runs one command or one script at a time and shares the callers' clock; a
  lock value or a sorted-set member is never drawn twice.
- JavaScript code between two awaits is one step.

## Where the code is not what it says

- Two transfers between the same accounts, one each way, can deadlock
  (`ledgerRepository.js:83-109` writes the source first); nothing but the database or
  the time limit ends it.
- Cursor pagination (`ledgerRepository.js:196-222`) returns the id of the row it
  drops and then skips that row, so one row per full page is never shown.
- A transfer's record is created PENDING (`ledgerRepository.js:129`), so its key
  protects nothing until the record is marked COMPLETED elsewhere.
- The proxy retries past the breaker's gate (`proxyFactory.js:70` and `:100`).
- The PAYMENT and GENERAL tiers share a user's key, which makes `Retry-After` too
  short for the smaller limit.
- A balance is cached for 30 s but may be 330 s old when it is returned.
- An invalidation does not last if a fill with something read before it is pending:
  the fill puts the old balance back.
- A request that queued behind a refresh is not marked as retried
  (`client.js:202-210`), so it may queue again without bound.
- A partial acquisition is rolled back in acquisition order (`lockService.js:185-187`),
  although the comment at line 167 says reverse.
- After a session has expired the memory token is gone, but the default header that the
  last refresh set (`client.js:236`) is not: unless the application removes it, requests
  still carry the old token.

## Model

| member | source | states |
|---|---|---|
| `LedgerSerial.Serializable` | services/ledger-service/src/repositories/ledgerRepository.js:28-163 | In every interleaving of transfers, deposits and withdrawals, with crashes and conflicts, balances, versions and entries are those of running the committed operations alone in commit order, and each of them was covered when it was booked |
| `LedgerSerial.LedgerChain` | services/ledger-service/src/repositories/ledgerRepository.js:79-154 | In every reachable state each account's new entries continue one another's `balanceAfter` from its opening balance to its stored balance, which is opening plus credits minus debits, with one version per entry; old entries are never touched |
| `LedgerSerial.Conservation` | services/ledger-service/src/repositories/ledgerRepository.js:266-308 | Over every run the total of all balances is the initial total plus committed deposits less committed withdrawals; transfers add nothing |
| `LedgerSerial.NoOverdraft` | services/ledger-service/src/validators/ledgerValidators.js:24-44 | With the positive amounts the validators admit, balances that start non-negative stay so in every interleaving |
| `LedgerSerial.EveryCommitIsLogged` | services/ledger-service/src/repositories/ledgerRepository.js:156-163 | The commit order is exactly the calls that ended committed: each place in it has a call of its own with the operation that stands there, and no committed call is missing |
| `LedgerSerial.StepBooks` | services/ledger-service/src/repositories/ledgerRepository.js:91-109 | A step changes the books only by committing, and then by exactly the operation it logs; aborts, crashes and conflicts change nothing |
| `Ledger.CommitIsPost` | services/ledger-service/src/repositories/ledgerRepository.js:83-109 | Whatever was committed between a call's reads and its commit, the commit applies its amount to the balances that are stored just before it, which cover it |
| `Ledger.RunKeepsInv` | services/ledger-service/src/repositories/ledgerRepository.js:83-134 | Every step keeps: equal versions mean equal balances, an uncommitted write's row is still the one that was read, no two calls hold one row or create one key |
| `LedgerSerial.SerializableContinued` | services/ledger-service/src/repositories/ledgerRepository.js:28-163 | The same from the middle of a run on, as the trace of one operation is |
| `LedgerSerial.ChainedAt` | services/ledger-service/src/repositories/ledgerRepository.js:139-153 | In a chain each entry's `balanceAfter` is the one before it, or the opening balance, plus or minus its amount |
| `LedgerOutcomes.TransferOutcome` | services/ledger-service/src/repositories/ledgerRepository.js:30-109 | Run alone, a transfer is a duplicate if its record is completed and has entries; else not found or not active for a source and then a target that is unknown or deleted, or frozen or closed; else refused if the source does not cover it, a conflict if both are one account, and committed in every other case |
| `LedgerOutcomes.TransferEffect` | services/ledger-service/src/repositories/ledgerRepository.js:83-153 | A committed transfer takes the amount from the source and gives it to the target, one version on each, with a debit and a credit entry that carry the new balances, and a PENDING record if there was none |
| `LedgerOutcomes.DepositOutcome` | services/ledger-service/src/repositories/ledgerRepository.js:243-263 | The same for a deposit |
| `LedgerOutcomes.DepositEffect` | services/ledger-service/src/repositories/ledgerRepository.js:266-308 | A committed deposit adds the amount, with one credit entry and a COMPLETED record if there was none |
| `LedgerOutcomes.WithdrawalOutcome` | services/ledger-service/src/repositories/ledgerRepository.js:332-361 | The same for a withdrawal, which must be covered |
| `LedgerOutcomes.WithdrawalEffect` | services/ledger-service/src/repositories/ledgerRepository.js:364-405 | A committed withdrawal takes the amount, with one debit entry and a COMPLETED record if there was none |
| `LedgerOutcomes.StatementThrowsIff` | services/ledger-service/src/repositories/ledgerRepository.js:44-133 | In every reachable world, exactly when the next statement of a call throws, and what: a missing or barred account, a debit that the balance as read does not cover, a row that has moved on, a key that is taken |
| `LedgerOutcomes.DuplicateFoundIff` | services/ledger-service/src/repositories/ledgerRepository.js:30-41 | And exactly when it ends as a duplicate |
| `LedgerOutcomes.CommittedAccountsWereActive` | services/ledger-service/src/repositories/ledgerRepository.js:44-66 | In every run a call that committed read each of its accounts when it was there and ACTIVE, as it was stored at that moment |
| `LedgerWaits.StuckIffWaits` | services/ledger-service/src/repositories/ledgerRepository.js:83-109 | A running call makes no progress if and only if it is about to write a row that is still as it was read and that another holds, or to create a key that another is creating |
| `LedgerWaits.DeadlockIsARing` | services/ledger-service/src/repositories/ledgerRepository.js:83-109 | When calls are running and none can move there is a ring of transfers, each holding its source and waiting for its target, which is the source of the next and is still as it was read |
| `LedgerWaits.RingIsStuck` | services/ledger-service/src/repositories/ledgerRepository.js:83-109 | No call of a ring in which each waits for the next can move |
| `LedgerWaits.OppositeTransfersDeadlock` | services/ledger-service/src/repositories/ledgerRepository.js:83-109 | Any two transfers between the same two accounts, one each way, that every check lets through have a run that ends with both waiting for each other and nobody able to move |
| `LedgerWaits.UpwardNeverDeadlocks` | services/ledger-service/src/repositories/ledgerRepository.js:83-109 | Transfers that all go from a lower to a higher account never deadlock: some running call can move |
| `LedgerSolo.SoloRun` | services/ledger-service/src/repositories/ledgerRepository.js:28-163 | A call nobody interrupts ends within nine statements with the outcome, error and tables of the sequential definition, which `TransferOutcome` and its companions spell out |
| `LedgerStore.Session.ExecuteDoubleEntryTransfer` | services/ledger-service/src/repositories/ledgerRepository.js:19-164 | With anything happening elsewhere at every await, the operation as written is one call of the interleaving model: the tables, the locks, the commit order and the outcome are the model's on a trace that is its own statements and what the schedule says happens at the awaits of each, one await per statement and more only while the statement is blocked |
| `LedgerStore.Session.ExecuteDeposit` | services/ledger-service/src/repositories/ledgerRepository.js:233-317 | The same for a deposit |
| `LedgerStore.Session.ExecuteWithdrawal` | services/ledger-service/src/repositories/ledgerRepository.js:322-414 | The same for a withdrawal |
| `LedgerStore.Session.EndedInMachine` | services/ledger-service/src/repositories/ledgerRepository.js:19-164 | An operation that has ended with an outcome is, in the model run on its trace, a call that ended with it |
| `LedgerStore.Session.EndedOnSchedule` | services/ledger-service/src/repositories/ledgerRepository.js:19-164 | Its trace is exactly its statements, each after the schedule's awaits of it; if it gave up, it was blocked after the last one its patience allows, and crashed there |
| `LedgerStore.HeedsUnique` | services/ledger-service/src/repositories/ledgerRepository.js:19-164 | The schedule leaves no choice: two ways to live through it agree on how often each statement awaits, as far as both go |
| `LedgerStore.Session.Await` | services/ledger-service/src/repositories/ledgerRepository.js:44-58 | During an await what the schedule says happens elsewhere happens, in order, and the call itself stays where it was |
| `LedgerStore.StepElsewhere` | services/ledger-service/src/repositories/ledgerRepository.js:83-109 | What happens elsewhere depends on a running call only through the rows it has written and the key it is creating |
| `LedgerStore.Session.CheckDuplicate` | services/ledger-service/src/repositories/ledgerRepository.js:30-41 | The operation ends as a duplicate or goes on with the record it found, as the model's duplicate test decides |
| `LedgerStore.Session.FindActive` | services/ledger-service/src/repositories/ledgerRepository.js:44-66 | A missing or deleted account ends the operation as not found, a frozen or closed one as not active; any other is active and read as committed |
| `LedgerStore.Session.UpdateMany` | services/ledger-service/src/repositories/ledgerRepository.js:83-89 | The update waits exactly while its row still has the expected version and another transaction holds it; then the row is written, one version on, if its version is the expected one, and zero rows otherwise; a call that gives up was blocked to the last |
| `LedgerStore.Session.CreateTransaction` | services/ledger-service/src/repositories/ledgerRepository.js:120-132 | The record is created unless the key exists once nobody else is creating it |
| `LedgerStore.Session.Commit` | services/ledger-service/src/repositories/ledgerRepository.js:156-163 | All the call has written becomes visible in one step |
| `LedgerStore.Session.Rollback` | services/ledger-service/src/repositories/ledgerRepository.js:91-109 | A thrown error leaves nothing of what the call has written |
| `LedgerKeys.CashKeyMovesMoneyOnce` | services/ledger-service/src/repositories/ledgerRepository.js:284-298 | Over any replays, sequential or concurrent, a key whose record is a deposit's or withdrawal's moved money exactly once if the record is new and never if it was there already |
| `LedgerKeys.SettledKeyMovesNothing` | services/ledger-service/src/repositories/ledgerRepository.js:30-41 | Once a record is completed and has entries, every call with its key that begins later, or has yet to test for a duplicate, changes nothing, whatever else is in flight |
| `LedgerKeys.OnlyCallsInFlightMove` | services/ledger-service/src/repositories/ledgerRepository.js:30-41 | From then on the key moves money at most once for each call that was already past its duplicate test |
| `LedgerKeys.ReplayRecognisedIff` | services/ledger-service/src/repositories/ledgerRepository.js:29-41 | Running a committed operation again is recognised as a duplicate if and only if its record was completed already, or it created the record and is not a transfer |
| `LedgerKeys.TransferReplayMovesTwice` | services/ledger-service/src/repositories/ledgerRepository.js:115-133 | A transfer replayed before its PENDING record is marked moves the money a second time |
| `LedgerPaging.LedgerRepository.GetAccountLedgerEntries` | services/ledger-service/src/repositories/ledgerRepository.js:169-228 | A page is the next `limit` rows after the cursor, and a cursor comes back exactly when rows remain: the id of the first row not shown |
| `LedgerPaging.PageAfterRow` | services/ledger-service/src/repositories/ledgerRepository.js:196-222 | After row i the page is rows i + 1 on, and its cursor the id of the row that follows it, if there is one |
| `LedgerPaging.PageFromTheTop` | services/ledger-service/src/repositories/ledgerRepository.js:196-222 | Without a cursor the page is the first rows; after a row that is gone it is empty and the last |
| `LedgerPaging.WalkShows` | services/ledger-service/src/repositories/ledgerRepository.js:196-227 | Following `nextCursor` ends and shows, in order, exactly the rows i with i mod (limit + 1) different from limit |
| `LedgerPaging.WalkVisits` | services/ledger-service/src/repositories/ledgerRepository.js:218-222 | No entry is shown twice, and row i is shown if and only if i mod (limit + 1) is not limit |
| `LedgerPaging.WalkCompleteIff` | services/ledger-service/src/repositories/ledgerRepository.js:196-222 | The walk shows every entry if and only if all of them fit on the first page |
| `AccountLocks.MutualExclusion` | shared/src/lock/lockService.js:193-205 | Two callbacks with an account in common never both run while each is within its earliest lease |
| `AccountLocks.AllOrNothing` | shared/src/lock/lockService.js:146-180 | A call that runs holds one lease per distinct non-empty account, taken in strictly ascending order and in Redis until it lapses; a call that failed or finished owns no live key |
| `AccountLocks.LeaseSurvivesOthers` | shared/src/lock/lockService.js:10-16 | Whatever other calls set, roll back or release, a lease stands until its owner acts or its time runs out |
| `AccountLocks.SomeCallerWins` | shared/src/lock/lockService.js:151-176 | In every schedule, when all calls that began have won or failed, at least one has won |
| `AccountLocks.AdvanceMakesProgress` | shared/src/lock/lockService.js:154-177 | Nobody waits: each command of an undecided call brings it nearer to winning or failing |
| `AccountLocks.SortedAccountsSorts` | shared/src/lock/lockService.js:152 | The accounts to lock are strictly ascending and are exactly the non-empty ones asked for |
| `AccountLocks.RunKeepsInv` | shared/src/lock/lockService.js:146-188 | Every key in Redis was set by some call for one of its accounts, and every unreleased lock is there until it lapses |
| `AccountLocks.LosesIffLeased` | shared/src/lock/lockService.js:54-96 | A call loses exactly when the account it has come to is leased and the lease has not run out; otherwise it has it for its full time to live |
| `AccountLocks.GivesBackIffOwned` | shared/src/lock/lockService.js:101-140 | A key is taken out exactly when its lease has not run out and holds this call's value |
| `AccountLocks.LessIff` | shared/src/lock/lockService.js:152 | The order is JavaScript's: by the first character that differs, a proper beginning first |
| `LockServices.LockService.AcquireLock` | shared/src/lock/lockService.js:54-96 | `SET NX PX`: a lease exactly when Redis said OK; a conflict, a failed command and a lost reply all answer nothing, and only the last can leave the key behind |
| `LockServices.LockService.ReleaseLock` | shared/src/lock/lockService.js:101-140 | The key is deleted exactly when it still holds this lock's value; true only when a lock was given and Redis said so |
| `LockServices.LockService.AcquireAccountLocks` | shared/src/lock/lockService.js:146-180 | Under any interference and any Redis failure: all leases, one per distinct non-empty account in order, exactly when every command was granted; else a conflict at the first that was not, with those before it given back in the order they were taken; what Redis then holds is stated outright, and this call owns no live key of it but those whose reply or whose own roll-back was lost |
| `LockServices.LockService.ReleaseAccountLocks` | shared/src/lock/lockService.js:182-188 | Every lock is given back in turn, each after what others do meanwhile; afterwards this call owns no live key but those whose own release did not reach Redis; within the earliest lease every lock counts as released if all did |
| `LockServices.LockService.WithAccountLocks` | shared/src/lock/lockService.js:193-205 | The callback runs exactly when every command was granted; what Redis holds afterwards is what the acquisitions, then the callback, then the releases make of it, in that order; no live key of the call is left but those whose own command was lost |
| `LockServices.CallbackIsCovered` | shared/src/lock/lockService.js:199-204 | Whatever others do while the callback runs, every account stays leased to the call until its lease runs out |
| `LockServices.EachLockInTurn` | shared/src/lock/lockService.js:154-158 | What others do during an await comes before the command that is awaited; a lock is granted exactly when the command and its reply get through and no lease on the account is running, and then for its full time |
| `LockServices.EachReleaseInTurn` | shared/src/lock/lockService.js:101-140 | A release takes out the call's own running lease, if the command gets through, and nothing else |
| `LockServices.UndisturbedCall` | shared/src/lock/lockService.js:193-205 | A call that nobody disturbs, on free accounts, has them all leased from one instant, and leaves none of them and everything else as it was |
| `LockServices.UndisturbedRefusal` | shared/src/lock/lockService.js:154-177 | One whose next account is another's gives all it has back and leaves everything else as it was |
| `RateLimiter.RefinesNaiveCount` | shared/src/rate-limit/rateLimiterService.js:7-37 | On every timed run and any mix of limits, the pruned, expiring set answers as counting all accepted requests in (now - window, now] would |
| `RateLimiter.WindowNeverExceedsLargestLimit` | shared/src/rate-limit/rateLimiterService.js:18-25 | No window, wherever it ends, holds more accepted requests than the largest limit in use |
| `RateLimiter.PrunedIsWindow` | shared/src/rate-limit/rateLimiterService.js:14-25 | Pruning and key expiry drop no entry that is still in the window |
| `RateLimiter.RetryHintExact` | shared/src/rate-limit/rateLimiterService.js:29-35 | With one limit on a key, a retry after a denial is accepted if and only if the oldest entry has left the window; waiting the hinted seconds is enough and less than a second too long |
| `RateLimiter.RetryAcceptedIff` | shared/src/rate-limit/rateLimiterService.js:18-29 | With mixed limits, a retry under limit L is accepted exactly when the L-th latest entry has left the window |
| `RateLimiter.HintSufficesIff` | shared/src/rate-limit/rateLimiterService.js:31-34 | Whatever limits the key has seen, waiting the hint is enough if and only if the limit-th latest entry has left the window by then |
| `RateLimiter.AnswersTell` | shared/src/rate-limit/rateLimiterService.js:18-36 | Every answer of every run by the plain count: the room that is left with the request counted in and the second it leaves the window; for a denial, the second the oldest accepted one leaves it, and how many seconds that is, at least one |
| `RateLimiter.IdleKeyLapsesAt` | shared/src/rate-limit/rateLimiterService.js:24 | A key nobody uses is gone a second after its last accepted request left the window, rounded up, and not before |
| `RateLimiter.DenialKeepsLifetime` | shared/src/rate-limit/rateLimiterService.js:29-36 | A denial neither lengthens nor shortens the life of a key |
| `RateLimiterService.TierAdmitsIff` | services/gateway/src/middleware/rateLimiter.js:139-174 | Over every run on every key: a request passes exactly when fewer than 10 (AUTH), 25 (PAYMENT) or 100 (GENERAL) were accepted with its key in the last 60 seconds |
| `RateLimiterService.KeysAreIndependent` | shared/src/rate-limit/rateLimiterService.js:101-164 | The bucket of a key is that of its own requests alone |
| `RateLimiterService.KeyIs` | services/gateway/src/middleware/rateLimiter.js:139-174 | AUTH counts by address; the others by user if there is one, else by address |
| `RateLimiterService.ExcludedIff` | services/gateway/src/middleware/rateLimiter.js:11-19 | A path passes unchecked exactly when its first segment is health, metrics, docs or admin |
| `RateLimiterService.MixedLimitsBreakTheHint` | services/gateway/src/middleware/rateLimiter.js:150-174 | On the key that PAYMENT and GENERAL share, a payment after n GENERAL requests, 26 to 59 of them, is denied, told to wait 60 - n seconds, and denied again when it has |
| `RateLimiterService.Service.RunScript` | shared/src/rate-limit/rateLimiterService.js:7-37 | The script as written: the key's bucket and the answer are the run model's, other keys are untouched |
| `RateLimiterService.Service.CheckRateLimit` | shared/src/rate-limit/rateLimiterService.js:101-164 | One script run and its counters; a Redis error allows the request uncounted |
| `RateLimiterService.Service.Reset` | shared/src/rate-limit/rateLimiterService.js:169-177 | A reset forgets the key's bucket and no other |
| `RateLimiterService.Service.Admit` | services/gateway/src/middleware/rateLimiter.js:49-133 | Infrastructure paths pass unchecked; any other is checked under its tier's limit on the key it shares |
| `RateLimiterService.SameKeyIff` | services/gateway/src/middleware/rateLimiter.js:139-174 | Two requests share a bucket if and only if both are counted against the same user or both against the same address, whatever their tiers |
| `CircuitBreaker.BreakerInvariants` | shared/src/resilience/circuitBreaker.js:71-238 | For every interleaving of both drivers: counters within thresholds, `openedAt` null exactly in CLOSED, history the last 50 of a linked log ending in the current state, a request sent at most twice and twice only for a GET |
| `CircuitBreaker.TripSpacing` | shared/src/resilience/circuitBreaker.js:90-92 | Without resets, entries into OPEN are at least the open timeout apart, so a span holds at most span / timeout + 1 of them |
| `CircuitBreaker.GatedStartsWait` | shared/src/resilience/circuitBreaker.js:125-158 | No action behind a gate starts within the open timeout of a trip before it |
| `CircuitBreaker.GateAdmitsIff` | shared/src/resilience/circuitBreaker.js:125-135 | An instant is a full open timeout after every trip so far if and only if the gate would admit a call at it |
| `CircuitBreaker.RetryWaitsIff` | services/gateway/src/middleware/proxyFactory.js:96-101 | The proxy's retry starts a full open timeout after every trip if and only if the gate it goes around would have admitted it |
| `CircuitBreaker.RetryIgnoresTheTrip` | services/gateway/src/middleware/proxyFactory.js:96-101 | Whatever the thresholds, the gateway's own among them, there is a run in which the retry starts at the instant the breaker opens |
| `CircuitBreaker.RefusalHintSuffices` | shared/src/resilience/circuitBreaker.js:132-153 | After any run without a new trip, a call that waited as long as a refusal said passes the gate; while OPEN, the gate opens exactly one timeout after the trip, which is less than a second before the hinted time |
| `BreakerHistory.MovesExactlyWhen` | shared/src/resilience/circuitBreaker.js:125-238 | Over every run, from the events alone: the breaker opens exactly at a failure in HALF_OPEN or at the threshold-th in a row in CLOSED, closes exactly at a reset or at the last success it needs in HALF_OPEN, and half-opens exactly when a call asks a timeout after it opened |
| `BreakerHistory.FailedProbeReopens` | shared/src/resilience/circuitBreaker.js:199-211 | A failure in HALF_OPEN, seen by either driver, opens the breaker anew from that instant |
| `BreakerHistory.StatsAreCounts` | shared/src/resilience/circuitBreaker.js:119-229 | The reported counters are the numbers of calls of `execute`, successes, failures, refusals, recoveries and transitions; the proxy's calls are not in the total |
| `BreakerHistory.SendsExactlyWhen` | services/gateway/src/middleware/proxyFactory.js:64-194 | What is sent downstream: an admitted action, an admitted new request, and a GET once more after a 503 or a retryable error; nothing else |
| `GatewayProxy.BreakerObject.TransitionTo` | shared/src/resilience/circuitBreaker.js:71-110 | A transition sets the state, its fields, the count and the bounded history, and is nothing when the state is the same |
| `GatewayProxy.BreakerObject.ExecuteStart` | shared/src/resilience/circuitBreaker.js:119-154 | The gate: refuses with the seconds to wait and the last failure, to the fallback if there is one, or lets the action start, half-opening after the timeout |
| `GatewayProxy.BreakerObject.ExecuteError` | shared/src/resilience/circuitBreaker.js:188-237 | A failure is recorded, trips a HALF_OPEN breaker at once and a CLOSED one at the threshold, and goes to the fallback if there is one; client errors other than 408 and 429 do nothing and are thrown |
| `GatewayProxy.BreakerObject.ExecuteSuccess` | shared/src/resilience/circuitBreaker.js:157-187 | A success counts, resets failures when CLOSED, and closes a HALF_OPEN breaker at the threshold |
| `GatewayProxy.BreakerObject.ResetTo` | shared/src/resilience/circuitBreaker.js:271-277 | A reset is a transition to CLOSED that clears the counters even when already CLOSED |
| `GatewayProxy.BreakerObject.SecondsUntilHalfOpen` | shared/src/resilience/circuitBreaker.js:243-259 | The reported seconds are zero exactly when the gate would admit a call, else what the gate would say |
| `GatewayProxy.MicroserviceProxy.Handle` | services/gateway/src/middleware/proxyFactory.js:142-173 | The proxy's gate does to the breaker what `execute` does, except for the request count |
| `GatewayProxy.MicroserviceProxy.OnError` | services/gateway/src/middleware/proxyFactory.js:73-101 | The error handler counts a failure as `execute` does and retries a GET once on one of four error codes |
| `GatewayProxy.MicroserviceProxy.OnFinish` | services/gateway/src/middleware/proxyFactory.js:176-194 | The finish handler counts a 2xx to 4xx answer as a success of the shared breaker |
| `GatewayProxy.MicroserviceProxy.RetryOnce` | services/gateway/src/middleware/proxyFactory.js:64-71 | A GET is sent again at most once |
| `GatewayProxy.MicroserviceProxy.OnProxyRes` | services/gateway/src/middleware/proxyFactory.js:58-71 | A GET answered 503 is sent again unless it was already |
| `AccountCache.StalenessBound` | services/account-service/src/services/accountService.js:71-178 | In every interleaving of reads, fills, invalidations, Redis failures and writes, a returned balance was stored at most 29.999 s + 299.999 s and the two read-to-fill delays before |
| `AccountCache.BalanceAge` | services/account-service/src/services/accountService.js:150-171 | A returned balance is at most 29.999 s and a delay older than when the request that cached it got it; one older than 29.999 s and both delays came through the details key |
| `AccountCache.BalanceOutlivesItsTtl` | services/account-service/src/services/accountService.js:150-171 | The bound is met for all delays: a balance can be returned 329.998 s and both delays after it was replaced, although its key lives 30 s |
| `AccountCache.FreshBalanceReachesItsTtl` | services/account-service/src/services/accountService.js:150-171 | So is the bound for a balance cached straight from the database |
| `AccountCache.InvalidationHoldsIff` | shared/src/cache/accountCache.js:186-211 | Whatever happens after an invalidation, no key holds and no new answer shows anything read before it, if and only if no fill with something read before was pending when it came |
| `AccountCache.OldFillReturns` | services/account-service/src/services/accountService.js:150-178 | A balance fill that was pending when the invalidation came puts the old balance back, and the very next reader is given it |
| `AccountCache.RunKeepsInv` | shared/src/cache/accountCache.js:83-181 | Each cached item was stored at a known instant, and its key expires within its bound of that instant |
| `AccountCache.ReadAlone` | services/account-service/src/services/accountService.js:71-178 | A read that nobody disturbs, with any of its Redis commands failing: the live balance key answers, else the live details key, else the database; whoever may not read is denied and nothing is cached; the keys are filled for 300 s and 30 s unless Redis fails just then |
| `AccountService.AccountReader.GetAccountDetails` | services/account-service/src/services/accountService.js:71-123 | With anything happening elsewhere at every await, and Redis failing any command: the read is one request of the interleaved model; the live details key answers, else the database, and an account is refused exactly to those who may not read it |
| `AccountService.AccountReader.GetAccountBalance` | services/account-service/src/services/accountService.js:128-179 | The same for a balance: the live balance key answers, else the details, whose balance is cached anew; whatever fails or happens meanwhile, nobody sees an account that is not theirs to read |
| `AccountService.AccountReader.AnswerWasStored` | services/account-service/src/services/accountService.js:128-179 | What the read returns was the stored balance at most the two lifetimes and the two read-to-fill delays before |
| `AccountService.StepElsewhere` | services/account-service/src/services/accountService.js:71-178 | What other requests, writes and invalidations do neither sees a request nor changes where it stands |
| `AccountService.AccountCacheService.InvalidateAccount` | shared/src/cache/accountCache.js:186-211 | Both keys are deleted and the ones that were there are counted |
| `AccountService.AccountCacheService.InvalidateAccounts` | shared/src/cache/accountCache.js:216-246 | Both keys of every listed account are deleted, no other key is touched, and each key that was there counts once however often it is listed |
| `EventStream.ExactlyOnceResume` | services/gateway/src/app.js:154-221 | Across any run of drops and reconnects that come before 100 missed events, what the client receives is one contiguous stretch of what was broadcast: no gap, no repeat |
| `EventStream.ReconnectCompleteIff` | services/gateway/src/app.js:207-221 | A reconnecting client is sent exactly what it missed if and only if at most 99 events were broadcast since its last; otherwise it is sent nothing |
| `EventStream.MissedIsTheRest` | services/gateway/src/app.js:207-221 | A client is sent again what follows the first event with its id in the buffer |
| `EventStream.NothingMissed` | services/gateway/src/app.js:207-221 | And nothing if it names none, or one that is not kept |
| `EventLinks.Link.HandsOnAStretch` | services/gateway/src/app.js:154-221 | The hub and the client as they are written, joined by a connection that breaks and is restored in time, hand on one contiguous stretch of what was broadcast |
| `EventLinks.Link.Broadcast` | services/gateway/src/app.js:154-185 | A broadcast by the hub is the model's broadcast step, on whatever connection the client has |
| `EventLinks.Link.Connect` | frontend/src/api/eventsApi.js:96-156 | The client's connect and the hub's replay from its cursor are together the model's connect step |
| `EventLinks.Link.Deliver` | frontend/src/api/eventsApi.js:122-143 | Reading the next event that was written to the connection is the model's deliver step |
| `EventLinks.Link.Drop` | frontend/src/api/eventsApi.js:145-150 | A broken connection loses what was not read, and is the model's drop step |
| `EventHub.Hub.BroadcastSSEEvent` | services/gateway/src/app.js:154-185 | The event gets its id, the buffer is the last 100, and every connected client is written the event once or forgotten |
| `EventHub.Hub.WriteToClients` | services/gateway/src/app.js:171-178 | Every client is written to once, and exactly those whose write throws are removed |
| `EventHub.Hub.Stream` | services/gateway/src/app.js:206-223 | A connecting client is written the buffered events after the first one with its id, in order |
| `EventStreamClient.Client.Connect` | frontend/src/api/eventsApi.js:96-156 | A connection resumes from the cursor and replaces any earlier one and any timer; a refusal schedules the next attempt |
| `EventStreamClient.Client.ScheduleReconnect` | frontend/src/api/eventsApi.js:158-183 | Nothing for a closed client; else twenty attempts, then offline with nothing pending; the cursor is kept |
| `EventStreamClient.Client.OnOpen` | frontend/src/api/eventsApi.js:112-120 | An opened connection restarts the attempts, and its listeners are told when it ends an outage |
| `EventStreamClient.Client.OnMessage` | frontend/src/api/eventsApi.js:122-143 | Every message that parses is handed on; the cursor moves to its own id, the id inside the data having the last word |
| `EventStreamClient.Client.Reconnect` | frontend/src/api/eventsApi.js:214-217 | All attempts ahead again, and a connection that resumes from the cursor |
| `EventStreamClient.Client.OnError` | frontend/src/api/eventsApi.js:145-150 | A broken connection is dropped and a reconnect is pending exactly while attempts remain |
| `EventStreamClient.Client.OnWatchdog` | frontend/src/api/eventsApi.js:54-71 | A connection silent for more than 45 s is replaced at once with the cursor kept; any other is left alone |
| `EventStreamClient.Client.Close` | frontend/src/api/eventsApi.js:202-212 | Nothing stays open or pending and the cursor is forgotten |
| `EventDedup.RebroadcastOnlyAfterWindow` | services/gateway/src/services/gatewayEventConsumer.js:97-103 | An id is broadcast again only after at least 1000 other, pairwise different, ids were admitted |
| `EventDedup.RefinesUnboundedIff` | services/gateway/src/services/gatewayEventConsumer.js:97-103 | The 1000-id set broadcasts what an unbounded one would if and only if every duplicate arrives before 1000 other ids have first arrived after its own |
| `EventDedup.PublishedOnce` | services/gateway/src/services/gatewayEventConsumer.js:87-103 | An event that carries an id and was published is not published again by a later arrival with that id, from whichever source and whatever id would be made up for it, until 1000 others were |
| `EventDedup.NamedByItself` | services/gateway/src/services/gatewayEventConsumer.js:90-94 | An event goes by the header's id, else its eventId, else its id; only one without any gets a made-up one |
| `EventDedup.CompletesIff` | services/gateway/src/services/gatewayEventConsumer.js:89-141 | Exactly which events are taken for a completed payment |
| `EventDedup.GatewayEventConsumer.HandleLiveEvent` | services/gateway/src/services/gatewayEventConsumer.js:87-174 | An event from either source, under the header's id, its own or a made-up one, is published unless that id is remembered; a completed payment is followed by its notification; every connected client is written what is published, and exactly those whose write throws are forgotten |
| `EventDedup.GatewayEventConsumer.Remember` | services/gateway/src/services/gatewayEventConsumer.js:97-105 | A new id is remembered and the oldest beyond 1000 forgotten |
| `TokenRefresh.NoStrandedWaiter` | frontend/src/api/client.js:201-259 | In every run: at most one refresh is in flight, nobody queues when none is, and the promises settled are the tickets in order, each once, each with the outcome of the refresh it queued under |
| `TokenRefresh.EveryWaiterIsTold` | frontend/src/api/client.js:52-61 | When the refresh ends every waiter has its outcome, and none that had one changes |
| `TokenRefresh.ExpiryDispatchedOncePerRearm` | frontend/src/api/client.js:181-193 | The session-expired event is dispatched again only after the flag was taken down by a refresh or a reset |
| `TokenRefresh.SendsExact` | frontend/src/api/client.js:145-259 | A request has been sent exactly once, plus once for each retry begun, each wait ended and a refresh of its own; a rejected one at most once less |
| `TokenRefresh.SendsBound` | frontend/src/api/client.js:158-171 | So it is sent at most four times plus once for each wait in the queue |
| `TokenRefresh.QueuedSendsUnbounded` | frontend/src/api/client.js:202-211 | A queued request is not marked as retried, so for every n there is a run that sends it n + 1 times |
| `TokenRefresh.FailureMeetsItsFate` | frontend/src/api/client.js:145-259 | Every failure of every run, first reason first: a GET that met no answer, a time-out, a network error or a 5xx is tried again after 500 ms and once more after 1000 ms; login, signup and other refresh failures are rejected; a 401 of the refresh ends the session; a 401 is rejected if the session is over or the request was refreshed before, else queues behind the refresh or starts it |
| `TokenRefresh.RefreshedIsResent` | frontend/src/api/client.js:230-241 | A refresh that brings a token puts it in memory and in the default header, takes the expiry flag down, and sends the request again with it |
| `TokenRefresh.FailedRefreshExpires` | frontend/src/api/client.js:244-258 | One that brings none clears the memory token, ends the session, and rejects the request |
| `TokenRefresh.WaiterEnds` | frontend/src/api/client.js:202-211 | A queued request waits for the refresh it is behind; then it is sent with the memory token, or else the one that refresh brought, or is rejected if it brought none |
| `TokenRefresh.RetryIsSent` | frontend/src/api/client.js:158-171 | A retry carries the memory token, or else the header it had |
| `TokenRefresh.SentAndAnswered` | frontend/src/api/client.js:64-80 | A new request carries the memory token, or else the default one |
| `TokenRefresh.SentWithMemoryToken` | frontend/src/api/client.js:64-69 | Whatever sends a request, it carries the memory token if there is one |
| `TokenRefresh.ApiClient.ProcessQueue` | frontend/src/api/client.js:52-61 | Every queued promise is settled in order with the one outcome and the queue is emptied |
| `TokenRefresh.ApiClient.HandleError` | frontend/src/api/client.js:145-263 | The interceptor up to its first await: retry, reject, expire, queue or start the refresh, as the run model's step, by the error's status, code and message and the request's URL |
| `TokenRefresh.ApiClient.FinishRefresh` | frontend/src/api/client.js:216-259 | The rest of the interceptor: token stored, waiters resolved and the request sent with it, or waiters rejected and the session expired, and the flag down |

## Left out

- LedgerStore.Session.ExecuteDoubleEntryTransfer: how long a blocked statement waits is a number of awaits chosen by the caller, not seconds.
- LedgerStore.Session.CreateTransaction: does not fail or wait on the unique `referenceId`; only the idempotency key is checked.
- LedgerSerial.Conservation: balances are added as numbers; the code never compares currencies.
- LedgerKeys.CashKeyMovesMoneyOnce: covers keys whose record the ledger creates as COMPLETED; a deposit that finds a PENDING transfer record under its key behaves as a transfer does.
- AccountLocks.MutualExclusion: says nothing about a callback that outlives its lease, which the code does not prevent.
- AccountLocks.AllOrNothing: Redis answers every command; errors and lost replies are in `LockServices.LockService`, where a failed command may leave its key until it expires.
- AccountLocks.SomeCallerWins: Redis answers every command; a caller whose command failed loses to nobody.
- RateLimiter.RefinesNaiveCount: the clock does not run backwards, one window length per key, no two requests draw the same member, and the run begins at a key that is empty, new or just reset; it does not span a `reset`.
- CircuitBreaker.BreakerInvariants: `forceState` is not an event; it can leave the counters of one state under another.
- EventStream.ExactlyOnceResume: needs distinct event ids; the code lets a caller broadcast an id it chose.
- EventStreamClient.Client.ScheduleReconnect: the backoff delay and its jitter are not modelled, only that a timer is pending.
- The values the operations return beside the outcome: the re-fetched rows, the created entries, log lines and telemetry.
- Time stamps, latency metrics, what the fallback of `execute` answers, and the callbacks `onStatusChange` and `onError`.
- The idempotency records that `lockService.js` keeps in Redis: a plain get and set.
- Account creation, user lists, summaries and searches.
- The payment service's orchestration, its outbox and its notifications; marking a record is an environment step.
- Authentication, cookies, JWT checks, Express wiring, health probes, Swagger, metrics and logging.
- RabbitMQ connection handling in the event consumer; arrivals of both sources are one merged sequence.
- The derivation of the client address in the rate limiter's middleware, and its response headers.
