# GIG Marketplace: verified model of the escrow core

This project models the money and life-cycle core of the GIG Marketplace backend and proves what its
services promise over whole runs: the job life cycle, the wallets with their escrow and ledger, deposit
requests, the chat room opened by an acceptance, the commission computed in floating point, the same calls at
row-lock granularity, one-time passwords, and the running average of ratings.

`dafny verify dfyconfig.toml` checks everything.

## How the model is built

| file | what it holds |
|---|---|
| Wrappers, Sums, Rounding | options and results, weighted sums over tables, rounding to the nearest integer |
| Binary64, Commission | division of integers in binary64 and the split of a price computed with it |
| Tables | the rows of the database, column ranges, exceptions |
| Marketplace | every service call as one atomic step: a new database, or an error and no change |
| Lifecycle, Escrow, Books, JobRows, Deposits, ChatRooms | one family of invariants each, kept by every step |
| Invariants | all of them together, the failures they rule out, and exactly which calls succeed |
| Runs | runs from the empty database |
| History | what the rows of users, jobs, requests and deposits say is what the run's calls did |
| Failures | which call raises which exception, read off the roles, the rows and the call |
| Services | the service layer as a class that changes its tables in place, proved against the atomic steps |
| Interleaving | the calls as transactions that lock rows, copy them, buffer writes and commit, under any schedule |
| Refinement, Serializability | every schedule is explained by the atomic calls in commit order |
| LockOrder | locks are taken in one order: no deadlock, and transactions in flight can always finish |
| Otp, OtpCalls | sending and verifying codes; what one call raises, deletes, revokes and writes |
| OtpRuns, OtpLimits | freshness, single use and the rate limit over whole runs |
| Rating | the stored running average, its rounding and its drift |

A table is a sequence and a row's identifier is its position. A service that raises returns an error and its
transaction leaves no change. `Integrity` is the error of a column constraint: money columns are
PositiveBigIntegerField (0 to 2^63 - 1), prices are PositiveIntegerField (0 to 2^31 - 1), a payment identifier
has at most 200 characters and a provider's name 20 in a request and 50 in the ledger. The clock, the
payment provider's answer and the Telegram gateway's answer are parameters of the calls. The commission
percentage is a constant of a run. Money is in tiyin, ratings in hundredths, times of one-time passwords in
microseconds.

A transaction of the interleaving model holds every lock to its end, reads a row only under its lock, computes
its writes from its local copies alone, and overwrites the committed rows at commit. A schedule may start
transactions, move any of them, kill any of them and let time pass, in any order.

## Where code and documentation disagree

The model follows the code.

- `calculate_commission(100_000, percent=0)` is expected to be free by tests/test_payments.py:149-152, but
  `percent or ...` falls back to the configured percentage. `Commission.ZeroPercentFallsBack` states exactly
  when such a call takes no commission; `Commission.ZeroPercentIsCharged` is the test's own case.
- `send_otp` documents at most 3 sends per phone in 10 minutes. The window is fixed, not sliding:
  `OtpLimits.FiveSendsInTenMinutes` is a run with five. Codes that get a stored row never exceed five
  (`OtpLimits.AtMostFiveInTenMinutes`); codes delivered under an identifier that is stored already are not limited
  at all (`OtpLimits.RepeatsAreUnlimited`). `OtpLimits.LimitKeptExactly` states for every run when no ten minutes
  deliver more than three codes: when each delivery found a live counter that, with the deliveries of earlier
  windows and the repeated identifiers still inside ten minutes, came to at most two.
- A code can be delivered without being counted. `OtpLimits.UncountedDelivery` states exactly when, and
  `OtpLimits.AtMostFiveDelivered` that the bound of five holds for all codes but those under repeated identifiers.
- `Transaction.amount` declares a minimum of 1, which no service enforces. `JobRows.FreeJobLeavesEmptyRow` and
  `JobRows.SmallPriceLeavesEmptyRow` are calls that write an empty row. `Runs.AmountsPositiveWhen` states exactly
  when a run has none, `Invariants.StepAmountsPositive` exactly which call writes one, and
  `Runs.AmountsAlwaysPositive` that none does when prices come through the serializer.
- `JobReview` allows one review per party, but `rate_user` does not look at it: repeated ratings count.
- The wallet service documents 10% and 90%; the code uses the configured percentage.

## Model

| member | source | states |
|---|---|---|
| Binary64.TrueDivideRounds | apps/core/utils.py:165 | the integer long-division algorithm returns the binary64 number nearest to the exact quotient, ties to even, for all integers |
| Binary64.TruncateIsFloor | apps/core/utils.py:165 | dropping the fraction bits of a non-negative number leaves its whole part |
| Commission.FloatFeeIsExact | apps/core/utils.py:164-167 | the truncated binary64 quotient equals amount times percent over 100 rounded down, whenever that product is below 100 * 2^47 + 99 |
| Commission.FloatFeeExactly | apps/core/utils.py:164-167 | for every product below 100 * 2^48 the float commission is one above that share if the product is at least 100 * 2^47 + 99 and leaves 99 modulo 100, and equals it otherwise; so the bound cannot be raised |
| Commission.StoredPricesAreExact | apps/core/utils.py:153-167 | every price its column can hold, with any percentage up to 6,553,600, is split without rounding error |
| Commission.ShareOfPrice | apps/core/utils.py:166 | up to 100 percent, commission and payout both lie between 0 and the price |
| Commission.ZeroPercentFallsBack | apps/core/utils.py:164 | a zero percentage takes no commission if and only if the configured percentage rounds to none |
| Commission.WhichPercentCounts | apps/core/utils.py:164-167 | a given percentage of at least 1 is the one charged, whatever the setting, and without one the setting is; commission and payout always make up the amount |
| Commission.ZeroPercentIsCharged | tests/test_payments.py:149-152 | the test's case takes 10 percent |
| Services.Platform.SaveWallet | apps/payments/services.py:93 | only the named columns are written, and nothing is when a column constraint refuses the row |
| Services.Platform.DepositTo | apps/payments/services.py:34-74 | credits the balance and appends one DEPOSIT row, or fails on bounds or a full column without change |
| Services.Platform.DeductForJob | apps/payments/services.py:76-109 | moves the price from balance to held and spent with one JOB_PAYMENT row, or fails without change |
| Services.Platform.SplitPrice | apps/payments/services.py:124 | the float split of any stored price is the exact share, rounded down, and the rest |
| Services.Platform.ReleaseJobPayment | apps/payments/services.py:111-179 | does what the atomic release says, with the COMMISSION row before the JOB_RELEASE row, or rolls back |
| Services.Platform.RefundJob | apps/payments/services.py:181-216 | does what the atomic refund says, clamps included, or rolls back |
| Services.Platform.CreateJob | apps/jobs/services.py:36-90 | same new state, result and error as the atomic step |
| Services.Platform.AcceptJob | apps/jobs/services.py:92-148 | on a job row that no other transaction holds: same new state, result and error as the atomic step |
| Services.Platform.StartJob | apps/jobs/services.py:150-166 | same new state, result and error as the atomic step |
| Services.Platform.CompleteJob | apps/jobs/services.py:168-216 | same new state, result and error as the atomic step |
| Services.Platform.CancelJob | apps/jobs/services.py:218-261 | same new state, result and error as the atomic step |
| Services.Platform.InitiateDeposit | apps/payments/services.py:240-291 | same new state, result and error as the atomic step; a provider failure leaves no request |
| Services.Platform.ConfirmDeposit | apps/payments/services.py:293-331 | same new state, result and error as the atomic step |
| Services.Platform.FindRoom | apps/chat/signals.py:26-32 | finds a room if and only if the job has one |
| Services.Platform.CreateChatRoomOnAccept | apps/chat/signals.py:22-45 | opens one room with one system message when an accepted job without a room is saved, and does nothing else |
| Services.Platform.SaveJob | apps/jobs/services.py:138 | overwrites one job row and lets the signal run |
| Services.Platform.Serve | apps/jobs/services.py:36-274 | serving any call gives the state after the atomic step and reports its error, and keeps every invariant that held |
| Lifecycle.StepEvolvesJobs | apps/jobs/services.py:124-251 | a successful call moves the status of the job it names along one edge, sets exactly the stamp of that edge and the worker only on acceptance, keeps the price, the employer and the other stamps, and leaves every other job alone |
| Lifecycle.StepKeepsJobsOk | apps/jobs/models.py:62-123 | each status carries the stamps and the worker it must, only a cancelled job has a reason, and both parties have the right role |
| Lifecycle.WorkerIsNotEmployer | apps/jobs/services.py:130-132 | the worker of a job is never its employer |
| Lifecycle.StepKeepsOrder | apps/jobs/services.py:137-249 | stamps stay in life-cycle order if the clock read is not behind the job's stamps |
| Escrow.LiveJobIsCovered | apps/payments/services.py:139-140 | whenever a job is live, held and spent of its employer are at least its price, so the bare subtraction never goes below zero |
| Escrow.RefundIsExact | apps/payments/services.py:195-199 | the min and max clamps never bite: a refund returns the whole price from all three fields |
| Escrow.CreateKeepsWallets | apps/payments/services.py:83-93 | after creating a job every wallet still equals the sums over the job and request tables |
| Escrow.CompleteKeepsWallets | apps/payments/services.py:138-160 | the same after completing one |
| Escrow.CancelKeepsWallets | apps/payments/services.py:194-200 | the same after cancelling one |
| Escrow.ConfirmKeepsWallets | apps/payments/services.py:52-54 | the same after confirming a deposit |
| Escrow.StepKeepsWallets | apps/payments/services.py:27-32 | the same after every call: held, spent, earned and balance of every user are functions of the tables |
| Escrow.NothingHeldWhenAllEnded | apps/payments/models.py:51-54 | with no live job nothing is held for anyone |
| Books.StepKeepsBooks | apps/payments/services.py:52-213 | ledger rows chain per wallet from 0 to the stored balance and carry the right direction |
| Books.ConsecutiveRowsMeet | apps/payments/models.py:114-119 | the later of two consecutive rows of a wallet starts where the earlier one ended |
| Books.BalanceFromLedger | apps/payments/models.py:83-95 | balance = DEPOSIT + REFUND + JOB_RELEASE - JOB_PAYMENT of the wallet's own rows |
| Books.StepKeepsEscrowMatch | apps/payments/services.py:89-213 | held = JOB_PAYMENT - REFUND - COMMISSION of the wallet, less the JOB_RELEASE rows of the jobs it funded |
| Books.StepConserves | apps/payments/services.py:27-32 | no successful call changes wallets plus commission minus deposits |
| JobRows.StepKeepsJobRows | apps/payments/services.py:95-213 | the rows of a job are exactly those its status implies, in the right wallets and amounts, and with the marketplace's own provider name and no payment identifier |
| JobRows.CommissionNearShare | apps/core/utils.py:164-167 | all commission taken is at most its exact share and short of it by less than one tiyin per completed job |
| JobRows.AmountsPositiveExactly | apps/payments/models.py:110-113 | no ledger row is empty if and only if every job has a price of at least 1 and every completed one a price times percent of at least 100 under a percent below 100 |
| JobRows.CompletionRowsPositive | apps/payments/models.py:110-113 | commission and payout are both at least 1 if and only if price times percent is at least 100 and the percent is below 100 |
| JobRows.FreeJobLeavesEmptyRow | apps/jobs/services.py:58-76 | any employer can create a job of price 0, and its JOB_PAYMENT row is empty |
| JobRows.SmallPriceLeavesEmptyRow | apps/payments/models.py:110-113 | every completed job whose price times percent is below 100 has a COMMISSION row of amount 0 |
| Invariants.StepAmountsPositive | apps/payments/services.py:95-206 | a successful call first writes an empty row if and only if it creates a job of price 0, or completes one whose commission or payout comes to nothing; a refund never does |
| Deposits.StepKeepsDeposits | apps/payments/services.py:300-325 | confirmed requests and DEPOSIT rows correspond one to one with equal wallet, amount and provider; pending requests have no row |
| Deposits.StepKeepsDepositTotal | apps/payments/services.py:317-325 | the DEPOSIT rows add up to the confirmed requests |
| Deposits.ConfirmOutcome | apps/payments/services.py:47-50 | a replayed confirmation is refused, and a pending request from the service always passes the repeated bounds check |
| Deposits.MoneyNeverRecirculates | apps/jobs/services.py:51-106 | employers earn nothing; workers spend and hold nothing |
| Deposits.FieldsBounded | apps/payments/models.py:47-62 | after n confirmed deposits no wallet field exceeds n times the largest deposit |
| ChatRooms.StepKeepsRooms | apps/chat/signals.py:21-44 | a job has a room if and only if it was ever accepted; then exactly one, with one system message and the job's own parties |
| Invariants.StepKeepsInv | apps/jobs/services.py:31-261 | every successful call keeps all invariants together |
| Invariants.RefusedExactly | apps/payments/models.py:47-157 | below 922337203685 confirmed deposits a modelled column refuses a write if and only if a solvent employer creates a job whose price is outside its column, the employer completes a running job whose commission exceeds its price, or a provider name or payment identifier of a deposit is too long for its own |
| Invariants.FieldsWithinColumns | apps/payments/models.py:47-62 | up to that many deposits every field stays below 2^63 |
| Invariants.SucceedsExactlyWhenEnabled | apps/jobs/services.py:36-261 | below 922337203685 confirmed deposits a call succeeds if and only if its caller, job status, price, balance, request and text lengths allow it and a completion's commission does not exceed the price; no other modelled check or column ever decides |
| Runs.RunHolds | apps/jobs/services.py:31-261 | every state of every run from the empty database satisfies every invariant |
| Runs.AcceptedAtMostOnce | apps/jobs/services.py:124-138 | over any run the successful acceptances of a job number one if its row carries one and none otherwise |
| Runs.ConfirmedAtMostOnce | apps/payments/services.py:300-325 | the same for confirmations of a deposit request |
| Runs.JobsOnlyMoveForward | apps/jobs/models.py:50-52 | between any two points of a run a job only moves along the life cycle, ended jobs never change, and parties, price and stamps are set once |
| History.RecordsAreHistory | apps/payments/services.py:259-325 | at every point of every run a row records a fact if and only if a successful call of the run made it: a user's role; a job's creation, acceptance, start, completion or cancellation with its time and its party, price or reason; a deposit request's wallet, amount, provider and identifier as the call at its position gave them; a request's confirmation |
| History.RecordsStay | apps/jobs/services.py:68-251 | no such fact is ever lost or overwritten later in a run |
| History.ConfirmWritesRow | apps/payments/services.py:317-322 | a successful confirmation appends one DEPOSIT row with the wallet, amount and provider of its request, and the identifier it brought if that is not empty, the request's own otherwise |
| History.DepositRowsAreHistory | apps/payments/services.py:300-325 | the DEPOSIT rows of a run are its successful confirmations in order, each with those contents |
| Failures.FailsExactly | apps/jobs/services.py:46-251 | for every call and every error, the call raises the error if and only if roles, rows, balances, limits and text lengths say so, in the services' order of checks |
| Runs.AtMostFourCallsPerJob | apps/jobs/models.py:14-19 | a run has at most four successful job calls per job it creates |
| Runs.MonotoneClockOrdersStamps | apps/jobs/models.py:116-122 | under a clock that never runs back the stamps of every job are in life-cycle order |
| Runs.WalletsAreImplied | apps/payments/models.py:28-40 | at every point of every run the four fields of a wallet are the stated sums over jobs and requests |
| JobRows.EscrowFromLedger | apps/payments/services.py:89-213 | the same from the ledger alone: the wallet of a job's JOB_PAYMENT row is the one its release counts against |
| Runs.LedgerGivesBothBalances | apps/payments/models.py:83-90 | at every point of every run the ledger alone gives balance and escrow |
| Runs.JobRowsAreImplied | apps/payments/models.py:128-134 | at every point of every run a job's rows are those its status implies |
| Runs.RunConserves | apps/payments/services.py:1-5 | wallets plus commission equal deposits at every point of every run |
| Runs.EndedMarketplaceConserves | apps/payments/services.py:1-5 | when all jobs have ended, nothing is held, and balances plus commission equal confirmed deposits |
| Runs.AmountsPositiveWhen | apps/payments/models.py:110-113 | the same exact condition for the ledger of every run |
| Runs.AmountsAlwaysPositive | apps/jobs/serializers.py:101-106 | over runs with serialized prices and 1 to 99 percent every ledger amount is at least 1, refunds included |
| Runs.RunCommissionNearShare | apps/core/utils.py:164-167 | the commission bound over whole runs |
| Refinement.MoveGoes | apps/jobs/services.py:108-116 | a move of a transaction takes only free rows and leaves every local copy equal to the committed row |
| Refinement.FailureIsAtomic | apps/jobs/services.py:124-132 | a transaction fails only with the error the atomic call gives on the committed database |
| Refinement.CommitIsAtomic | apps/payments/services.py:126-160 | a commit publishes exactly what the atomic call computes from the committed database |
| Refinement.StepConfined | apps/payments/services.py:126-136 | a call leaves alone every row outside the rows it locked |
| Serializability.SchedulesAreSerializable | apps/payments/services.py:1-5 | under every interleaving the committed state is that of the committed calls run one by one; every transaction that committed or failed ended as its atomic call would, and one refused for a lock was an acceptance that had passed every earlier check |
| Serializability.RefusalMetHolder | apps/jobs/services.py:108-122 | every refused transaction met, at the moment of its refusal, another transaction in flight that held the row of its job |
| Serializability.SchedulesKeepInvariants | apps/payments/models.py:37-39 | every concurrently committed state satisfies every invariant |
| Serializability.OneAcceptanceCommits | apps/jobs/services.py:98-99 | of any number of concurrent acceptances of a job at most one commits |
| Serializability.OneConfirmationCommits | apps/payments/services.py:300-308 | of any number of concurrent confirmations of a request at most one commits |
| Serializability.ConcurrentStampsOrdered | apps/jobs/services.py:137-249 | stamps are in order in every committed state although clocks are read before commit |
| LockOrder.WaitsUpward | apps/payments/services.py:126-136 | a transaction waits only for a row ranked above all it holds |
| LockOrder.NoDeadlock | apps/payments/services.py:126-136 | no schedule reaches a circle of waiting transactions |
| LockOrder.SomeTransactionMoves | apps/jobs/services.py:181-206 | while transactions are in flight at least one can move |
| LockOrder.AcceptFailsFast | apps/jobs/services.py:108-122 | over the rows the model locks, an acceptance never queues, and is refused for the lock only when another transaction holds the job's row; the joined employer row, which the statement locks too, is not among them |
| LockOrder.AllTransactionsCanFinish | apps/jobs/services.py:92-261 | from any reachable configuration moves alone bring every transaction to its end |
| Otp.OtpService.RevokeActive | apps/accounts/services.py:65-69 | what is revoked are the identifiers at exactly the positions of the phone's unused codes, in table order, each once |
| Otp.RevokesWhatItDeletes | apps/accounts/services.py:65-70 | the rows deleted are those whose identifiers are revoked: the others stay, in order |
| Otp.OtpService.DeleteActive | apps/accounts/services.py:70 | exactly the unused rows of the phone are deleted |
| Otp.OtpService.SendOtp | apps/accounts/services.py:39-92 | same new rows, counter and outcome as the specification; unless rate-limited, revokes exactly the phone's unused codes |
| OtpCalls.SendFailsExactly | apps/accounts/services.py:54-85 | a send raises each error if and only if the live counter, the gateway's answer and the stored identifiers say so |
| OtpCalls.SendWritesRows | apps/accounts/services.py:64-79 | after a send the table holds all rows but the phone's unused ones, and the new code if it was delivered under a new identifier |
| OtpCalls.SendWritesCounter | apps/accounts/services.py:81-85 | only a successful send counts: one more in the live window, or the first of a window of ten minutes |
| Otp.OtpService.VerifyOtp | apps/accounts/services.py:94-128 | same new rows and outcome as the specification |
| OtpCalls.VerifyFailsExactly | apps/accounts/services.py:109-122 | a verification raises each error if and only if the phone's unused codes, their age and the gateway's answer say so |
| OtpCalls.VerifyWrites | apps/accounts/services.py:109-125 | a successful verification marks the phone's newest unused code used and changes nothing else; a refused one changes nothing |
| Otp.Latest | apps/accounts/services.py:110-113 | the newest unused row of the phone, if there is one |
| OtpRuns.TableMatchesHistory | apps/accounts/services.py:64-79 | a phone has at most one unused row, and it is the code its history makes usable |
| OtpRuns.VerificationIsFresh | apps/accounts/services.py:109-125 | a verification succeeds if and only if the last send that passed the rate limit left an unused code at most 300 seconds old and the gateway accepts it |
| OtpRuns.VerifiesAtMostOnce | apps/accounts/services.py:124-125 | each request identifier verifies at most once over any run |
| OtpLimits.SendsAreWindowed | apps/accounts/services.py:55-85 | each counter window admits at most three deliveries that stored a row, counted or not, and windows open at least ten minutes apart; calls of other phones may overlap |
| OtpLimits.AtMostFiveInTenMinutes | apps/accounts/services.py:36-37 | any ten minutes contain at most five deliveries to a phone that stored a row, counted or not |
| OtpLimits.AtMostFiveDelivered | apps/accounts/services.py:72-79 | any ten minutes contain at most five delivered codes besides those under a repeated identifier, and at most five if the gateway repeats none |
| OtpLimits.RepeatsAreUnlimited | apps/accounts/services.py:75-85 | for every n a sequential run delivers n codes under a repeated identifier in one instant |
| OtpLimits.FiveSendsInTenMinutes | apps/accounts/services.py:45 | a run with five sends within twelve seconds, against the documented three |
| OtpLimits.DeliveryWithinLimit | apps/accounts/services.py:45-59 | a delivered code is within the documented limit of the ten minutes it ends if and only if the live counter, the stored deliveries of earlier windows and the repeated identifiers still inside them come to at most two, and if and only if the third delivery before it is ten minutes old |
| OtpLimits.LimitKeptExactly | apps/accounts/services.py:45-59 | a run delivers at most three codes in every ten minutes if and only if every delivery found that room |
| OtpLimits.OneWindowWithinLimit | apps/accounts/services.py:81-85 | ten minutes in which no window opens after an earlier stored delivery hold at most three stored deliveries |
| OtpLimits.UncountedDelivery | apps/accounts/services.py:72-85 | a delivered code leaves the counter unchanged if and only if its identifier is stored already, or the live counter seen at the start expires before the end of the call |
| Rating.StoredIsNearestHundredth | apps/accounts/models.py:130-133 | rounding first to 28 digits and then to the column stores a hundredth nearest to total over count; of two, the upper one where ties go away from zero and the even one where they go to even |
| Rating.AverageInRange | apps/accounts/models.py:76-81 | under either tie rule the stored average of ratings from 1.0 to 5.0 stays from 1.00 to 5.00 |
| Rating.DriftBound | apps/accounts/models.py:128-133 | under either tie rule, after n ratings the stored average is within (n+1)/4 hundredths of the true mean |
| Rating.RatedUser.UpdateRating | apps/accounts/models.py:128-133 | the count goes up by one and the stored average becomes that nearest hundredth of the old average times the old count plus the new rating, over the new count |
| Rating.RateUser | apps/accounts/services.py:216-254 | a rating reaches the target's row if and only if rater and target are the two parties of a completed job; otherwise each error is raised exactly under its condition and no row changes, and no other user's ever does |

## Left out

- Identifiers: a row gets its identifier when its transaction commits; gaps and the order of database
  sequences are not modelled.
- Ledger order: rows are ordered by commit; `created_at` of rows in different wallets may differ from that.
- Locks taken implicitly: rows joined by `select_related`, foreign-key share locks and unique-index locks are
  not modelled; only the job, wallet and request rows that `select_for_update` names are. In particular
  acceptances of different jobs of one employer can refuse each other over the joined user row.
- Services.Platform.AcceptJob: the class serves one call at a time, so the refusal of a locked row is modelled by
  the transactions of Interleaving only.
- The configurable partial refund that `cancel_job` mentions: only the full refund, its default, is written.
- Withdrawals, reversed and failed transactions: no service writes them.
- Columns that no rule reads: titles, descriptions, categories, places, payment URLs and metadata, and with them
  the writes their own lengths would refuse.
- HTTP views, serializers beyond the price minimum, permissions, Celery tasks, caches of job lists and
  notifications: they carry no rule of the core.
- Admin edits, user deletion, blocking and `scripts/seed_data.py`: they bypass the services, so runs start
  from the empty database and users are only added.
- Job discovery: filters and geographic search are queries over floats with no state.
- Services.Platform.Serve: percentages above 6,553,600 are excluded from the class, because beyond them
  products of stored prices leave the exact range; the atomic steps use the exact share for every percentage.
- Binary64: exponents are not bounded, because a stored price times a percentage neither overflows nor comes
  near the subnormal numbers.
- Rate-limit keys: the counter is kept per phone; collisions of the truncated hash are not modelled.
- One-time password calls and ratings do not overlap: the code takes no lock there, so concurrent calls are
  not modelled. A send call has separate start and finish times.
- Tokens, profiles and devices of the accounts service: they only add easy members.
