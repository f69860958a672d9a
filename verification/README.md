# ThrottleKit client: a verified model

ThrottleKit's Python client decides rate limits in three places, and this project models all three and
proves what they promise.

* **The five limiter scripts** that the Redis backend executes: GCRA, token bucket, fixed window, sliding
  window and sliding log. Each has a step function on exact integers (times and tokens multiplied up so
  that every quotient is whole), and a class whose `Run` method follows the script statement by statement
  on the stored fields, with exact real numbers where the script divides, and is proved to be that step.
  The main results are about whole runs: sequences of requests of any length.
* **Fleet leasing.** A client reserves a chunk of a windowed budget and spends it locally.
  `LeaseSpender`, the blocking limiter's refresh loop and the coroutine limiter are classes proved against
  functions; a fleet of them against one server is a state machine in which any number of checks on any
  number of clients interleave. Its ledger writes down every unit granted, spent, discarded or relabelled.
* **The heartbeat pump.** A pump thread and the owners of admissions race over the open set and two flags.
  The calls are classes; their steps, and the lock, are a second state machine.

`Runs` holds what the scripts share: runs, the expiring key, and two simulation lemmas. `Rounding` relates
integer floors and ceilings to those of real numbers. `dafny verify dfyconfig.toml` checks everything.

## How to read the main results

* A script's key is `Absent` or `Stored(value, deadline)`. `Run(Script(cfg), Absent, requests)` is what a
  store that never expires does; `RunExpiring` lets Redis drop an overdue key before any request it likes.
* `Remembering` is the limiter a script stands for: it keeps every admitted request for ever and decides
  from that record. The fixed window, the ring and the sorted set are each proved to answer as it does.
* `Allows(cfg, key, t, k)` says that a check of `k` units at `t` would be admitted.
* In the fleet, events that cannot happen change nothing, so `After(cfg, events)` over all event sequences
  is the set of all runs. The server may grant anything from nothing to what was asked for, for any
  window, as long as a window's grants stay within its limit. `AllowedUntil(tasks, w)` adds up the
  decisions that callers got with `w` as their `reset_at`.

## Where the code and its documentation differ

* `contract/throttlekit.proto:285-286` and `src/throttlekit/lease_spender.py:88-89` say that discarding at
  the boundary keeps a window's total bounded by its budget, whatever the number of clients.
  `apply_lease` gives leftover credits of another window the new boundary, so it does not.
  `FleetOverrun.ReplyBreaksTheBoundIff` says which replies do the damage: exactly those that find credits
  of another window and are not late.
  * Blocking limiters allow at most `limit * (largest cost)` until a window's end, and at most
    `limit + min(clients, limit) * (largest cost - 1)` if their boundaries do not go back; both are reached
    (`FleetReached`). They stay within the budget for unit costs; and, if they are window-coupled and each
    client's instants do not go back, when every reply names the window its check falls in.
  * Coroutines on one limiter overrun without any bound with unit costs, if batch and limit are 2 or more, even
    when every reply names the window its check falls in; and if replies come late, for any batch. With costs
    of 2 or more they overrun for any batch and budget (`FleetCoroutines`). `FleetCoroutinesSafe` has the
    exact conditions under which they do not.
* `src/throttlekit/fleet_backend.py:31-33` says that the limit of 1024 rounds only trips on a server that
  neither grants nor denies. It also trips on grants that are already out of date for the caller's
  clock, each of which is discarded before it is spent, and on small grants for a cost above 1023
  (`LateGrantsAreWasted`, `UnitGrantsGiveUpIff`; `GivesUpIff` has the exact condition).
* `src/throttlekit/decision.py:23-24` calls `reset_at` the instant of full replenishment. For the sliding
  log it is the instant the oldest unit leaves, which is full replenishment if and only if all units that
  count came in at one instant (`ResetIsFullIffOneInstant`, and the run `TwoInstants`).
* `retry_after_ms` is the least wait for GCRA, token bucket, fixed window and sliding log exactly when the
  cost fits the ceiling at all. The sliding window's wait for the next bucket is in general only a lower
  bound (`SlidingWindowReplies.RetryIsExactIff`, and the run of `NextBucketWaitFailsAfterOneRequest`).
* GCRA and the token bucket part as soon as a request comes earlier than one already admitted, and only
  then (`SameRepliesIff`). The sliding log loses a unit when its name is taken, and only then
  (`EveryUnitCountsIffNamesFree`), which a clock that goes back can bring about (`BackwardClockLosesUnits`).
  GCRA's burst bound holds on any clock.
* A Release can go out for a slot the server has already reclaimed: when the owner is past its check as the
  pump writes, and when it comes between the pump's two writes, `reclaimed` before `released`.
  `ReclaimedIsReleasedIff` has the exact condition. It is never sent twice.

## Model

| member | source | states |
|---|---|---|
| Gcra.Limiter.constructor | src/throttlekit/_scripts/gcra.check.lua:13 | a new limiter has no key |
| Gcra.Limiter.Expire | src/throttlekit/_scripts/gcra.check.lua:24-26 | an overdue key is dropped, and nothing else changes |
| Gcra.Limiter.Run | src/throttlekit/_scripts/gcra.check.lua:6-27 | the script on real-valued `tat`, `T` and `tau` leaves the key and gives the five reply fields that the step on scaled integers gives |
| Gcra.TatIsLatestDrain | src/throttlekit/_scripts/gcra.check.lua:13-26 | over every run the stored time is the largest of t_i plus the increments admitted from i on, whatever the clock does |
| Gcra.AdmitsIffEverySuffixConforms | src/throttlekit/_scripts/gcra.check.lua:10-27 | a request is admitted if and only if every suffix of the admitted history with it appended costs at most a burst plus what drains over the time since the suffix began |
| Gcra.NoStretchExceedsBurst | src/throttlekit/_scripts/gcra.check.lua:10-27 | no contiguous stretch of what any run admits exceeds the burst plus elapsed time over T, even when the clock goes back |
| Gcra.RemainingIsExact | src/throttlekit/_scripts/gcra.check.lua:18-27 | after any reply a further check of k at the same instant is admitted if and only if k is at most `remaining`; an allow has no wait |
| Gcra.RetryIsExactIffCostFits | src/throttlekit/_scripts/gcra.check.lua:16-21 | retries are denied before and admitted from `retryAfterMs` on, for all waits, if and only if the cost is at most the burst |
| Gcra.RetryIsWhenItWouldConform | src/throttlekit/_scripts/gcra.check.lua:15-21 | every denied wait, for costs above the burst too, ends exactly when the clock has caught up with the arrival time asked for, but for a burst; a denial leaves the key as it was |
| Gcra.DeadlineIsReset | src/throttlekit/_scripts/gcra.check.lua:24-26 | after an admission the key lives exactly until `resetAt` |
| Gcra.ResetIsFirstFullInstant | src/throttlekit/_scripts/gcra.check.lua:20-27 | the whole burst is free at t if and only if t has reached `resetAt` |
| Gcra.ExpiryIsInvisible | src/throttlekit/_scripts/gcra.check.lua:24-26 | dropping the key at any times at or after its deadline changes no reply of a run on a nondecreasing clock |
| TokenBucket.Limiter.constructor | src/throttlekit/_scripts/tokenBucket.check.lua:10-14 | a new limiter has no key |
| TokenBucket.Limiter.Expire | src/throttlekit/_scripts/tokenBucket.check.lua:26 | an overdue key is dropped, and nothing else changes |
| TokenBucket.Limiter.Run | src/throttlekit/_scripts/tokenBucket.check.lua:6-31 | the script on real-valued tokens leaves the key and gives the reply that the step on thousandths of tokens gives |
| TokenBucket.RunIsCounted | src/throttlekit/_scripts/tokenBucket.check.lua:15-25 | on a nondecreasing clock the stored instant is never ahead of the clock, which is all the results on waits ask for |
| TokenBucket.RemainingIsExact | src/throttlekit/_scripts/tokenBucket.check.lua:22-31 | after any reply a further check of k at the same instant is admitted if and only if k is at most `remaining`; an allow has no wait |
| TokenBucket.RetryIsExactIffCostFits | src/throttlekit/_scripts/tokenBucket.check.lua:31 | retries are denied before and admitted from `retryAfterMs` on if and only if the cost is at most the capacity |
| TokenBucket.RetryIsWhenRefilled | src/throttlekit/_scripts/tokenBucket.check.lua:31 | every denied wait, for costs above the capacity too, ends exactly when level and refill, were there no cap, come to the cost; a denial leaves the key as it was |
| TokenBucket.DeadlineIsARefill | src/throttlekit/_scripts/tokenBucket.check.lua:19-26 | after an admission the key lives exactly as long as an empty bucket takes to fill |
| TokenBucket.ResetIsFirstFullInstant | src/throttlekit/_scripts/tokenBucket.check.lua:27-31 | the whole capacity is free at t if and only if t has reached `resetAt` |
| TokenBucket.ExpiryIsInvisible | src/throttlekit/_scripts/tokenBucket.check.lua:19-26 | dropping the key at any times at or after its deadline changes no reply of a run on a nondecreasing clock |
| Equivalence.SameReplies | src/throttlekit/_scripts/tokenBucket.check.lua:9-31 | with capacity = burst and refill = limit / period the token bucket gives the same five reply fields as GCRA at every step of every run on a nondecreasing clock |
| Equivalence.NoStretchExceedsCapacity | src/throttlekit/_scripts/tokenBucket.check.lua:17-27 | so no stretch of what a token bucket admits exceeds capacity plus refill |
| Equivalence.SameReplyIff | src/throttlekit/_scripts/tokenBucket.check.lua:15-31 | from matching keys, the two replies are the same if and only if the clock is not behind the last admission |
| Equivalence.SameRepliesIff | src/throttlekit/_scripts/tokenBucket.check.lua:9-31 | over every run with costs of at least 1, on any clock, all replies are the same if and only if no request comes earlier than one already admitted |
| Equivalence.BackwardClockSeparatesThem | src/throttlekit/_scripts/tokenBucket.check.lua:15-25 | a run of two requests, the second earlier than the first, which GCRA denies and the bucket admits |
| FixedWindow.Limiter.constructor | src/throttlekit/_scripts/fixedWindow.check.lua:11-14 | a new limiter has no key |
| FixedWindow.Limiter.Expire | src/throttlekit/_scripts/fixedWindow.check.lua:18-20 | an overdue key is dropped, and nothing else changes |
| FixedWindow.Limiter.Run | src/throttlekit/_scripts/fixedWindow.check.lua:6-25 | the script leaves the key and gives the reply that the step gives |
| FixedWindow.SameAsRemembering | src/throttlekit/_scripts/fixedWindow.check.lua:9-22 | one (start, count) pair answers every run on a nondecreasing clock as a record of all admissions does |
| FixedWindow.EachWindowWithinLimit | src/throttlekit/_scripts/fixedWindow.check.lua:14-17 | each aligned window admits at most the limit |
| FixedWindow.AnySpanWithinTwiceLimit | src/throttlekit/_scripts/fixedWindow.check.lua:9-22 | any windowMs in a row admit at most twice the limit |
| FixedWindow.RunIsCounted | src/throttlekit/_scripts/fixedWindow.check.lua:9-17 | on a nondecreasing clock no stored window lies ahead and no count is negative, which is all the results on waits ask for |
| FixedWindow.RemainingIsExact | src/throttlekit/_scripts/fixedWindow.check.lua:15-25 | after any reply a further check of k at the same instant is admitted if and only if k is at most `remaining`; an allow has no wait |
| FixedWindow.RetryIsExactIffCostFits | src/throttlekit/_scripts/fixedWindow.check.lua:23-25 | retries are denied before and admitted from `retryAfterMs` on if and only if the cost is at most the limit |
| FixedWindow.ResetIsNextWindow | src/throttlekit/_scripts/fixedWindow.check.lua:9-25 | for every reply t has reached `resetAt` if and only if t is in a later window; a denial of any cost waits exactly until `resetAt` and leaves the key; an admitted key lives exactly until then |
| FixedWindow.ResetIsFirstFullInstant | src/throttlekit/_scripts/fixedWindow.check.lua:10-25 | the whole limit is free from `resetAt` on, and after an admission not before |
| FixedWindow.ExpiryIsInvisible | src/throttlekit/_scripts/fixedWindow.check.lua:18-20 | dropping the key at any times at or after its deadline changes no reply of a run on a nondecreasing clock |
| SlidingWindowScript.Limiter.constructor | src/throttlekit/_scripts/slidingWindow.check.lua:10-25 | a new limiter has no key |
| SlidingWindowScript.Limiter.Expire | src/throttlekit/_scripts/slidingWindow.check.lua:35 | an overdue key is dropped, and nothing else changes |
| SlidingWindowScript.Limiter.ReadFull | src/throttlekit/_scripts/slidingWindow.check.lua:26-27 | the loop over the last S buckets adds up their counts |
| SlidingWindowScript.Limiter.RetryAfter | src/throttlekit/_scripts/slidingWindow.check.lua:40-47 | both cases of the wait, in real numbers, are those of the step |
| SlidingWindowScript.Limiter.Run | src/throttlekit/_scripts/slidingWindow.check.lua:6-50 | the script on the hash, with real-valued width, weight and estimate, leaves the ring and gives the reply that the step on scaled integers gives |
| SlidingWindow.CountAfterWrite | src/throttlekit/_scripts/slidingWindow.check.lua:18-34 | writing the current bucket changes no count within S buckets of it, negative indices included |
| SlidingWindow.SameAsRemembering | src/throttlekit/_scripts/slidingWindow.check.lua:18-38 | S + 1 tagged slots answer every run on a nondecreasing clock as a record of all admissions does, and agree with it on every bucket from c - S on |
| SlidingWindowBounds.AnyBucketsWithinLimit | src/throttlekit/_scripts/slidingWindow.check.lua:26-34 | any S consecutive buckets admit at most the limit |
| SlidingWindowBounds.AnySpanWithinLimit | src/throttlekit/_scripts/slidingWindow.check.lua:26-34 | so does any span of S - 1 bucket widths, wherever it begins |
| SlidingWindowBounds.AnyTrailingWindowBelowTwiceLimit | src/throttlekit/_scripts/slidingWindow.check.lua:26-34 | any trailing window admits less than twice the limit, at any instant |
| SlidingWindowReached.TrailingWindowNearTwiceLimit | src/throttlekit/_scripts/slidingWindow.check.lua:12-34 | a run that admits 2 * limit - 1 in the window that ends at `now`, for every instant at which the oldest bucket has more than one ms to go and weighs no more than one unit altogether when full |
| SlidingWindowReached.WideBucketsGetThere | src/throttlekit/_scripts/slidingWindow.check.lua:11-15 | there is such an instant for every limit and number of buckets whose width is at least twice the limit in ms |
| SlidingWindowBounds.EstimateWithinOldestBucket | src/throttlekit/_scripts/slidingWindow.check.lua:15-29 | the estimate differs from the true trailing count by at most the oldest bucket's count |
| SlidingWindowReplies.RemainingIsExact | src/throttlekit/_scripts/slidingWindow.check.lua:33-49 | after any reply a further check of k at the same instant is admitted if and only if k is at most `remaining`; an allow has no wait |
| SlidingWindowReplies.RunIsWellKept | src/throttlekit/_scripts/slidingWindow.check.lua:19-34 | on a nondecreasing clock no count is negative and none lies ahead, which is all the results on waits ask for |
| SlidingWindowReplies.EstimateNeverIncreases | src/throttlekit/_scripts/slidingWindow.check.lua:12-29 | with no admission the estimate never increases, across bucket rolls too |
| SlidingWindowReplies.RetryBounds | src/throttlekit/_scripts/slidingWindow.check.lua:40-47 | every retry before `retryAfterMs` is denied; if the wait is interpolated, every later one is admitted |
| SlidingWindowReplies.RetryIsExactIffEnough | src/throttlekit/_scripts/slidingWindow.check.lua:40-47 | a step to the next row: `retryAfterMs` is the least wait for all retries as soon as the one retry made after it is admitted |
| SlidingWindowReplies.RetryIsExactIff | src/throttlekit/_scripts/slidingWindow.check.lua:40-47 | for buckets of any width: `retryAfterMs` is the least wait if and only if it is interpolated, or the counts at hand, weighed as they will be when the next bucket has begun, leave room for the cost |
| SlidingWindowReplies.WideBucketsRetryIff | src/throttlekit/_scripts/slidingWindow.check.lua:40-47 | for buckets of 1 ms or more that is: full buckets plus cost exceed the limit by no more than the next bucket to go sheds while the wait is rounded up |
| SlidingWindowReplies.RetryFailsWhenCurrentBucketIsFull | src/throttlekit/_scripts/slidingWindow.check.lua:44-46 | with two or more buckets of 1 ms or more, a retry after the next-bucket wait is denied whenever the current bucket alone leaves no room |
| SlidingWindowReplies.NextBucketWaitFailsAfterOneRequest | src/throttlekit/_scripts/slidingWindow.check.lua:44-46 | such a run for every limit and clock value: after one request for the whole limit, a check of one unit is denied, and denied again after its wait |
| SlidingWindowReplies.ResetIsFirstFullInstant | src/throttlekit/_scripts/slidingWindow.check.lua:31 | the whole limit is free from `resetAt` on, and after an admission not before |
| SlidingWindowReplies.WeightIsOverlap | src/throttlekit/_scripts/slidingWindow.check.lua:12-17 | the weight of the oldest bucket is what of it lies in the trailing window, never nothing and at most a whole bucket |
| SlidingWindowReplies.ResetIsWhenTheBucketLeaves | src/throttlekit/_scripts/slidingWindow.check.lua:31 | for every reply t has reached `resetAt` if and only if the bucket of the request does not count at t any more |
| SlidingWindowReplies.RetryIsNextBucket | src/throttlekit/_scripts/slidingWindow.check.lua:44-47 | a wait that is not interpolated, for costs above the limit too, ends exactly when the next bucket begins; a denial leaves the key as it was |
| SlidingWindowReplies.DeadlineIsWindowAndBucket | src/throttlekit/_scripts/slidingWindow.check.lua:31-35 | after an admission the key lives exactly a window and a bucket width, which is from `resetAt` to at most a bucket width, rounded up, later |
| SlidingWindowExpiry.ExpiryIsInvisible | src/throttlekit/_scripts/slidingWindow.check.lua:35 | dropping the key at any times at or after its deadline changes no reply of a run on a nondecreasing clock |
| SlidingLogScript.Limiter.constructor | src/throttlekit/_scripts/slidingWindowLog.check.lua:9-12 | a new limiter has no key |
| SlidingLogScript.Limiter.Expire | src/throttlekit/_scripts/slidingWindowLog.check.lua:17-19 | an overdue key is dropped, and nothing else changes |
| SlidingLogScript.Limiter.Add | src/throttlekit/_scripts/slidingWindowLog.check.lua:14-16 | the ZADD loop leaves the set with one more member per unit, named by instant and count |
| SlidingLogScript.Limiter.RetryAfter | src/throttlekit/_scripts/slidingWindowLog.check.lua:27-39 | the wait until the k-th oldest unit has left, k clamped as the script clamps it |
| SlidingLogScript.Limiter.Run | src/throttlekit/_scripts/slidingWindowLog.check.lua:6-45 | the script on the sorted set leaves the set and gives the reply that the step gives |
| SlidingLog.SameAsRemembering | src/throttlekit/_scripts/slidingWindowLog.check.lua:10-26 | the purged set answers every run on a nondecreasing clock as a record of all admissions does, unit by unit |
| SlidingLogBounds.EveryWindowWithinLimit | src/throttlekit/_scripts/slidingWindowLog.check.lua:10-16 | for every instant t, not only check times, at most the limit is admitted in (t - windowMs, t] |
| SlidingLogBounds.CardinalityIsAcceptedCost | src/throttlekit/_scripts/slidingWindowLog.check.lua:11-12 | ZCARD after the purge is the exact accepted cost of the trailing window |
| SlidingLogReplies.RunIsSorted | src/throttlekit/_scripts/slidingWindowLog.check.lua:11-15 | every run leaves the set sorted by score |
| SlidingLogReplies.RunIsWellNamed | src/throttlekit/_scripts/slidingWindowLog.check.lua:14-16 | on a nondecreasing clock member names stay distinct, and no name the next check uses is taken |
| SlidingLogReplies.RemainingIsExact | src/throttlekit/_scripts/slidingWindowLog.check.lua:23-45 | after any reply a further check of k at the same instant is admitted if and only if k is at most `remaining`; an allow has no wait |
| SlidingLogReplies.RetryIsExactIffCostFits | src/throttlekit/_scripts/slidingWindowLog.check.lua:27-39 | retries are denied before and admitted from `retryAfterMs` on if and only if the cost is at most the limit |
| SlidingLogReplies.OversizeWaitsForNewest | src/throttlekit/_scripts/slidingWindowLog.check.lua:27-45 | a denied cost above the limit waits exactly until the newest unit has left, and a whole window when nothing counts |
| SlidingLogReplies.DeadlineIsWhenNewestLeaves | src/throttlekit/_scripts/slidingWindowLog.check.lua:17-19 | after an admission the key lives exactly until its newest unit leaves; a denial keeps the deadline |
| SlidingLogReplies.ResetIsFullIffOneInstant | src/throttlekit/_scripts/slidingWindowLog.check.lua:20-45 | `resetAt` is full replenishment if and only if all units left by the purge came in at one instant: at `now` when the check is admitted, at any one instant when it is denied |
| SlidingLogReplies.ResetIsWhenTheOldestLeaves | src/throttlekit/_scripts/slidingWindowLog.check.lua:20-45 | for allowed and denied replies the oldest unit has left if and only if `resetAt` is reached, and the whole limit is free if and only if the newest has left |
| SlidingLogExpiry.ExpiryIsInvisible | src/throttlekit/_scripts/slidingWindowLog.check.lua:17-19 | dropping the key at any times at or after its deadline changes no reply of a run on a nondecreasing clock |
| SlidingLogNames.ZaddAddsIffFree | src/throttlekit/_scripts/slidingWindowLog.check.lua:15 | one ZADD adds a member if and only if no entry has its name |
| SlidingLogNames.EveryUnitCountsIffNamesFree | src/throttlekit/_scripts/slidingWindowLog.check.lua:14-16 | an admitted check is counted with all its units if and only if none of the names it uses is in the purged set, and otherwise with fewer, on any clock |
| SlidingLogNames.BackwardClockLosesUnits | src/throttlekit/_scripts/slidingWindowLog.check.lua:14-16 | a run on a clock that goes back on which two admitted units share a member, and more is admitted than is counted |
| SlidingLogNames.TwoInstants | src/throttlekit/_scripts/slidingWindowLog.check.lua:20-45 | a run with units from two instants after which `resetAt`, of an allowed and of a denied reply, is not full replenishment |
| LeaseSpender.LeaseSpender.constructor | src/throttlekit/lease_spender.py:50-55 | a new spender has no credits and no boundary |
| LeaseSpender.LeaseSpender.ApplyLease | src/throttlekit/lease_spender.py:67-73 | credits grow by the grant and all of them get its boundary |
| LeaseSpender.LeaseSpender.SpendUnits | src/throttlekit/lease_spender.py:75-101 | out-of-date credits go first; then an allow with its fields, the wish for a refresh, or the rejected cost |
| LeaseSpender.LeaseSpender.Reset | src/throttlekit/lease_spender.py:103-106 | credits and boundary are forgotten, and nothing else |
| LeasedLimiter.LeasedLimiter.Leased | src/throttlekit/fleet_backend.py:190-197 | a batch below 1 is refused, and only that |
| LeasedLimiter.LeasedLimiter.Check | src/throttlekit/fleet_backend.py:199-229 | the refresh loop leaves the spender and gives the verdict and the number of Reserves that the recursive description gives, for any replies of the server; each asks for the larger of cost and batch |
| LeaseRefresh.RemainingIsSpendable | src/throttlekit/lease_spender.py:81-100 | after an allow, a further spend of k needs no Reserve if and only if k is at most `remaining` and, when window-coupled, `reset_at` has not come |
| LeaseRefresh.AllowNamesFirstAndLast | src/throttlekit/fleet_backend.py:206-226 | for all leases and rounds: an allow names the limit of the first lease ever delivered and the boundary of the last one, and has no wait; the spender left behind is made from the first |
| LeaseRefresh.DenialIsTheServers | src/throttlekit/fleet_backend.py:57-65 | a denial is always the last reply's, field by field, and that reply granted nothing |
| LeaseRefresh.GivesUpIff | src/throttlekit/fleet_backend.py:206-229 | the rounds run out if and only if every reply grants and every round's balance is short of the cost |
| LeaseRefresh.CostUpTo1023IsDecided | src/throttlekit/fleet_backend.py:31-33 | with grants of at least 1 that are not out of date a cost up to 1023 never runs out of rounds |
| LeaseRefresh.LateGrantsAreWasted | src/throttlekit/fleet_backend.py:31-33 | grants that are out of date for the caller use up every round, for any cost |
| LeaseRefresh.UnitGrantsGiveUpIff | src/throttlekit/fleet_backend.py:206-229 | with grants of 1 the rounds run out if and only if the cost exceeds the balance by more than 1023 |
| LeaseRefresh.AtMostTwoReserves | src/throttlekit/fleet_backend.py:206-226 | against a min(wants, budget) server in one window a check makes at most two Reserves, allows if and only if balance plus budget cover the cost, and denies only on a grant of nothing |
| LeaseRefresh.BatchesAmortise | tests/test_fleet_backend.py:215-225 | n unit checks with batch b and budget enough are all allowed and take n / b Reserves, rounded up |
| AsyncLeasedLimiter.AsyncLeasedLimiter.constructor | src/throttlekit/fleet_backend_async.py:94-110 | a new limiter has no spender |
| AsyncLeasedLimiter.AsyncLeasedLimiter.Advance | src/throttlekit/fleet_backend_async.py:115-123 | from the head of a round to the next await or the end |
| AsyncLeasedLimiter.AsyncLeasedLimiter.Deliver | src/throttlekit/fleet_backend_async.py:121-137 | from the reply to the next await or the end, on whatever the other checks have left; a spender that is there is kept |
| AsyncLeasedLimiter.AloneIsServe | src/throttlekit/fleet_backend_async.py:112-137 | a check no other check interrupts does what the blocking limiter's refresh loop does |
| Fleet.EveryUnitIsAccountedFor | src/throttlekit/lease_spender.py:67-101 | over every interleaving, for each client and window: granted plus relabelled in is allowed plus discarded plus relabelled out plus held |
| Fleet.NoGrantIsLost | src/throttlekit/fleet_backend_async.py:114-134 | over every interleaving, for each client: granted is allowed plus discarded plus credits, and credits are never negative |
| FleetSafety.LedgerMatchesDecisions | src/throttlekit/fleet_backend.py:205-226 | the ledger's allowed units for a window are those of the decisions the callers got with it as `reset_at` |
| FleetSafety.GrantsStayWithinLimit | contract/throttlekit.proto:309-329 | the assumption about the server, which every reply of the model obeys, as a fact about runs: a window's grants stay within its limit |
| FleetSafety.SpenderIsCreatedOnce | src/throttlekit/fleet_backend_async.py:125-130 | once there, a spender keeps its limit, ttl and coupling however checks interleave; that no credits go with it is `Fleet.NoGrantIsLost`, and that it is the same object `AsyncLeasedLimiter.AsyncLeasedLimiter.Deliver` |
| FleetLimits.AllowsNameTheFirstLimit | src/throttlekit/fleet_backend_async.py:125-130 | over every interleaving: a client has a spender if and only if a lease was delivered to it, made from the first one, and every allow names the limit of that one and has no wait |
| FleetSafety.NoAllowAfterItsBoundary | src/throttlekit/lease_spender.py:81-100 | over every interleaving no window-coupled allow is made at or after its `reset_at` |
| FleetSafety.OvershootIsAtMostRelabelled | contract/throttlekit.proto:285-286 | over every interleaving of any number of clients, a window's allowed units exceed its limit by at most what was relabelled to it |
| FleetSafety.CleanFleetStaysWithinLimit | contract/throttlekit.proto:285-286 | if no reply finds leftover credits of another window, every window stays within its limit |
| FleetBlocking.ReplyFindsLessThanCost | src/throttlekit/fleet_backend.py:207-226 | a reply to a blocking limiter finds fewer credits than its check asks for, and none out of date |
| FleetBlocking.BlockingUnitCostsStayWithinLimit | src/throttlekit/fleet_backend.py:205-226 | blocking limiters with unit costs stay within every window's limit, whatever the clocks and boundaries |
| FleetBlocking.BlockingFleetOvershootsLittle | src/throttlekit/lease_spender.py:72-101 | blocking limiters whose boundaries do not go back stay within limit + min(clients, limit) * (largest cost - 1) |
| FleetBlocking.BlockingFleetIsBounded | src/throttlekit/fleet_backend.py:207-226 | whatever the boundaries and the clocks, blocking limiters allow at most limit * (largest cost) until one window's end |
| FleetBlocking.PunctualFleetStaysWithinLimit | src/throttlekit/fleet_backend.py:205-226 | blocking window-coupled limiters stay within the limit for any costs if each client's checks are made at nondecreasing instants and every reply names the window its check falls in |
| FleetOverrun.CleanContinuationsStayWithinExposure | src/throttlekit/lease_spender.py:72-101 | what is allowed, held and still grantable for a window bounds every continuation that relabels nothing |
| FleetOverrun.ExposureIsReached | src/throttlekit/lease_spender.py:72-101 | and some such continuation of every run reaches it |
| FleetOverrun.OverrunIff | src/throttlekit/lease_spender.py:72-73 | from any run, a window can be overrun without another relabelling if and only if more was relabelled to it than from it and discarded |
| FleetOverrun.ReplyBreaksTheBoundIff | src/throttlekit/lease_spender.py:72-73 | a reply makes an intact window exceedable if and only if it finds credits of another window and is not late |
| FleetReached.BlockingOvershootIsReached | src/throttlekit/lease_spender.py:72-73 | for every number of clients, batch, budget and largest cost, a run of blocking limiters with grants that never go back across the fleet reaches limit + min(clients, limit) * (largest cost - 1) |
| FleetReached.BlockingBoundIsReached | src/throttlekit/lease_spender.py:72-73 | for every batch, budget and largest cost, one blocking client whose boundaries go back reaches limit * (largest cost) |
| FleetCoroutines.CoroutinesOverrunWithoutBound | src/throttlekit/fleet_backend_async.py:121-134 | with batch and limit of 2 or more, one coroutine limiter with unit costs overruns a window by m * (min(batch, limit) - 1), for every m and length of windows, though instants do not go back, every reply is for the window of its check, and no check runs out of rounds |
| FleetCoroutines.CoroutinesMultiplyTheLimit | src/throttlekit/fleet_backend_async.py:121-134 | with costs of `most`, any batch and any budget, one coroutine limiter allows limit * most until a window's end, every reply being for the window of its check |
| FleetCoroutines.LateGrantsOverrunWithoutBound | src/throttlekit/fleet_backend_async.py:115-137 | with unit costs, any batch and any budget, one window-coupled coroutine limiter overruns by m for every m, when replies come so late that checks run out of rounds |
| FleetCoroutinesSafe.CoroutinesAreSafeIff | src/throttlekit/fleet_backend_async.py:112-137 | over all runs with costs from 1 to `most`: coroutines keep every window within its limit if and only if the limit is 0, or credits are not window-coupled, costs are 1, and batch or limit is at most 1 |
| FleetCoroutinesSafe.TimelyCoroutinesAreSafeIff | src/throttlekit/fleet_backend_async.py:112-137 | over the runs whose replies come before the window they are for is over for their check: if and only if the limit is 0, or costs are 1 and batch or limit is at most 1 |
| FleetCoroutinesSafe.PunctualCoroutinesAreSafeIff | src/throttlekit/fleet_backend_async.py:112-137 | the same condition over the runs with nondecreasing instants in which every reply is for the window of its check, for windows of every length |
| ServiceBackend.Admission.constructor | src/throttlekit/service_backend.py:85-105 | a new admission is neither released nor reclaimed |
| ServiceBackend.Admission.Held | src/throttlekit/service_backend.py:109-112 | a slot is held if and only if there is a lease id, heartbeats or not |
| ServiceBackend.Admission.Release | src/throttlekit/service_backend.py:119-130 | the first call on an admission with a lease id, heartbeats or not, sends exactly one Release and deregisters the lease if it was renewed; every other call changes nothing |
| ServiceBackend.Admission.MarkReclaimed | src/throttlekit/service_backend.py:132-134 | both flags are set |
| ServiceBackend.HeartbeatPump.Register | src/throttlekit/service_backend.py:164-166 | the lease is listed with its admission, and nothing else changes |
| ServiceBackend.HeartbeatPump.Deregister | src/throttlekit/service_backend.py:173-175 | the lease is no longer listed, and nothing else changes |
| ServiceBackend.HeartbeatPump.ApplyReply | src/throttlekit/service_backend.py:188-193 | the loop drops and marks exactly the open leases that are reported |
| ServiceBackend.ServiceBackend.EnsurePump | src/throttlekit/service_backend.py:314-317 | the pump is created once and then kept |
| ServiceBackend.ServiceBackend.Admit | src/throttlekit/service_backend.py:301-312 | the handle is listed if and only if it holds a slot and wants heartbeats |
| ServiceBackend.ServiceBackend.With | src/throttlekit/service_backend.py:119-146 | a `with` block: a held slot is returned exactly once, with or without heartbeats, dropped exactly when the work failed before returning it, and is not renewed any more; a denied admission sends nothing |
| ServiceBackend.ServiceBackend.ReleaseLease | src/throttlekit/service_backend.py:319-327 | a renewed slot is deregistered, and one Release goes out |
| PumpProtocol.AtMostOneRelease | src/throttlekit/service_backend.py:119-130 | in every interleaving at most one Release is sent per admission, and only for a held slot |
| PumpProtocol.ReclaimedWasReported | src/throttlekit/service_backend.py:132-134 | in every interleaving a reclaimed admission was reported by the server, and is released once the pump is past its two writes |
| PumpProtocol.LiveLeaseIsOpen | src/throttlekit/service_backend.py:164-193 | in every interleaving a registered lease neither released nor reclaimed is in the open set, or the pump is just reclaiming it |
| PumpProtocol.OpenMeansUnreleased | src/throttlekit/service_backend.py:173-193 | in every interleaving an open lease is held, not reclaimed, and its Release has not gone out |
| PumpProtocol.BeatRenewsLiveLeases | src/throttlekit/service_backend.py:177-186 | over every run: a beat of a sleeping pump asks for every registered lease that is neither released nor reclaimed, and every lease it asks for is held, not reclaimed, and its Release has not gone out |
| PumpProtocol.FailedBeatIsRetried | src/throttlekit/service_backend.py:185-188 | a beat that fails changes nothing but the pump, and the next one asks for the same live leases |
| PumpProtocol.ReplyIsApplied | src/throttlekit/service_backend.py:185-193 | a reply applied without interruption drops and marks exactly the open leases that it names, changes nothing else, and leaves the pump asleep |
| PumpProtocol.ReportedWasReplied | src/throttlekit/service_backend.py:188-193 | nothing counts as reported that no reply of the server named |
| PumpProtocol.EndedReleaseReturnedTheSlot | src/throttlekit/service_backend.py:119-130 | when a call to `release` has ended, the Release was sent or the server had reclaimed the slot |
| PumpProtocol.DeregisteredIsNeverReclaimedLater | src/throttlekit/service_backend.py:173-193 | after `deregister` an admission is never newly marked reclaimed, however late a reply comes |
| PumpProtocol.ReleasedStaysReleased | src/throttlekit/service_backend.py:126-130 | once released and at rest, an admission sends no Release in any continuation |
| PumpProtocol.UninterruptedReply | src/throttlekit/service_backend.py:188-193 | left alone, the pump's steps come to what `ApplyReply` promises |
| PumpProtocol.ReleaseCanStillGoOutIff | src/throttlekit/service_backend.py:119-134 | from every state of the invariant: a Release that has not gone out for a held slot still can if and only if the flag is unset or its owner is inside `release` or `admit` |
| PumpProtocol.ReclaimedIsReleasedIff | src/throttlekit/service_backend.py:126-134 | the same for every reclaimed slot of every run: one Release can follow the reclaim exactly then |
| PumpProtocol.BothWindowsAreReached | src/throttlekit/service_backend.py:132-134 | two runs that get there: the owner is past the check when the pump writes, and the owner comes between the pump's two writes |

## Left out

- Floating point: numbers are exact. The scripts compute in doubles and store some of them as `%.17g` text, and `tests/test_redis_backend.py:24-31` says that large clocks can flip a floor; the results are about the exact quotients.
- Clocks that go back: beyond GCRA's results, where GCRA and the token bucket part, and when the sliding log loses a unit, the results about the scripts are for nondecreasing clocks.
- The value 0 for `now`, which asks for the server's clock: the clock value is a parameter of every check.
- Parameters of a script are positive integers and do not change for a key; costs are integers, and at least 1 where a lemma says so. Fractional costs, which `LeaseSpender` tolerates, are not modelled.
- The order of sorted-set members with one score: it is insertion order here and lexicographic in Redis. No result depends on it, because the script reads scores only.
- Redis itself: transport, script loading and its fallback, argument marshalling, clocks of replicas.
- The server behind the fleet: a budget per window boundary is all that is modelled of it. Sizing, sharding and crash recovery are not in this repository.
- FleetSafety.SpenderIsCreatedOnce: does not follow the identity of the spender over whole runs, because spenders are values there; the class `AsyncLeasedLimiter` keeps the object at every step.
- Fleet: `reset` of a spender is not an event of the fleet, because no limiter calls it; nor is a Reserve that fails, which ends the check and changes nothing.
- gRPC, error mapping, secrets, TLS, stub generation, the Monitor clients.
- PumpProtocol: one owner per admission, so two threads that release one admission at once are not modelled; nor are the lazy creation of the pump by several threads, its stop, its interval, and that beats do go out.
- The asyncio service backend: the same pump with coarser steps.
- Response headers, the decorator and the framework integrations: one-branch wrappers.
