# Verified model of the ambatukam-go policies

ambatukam-go is an HTTP resilience library for Go. Each of its policies is a small state machine
that many callers share. This project models ten of its files in Dafny 4.11 and proves what the
policies guarantee over whole runs. `dafny verify dfyconfig.toml` checks everything.

## How the model is built

- One module per source file holds the data model, functions for what the atomic actions (critical
  sections, channel operations) do to the shared fields, and the class whose methods perform the
  actions. Each method is proved against the function.
- A second module, named `...Protocol`, lets any number of callers interleave between those
  actions, and its steps apply the same functions. A run is a sequence of states linked by events;
  time is a clock reading that an event carries and that never goes back. Each protocol module has
  one inductive invariant and, after it, the theorems about every run. Steps that touch none
  of the fields have no method: those on a request's own channels, a worker's or the refill loop's moves
  between two channel operations, the cache's age test, and the rate limiter's look at the clock. Nor has
  the hand-over of a request through a channel without a buffer. `BudgetProtocol` takes `Allow` apart into its loads and
  adds, around the same ratio test (`RefusesAtShare`).
- Modules named `...Attainment` construct runs that reach a bound, so that it cannot be improved.
- The states of a run also carry logs that the program does not keep (admissions, outcomes,
  writes, latencies, results). The theorems are stated over them.
- Durations and times are integer nanoseconds. `float64` values are reals. 32-bit and 64-bit
  arithmetic that can wrap is written out (`Circuit.Increment`, `Backoff.Wrap64`).
- The backend, `ShouldRetry`, `ShouldTrip`, the clock, the random samples, cancellation and timeouts
  are arbitrary inputs.

| files | what they cover |
|---|---|
| `Circuit.dfy`, `CircuitProtocol.dfy`, `CircuitAttainment.dfy` | the circuit breaker and its callers |
| `Bulkhead.dfy`, `BulkheadProtocol.dfy`, `OvertakingAttainment.dfy` | channels, workers and callers of the bulkhead |
| `DeniedRequests.dfy` | what becomes of requests whose callers the bulkhead denied |
| `Budget.dfy`, `BudgetProtocol.dfy` | the retry budget, alone and under interleaved atomic operations |
| `Backoff.dfy`, `Retry.dfy`, `RetryTheorems.dfy` | delays, the retry loop, amplification |
| `ConcurrentRetry.dfy`, `RetryAttainment.dfy` | many retrying callers of one budget |
| `RetryBreaker.dfy` | retry around a breaker |
| `Singleflight.dfy`, `SingleflightProtocol.dfy` | key, flights, leaders and followers |
| `Cache.dfy`, `CacheProtocol.dfy`, `CacheLru.dfy` | the bounded cache and its write log; when its eviction is LRU |
| `AdaptiveTimeout.dfy`, `AdaptiveProtocol.dfy` | the latency window and its order statistic |
| `RateLimit.dfy`, `RateLimitProtocol.dfy` | the token bucket, its ticker and its waiters |
| `TimeoutMap.dfy` | URL patterns |
| `Arithmetic.dfy`, `Wrappers.dfy` | division facts, shared types |

## Where the code and its documentation disagree

The model follows the code. Each point names the theorem that says exactly when the two agree.

- README.md:238 calls `*` a single-segment wildcard. A pattern that ends in a slash and a star differs
  from that in both directions (`SingleSegmentIff`): it accepts paths more than one segment below its
  prefix, as timeoutmap_test.go:134 expects, and it takes its inner stars, and a leading slash, literally,
  so `/users/*/posts/*` does not match `/users/5/posts/7` (`InnerStarIsLiteral`, `InnerStarMisses`).
- README.md:260 says that requests with different bodies are never merged, README.md:268 that oversize
  bodies skip deduplication. Requests of one method and URL with different bodies are merged exactly when
  the method is GET, HEAD, OPTIONS or DELETE, or both bodies are oversize (`DifferentBodiesMergeIff`); and
  a body of more than one byte over the limit is cut before the next policy reads it (`BodyKeptIff`).
- README.md:258 counts one HTTP call for identical concurrent requests. That holds exactly in the runs in
  which no caller finds an entry older than 60 seconds under its key (`OneLeaderPerKeyIff`); a caller that
  does starts a second call (`ExpiryStartsSecondCall`, `TwoUpstreamCallsHappen`).
- README.md:280 promises LRU eviction. Hits do not refresh an entry, and under every configuration but those
  with one entry or a TTL of at most two nanoseconds some run evicts an entry that is not the least
  recently used (`AlwaysLruIff`). An eviction is LRU if no entry was hit after another was stored later
  (`NoLateHitsMeansLru`), and in general as `VictimIsLruIff` says.
- README.md:288 configures a time window for the adaptive timeout. The source fills in its default and never
  reads it again, and so no step of the model does (`WindowIsIgnored` is a remark on that); the window is a
  number of samples (`PublishesOrderStatistic`).
- README.md:297 speaks of at most 10% retries. The budget grants the ceiling of that share, more than
  the share unless it is whole (`WithinShareIff`); it spends a grant on a last outcome that is not
  retried (`GrantsSpent`); and concurrent callers overshoot, for every budget below one and every number
  of callers above one (`OvershootsIff`), by as much as the bound allows (`OvershootIsAttained`).
- A caller that the bulkhead denied after it sent its request has not withdrawn it: the request can still
  run until the bulkhead is closed, and afterwards under an exact condition (`DeniedRequestRunsIff`).
- The half-open in-flight counter is not the number of live probes but that number and the admissions on
  tokens of earlier epochs (`InFlightIsLivePlusStale`); the two differ in some run exactly when
  HalfOpenMaxReqs is at least 2 (`MiscountsIffSeveralPermits`).

## Model

| member | source | states |
|---|---|---|
| Circuit.CircuitBreakerPolicy.constructor | circuit.go:43-60 | a new breaker is closed, with zeros in its configuration replaced by the defaults |
| Circuit.CircuitBreakerPolicy.AllowUnderReadLock | circuit.go:107-165 | the read-locked part of allowRequest: an answer, or which write-locked section comes next |
| Circuit.CircuitBreakerPolicy.AllowAfterOpen | circuit.go:117-141 | the section after an expired open state, with its unguarded permit test |
| Circuit.CircuitBreakerPolicy.AllowAfterHalfOpen | circuit.go:147-158 | the section after half-open; the token is the generation read before the lock was dropped |
| Circuit.CircuitBreakerPolicy.ReportSuccess | circuit.go:167-193 | the whole new state after a success with a given token |
| Circuit.CircuitBreakerPolicy.ReportFailure | circuit.go:195-237 | the whole new state after a tripping outcome with a given token |
| Circuit.CircuitBreakerPolicy.Execute | circuit.go:239-251 | one uninterrupted call is the composition of its sections, which `SuccessHeals` and `FailureCounts` spell out |
| Circuit.DefaultsFillZeros | circuit.go:35-53 | zeros become 5 failures, 30 seconds and one permit, and everything given is kept |
| Circuit.SuccessHeals | circuit.go:167-193 | an uninterrupted call that does not trip clears the failures of a closed breaker and leaves any other that let it through closed, with zero counters, one or two generations on; a refused one changes nothing |
| Circuit.FailureCounts | circuit.go:195-237 | one that trips counts until the threshold and then opens; from open or half-open it opens at the time of its report, one or two generations on |
| Circuit.LockedSectionsAdmit | circuit.go:117-158 | the two write-locked sections admit whoever finds a permit, the first also whoever begins the epoch; what they take and what they leave alone |
| Circuit.AllowedExactly | circuit.go:107-165 | who gets in: everyone when closed, permit holders when half-open, the first caller once the open duration is over; only that caller changes the state |
| CircuitProtocol.EpochIsolation | circuit.go:107-237 | for every interleaving: a state change follows an edge of the machine and adds exactly one to the generation; the history is a walk with one entry per generation; tokens never name an open epoch; outcomes of earlier generations change nothing |
| CircuitProtocol.ExecuteIsAPath | circuit.go:239-251 | from every state an uninterrupted Execute of one caller is a path of the protocol, with the admission and the outcome it logs |
| CircuitProtocol.ClockIsLastReading | circuit.go:116-212 | the clock of a state is its last reading, and readings never go back |
| CircuitProtocol.PermitConservation | circuit.go:114-181 | in half-open permits + inFlight equals HalfOpenMaxReqs, outside it both are 0; live probes are at most inFlight; the unguarded test admits only into half-open |
| CircuitProtocol.HalfOpenCanEnd | circuit.go:117-161 | in half-open some call under way will end the epoch whatever its outcome |
| CircuitProtocol.OpensExactlyAtThreshold | circuit.go:167-206 | failures is the trailing run of trips of the current epoch, below the threshold while closed and at it otherwise; a report opens the breaker iff that run reaches the threshold |
| CircuitProtocol.AdmissionRateBound | circuit.go:107-237 | while not closed again, admissions since the breaker opened at t0 number at most HalfOpenMaxReqs * floor((t - t0) / OpenDuration), for any number of callers |
| CircuitProtocol.InFlightIsLivePlusStale | circuit.go:114-162 | in every half-open state inFlight is the number of live probes plus the admissions of the epoch on tokens of earlier generations |
| CircuitProtocol.InFlightIsLiveIff | circuit.go:146-155 | so it is the number of live probes iff the epoch admitted nobody on an older token |
| CircuitProtocol.MiscountsIffSeveralPermits | circuit.go:146-155 | some run reaches a state where inFlight exceeds the live probes iff HalfOpenMaxReqs is at least 2 |
| CircuitProtocol.OutageAdmissions | circuit.go:107-251 | with at most n callers inside and a backend whose outcomes all trip, at most FailureThreshold + n - 1 calls are admitted before the first trip, and then the rate bound holds |
| CircuitAttainment.OutageBoundIsAttained | circuit.go:107-251 | under every configuration, for every number m of open durations and every n of at least HalfOpenMaxReqs, some outage reaches both bounds exactly |
| Bulkhead.BulkheadPolicy.constructor | bulkhead.go:39-69 | at least one worker; empty channels |
| Bulkhead.BulkheadPolicy.Send | bulkhead.go:166-183 | a send goes to the caller's channel, at its end, iff that has room |
| Bulkhead.BulkheadPolicy.ReceiveHigh | bulkhead.go:99-104 | a receive takes the head of the high queue and nothing else |
| Bulkhead.BulkheadPolicy.ReceiveLow | bulkhead.go:105-113 | a receive takes the head of the normal queue and nothing else |
| Bulkhead.BulkheadPolicy.Close | bulkhead.go:223-227 | the first Close closes the quit channel, later ones change nothing |
| BulkheadProtocol.SendsIffRoom | bulkhead.go:166-183 | with a buffer a sender can send iff fewer than MaxQueue requests wait in the channel of its priority |
| BulkheadProtocol.ResultsReachCallers | bulkhead.go:182-217 | a caller whose request has finished can take its result, at once or after the note that it was dequeued, and can always give up |
| BulkheadProtocol.DeniedCounts | bulkhead.go:85-90 | Denied is the number of callers that gave up |
| BulkheadProtocol.ClosedOnce | bulkhead.go:223-227 | the closed flag and the quit channel change together, with the first Close |
| BulkheadProtocol.NobodyEntersClosed | bulkhead.go:146-149 | a closed bulkhead stays closed and lets nobody in |
| BulkheadProtocol.BoundedOvertaking | bulkhead.go:92-113 | while a high-priority request waits, the normal requests dequeued are at most the workers that were past the outer poll, so at most MaxConcurrent |
| OvertakingAttainment.OvertakingIsAttained | bulkhead.go:92-113 | under every configuration with priorities and a buffer, MaxConcurrent normal requests can overtake one that waits |
| BulkheadProtocol.FifoAndConservation | bulkhead.go:92-183 | for each queue dequeued history ++ buffer equals enqueued history; an accepted request is in exactly one of a buffer, a worker, the finished log; buffers keep their bound |
| BulkheadProtocol.RunsAtMostOnce | bulkhead.go:118-131 | every request runs at most once and only after it was accepted |
| BulkheadProtocol.WorkersNeverBlock | bulkhead.go:118-131 | the result send never blocks and the dequeued channel is never closed twice, whether or not the caller has left |
| BulkheadProtocol.InFlightBounded | bulkhead.go:119-130 | InFlight is the number of workers in the call, at most MaxConcurrent |
| DeniedRequests.AcceptedRunsIff | bulkhead.go:92-133 | an accepted request can still start in some continuation iff it has started, a worker carries it, or it waits where a worker that is left can fetch it; with priorities and after Close that needs a worker at the inner select for each normal request up to it |
| DeniedRequests.DeniedRequestRunsIff | bulkhead.go:182-217 | a denied request was never accepted iff its caller had not sent it, and then never runs; otherwise it can run iff that condition holds, and always can until Close |
| DeniedRequests.CloseCanStrand | bulkhead.go:95-107 | with priorities Close can leave a normal request that no continuation runs, although a worker is left |
| DeniedRequests.EveryCallerCanBeServed | bulkhead.go:92-217 | until Close every caller that waits, sent or not, with a buffer or without, can have its request run in some continuation |
| DeniedRequests.ClosedCanStop | bulkhead.go:92-133 | after Close some continuation from every state ends all workers |
| Budget.RetryBudget.constructor | budget.go:18-31 | defaults for an unusable budget or window; a fresh window |
| Budget.DefaultsFillZeros | budget.go:18-25 | a budget in (0, 1] and a positive window are kept, others become a tenth and 10 seconds |
| Budget.WindowResets | budget.go:33-61 | the first call after the window has passed begins a new one and is granted; any other counts towards the window it is in |
| Budget.RetryBudget.Allow | budget.go:33-62 | a sequential Allow with its window reset keeps the closed form: of n calls in the window exactly the ceiling of budget * n were granted |
| Budget.AllowKeepsExact | budget.go:33-62 | the closed form is inductive, and a call is granted iff the ceiling moves with it |
| Budget.ExactIsCeilingOfProduct | budget.go:47-61 | the closed form read as retries == Ceiling(budget * total) |
| Budget.WithinShareIff | budget.go:47-61 | the grants stay within budget * total iff that is a whole number, and exceed it by less than one otherwise |
| Budget.RefusesAtShare | budget.go:51-58 | the ratio test agrees with its division-free form for all counter values |
| BudgetProtocol.OvershootBound | budget.go:47-61 | with at most k callers inside Allow and any interleaving of its atomic operations, grants never exceed Ceiling(budget * total) + k - 1 |
| BudgetProtocol.AllowAloneIsReached | budget.go:47-61 | an uninterrupted Allow within the window is a path of the atomic steps, with the same answer |
| BudgetProtocol.OvershootIsAttained | budget.go:47-61 | for every budget below one and every k a run reaches exactly Ceiling(budget * total) + k - 1 grants |
| BudgetProtocol.OvershootsIff | budget.go:47-61 | some run with at most k callers exceeds the sequential closed form iff k is at least 2 and the budget below one |
| Backoff.ExponentialDelayBoundIff | backoff.go:19-35 | for every sample a jittered exponential delay is at most MaxBackoff * (1 + Jitter), iff the jitter is at most one, the delay d it is applied to is not negative, or the whole nanoseconds of d * (1 - Jitter) are within that |
| Backoff.ExponentialDelayBound | backoff.go:19-35 | so it is for any jitter when initial delay and multiplier are not negative, and whatever those are when the jitter is at most one |
| Backoff.ScaledIsProduct | backoff.go:23 | the delay before the cap is the initial delay times the multiplier to the power of the attempt |
| Backoff.UnjitteredGrows | backoff.go:19-26 | before jitter the delay starts at the initial one and is multiplied at each attempt until the maximum, never falling |
| Backoff.UnjitteredIsCapped | backoff.go:20-26 | the delay before jitter is the product with the power or the maximum, whichever is less; a negative attempt counts as the first |
| Backoff.JitterIsEven | backoff.go:27-32 | the sample picks the delay evenly between the two ends of the jitter, cut at 0 |
| Backoff.TruncateMeaning | backoff.go:34 | the conversion to a duration goes towards zero by less than a nanosecond |
| Backoff.ExponentialDelayWindow | backoff.go:27-34 | jitter moves a delay by at most its share to either side, truncation by less than a nanosecond |
| Backoff.LinearDelayBound | backoff.go:52-61 | a linear delay stays in 0..max even when its arithmetic wraps, and is min(max, initial + step * attempt) when it does not and that is not negative |
| Backoff.LinearDelayWraps | backoff.go:52-61 | in general it is the number in the 64-bit range congruent to that sum, brought into 0..max |
| Backoff.Wrap64Meaning | backoff.go:52-53 | wrap-around is the one number of the 64-bit range congruent modulo 2^64 |
| Backoff.OtherDelays | backoff.go:43 | a constant backoff is the same at every attempt |
| Backoff.RetryAfterIsExactAndClamped | retry.go:192-227 | Retry-After parsing never wraps: it yields the exact duration clamped to 0..365 days, and 0 for a header that is missing or does not parse |
| Retry.RetryPolicy.constructor | retry.go:34-63 | configuration defaults, with the built-in exponential backoff when none is given |
| Retry.DefaultsFillZeros | retry.go:24-59 | what is missing becomes the default and what is out of range is clamped; the built-in backoff takes its parameters from the result |
| Retry.RetryAfterHonoured | retry.go:179-190 | a 429 or 503 that asks for a wait gets it, up to a year and to MaxBackoff; in all other cases the backoff decides |
| Retry.RetryPolicy.Decide | retry.go:246-270 | shouldRetry and its effect on the budget, which is asked before the outcome is looked at |
| Retry.RetryPolicy.BufferBody | retry.go:90-114 | the request body is read once and its old body closed; body, GetBody and length then agree; an unreadable or oversize body ends Execute and leaves the rest alone |
| Retry.RetryPolicy.TryOnce | retry.go:119-163 | one pass of the loop starts with a fresh body reader and closes the response unless it returns it |
| Retry.RetryPolicy.Execute | retry.go:89-177 | calls, waits, result and budget are those of the specified loop; every attempt starts with a fresh reader over the original bytes; every response is closed exactly once unless it is returned, and then not at all; at most MaxRetries + 1 calls |
| RetryTheorems.StopsAtFirstReason | retry.go:116-177 | the loop stops at the first attempt that is not to be retried, whose wait is cut short, or that is the last, and its result says which |
| RetryTheorems.MaxRetriesExactly | retry.go:116-177 | ErrMaxRetries appears iff MaxRetries + 1 outcomes in a row were retryable and no wait was cut short; it then reports that many attempts and the status or error of the last outcome |
| RetryTheorems.RetryableByDefaultIff | retry.go:246-278 | by default and without a budget an attempt is to be retried iff its method is one of those six and it ended in an error that is not permanent or in 429 or 500 and above; with a budget only then |
| RetryTheorems.WaitsExactly | retry.go:135-159 | Execute waits after each attempt that it follows by another, and after the one whose wait is cut short, for that attempt's delay |
| RetryTheorems.BudgetAskedEachTime | retry.go:246-256 | the budget is asked about every outcome that is not a permanent error, successes included |
| RetryTheorems.NonIdempotentSentOnce | retry.go:260-278 | without a custom test a request of any method but GET, HEAD, PUT, DELETE, OPTIONS and TRACE is sent exactly once and its outcome returned |
| RetryTheorems.PermanentErrorEndsRun | retry.go:247-250 | a permanent error is the outcome of the last call and the result, and the budget is not asked about it |
| RetryTheorems.GrantsSpent | retry.go:246-270 | one Execute spends a grant for each retry, and one more iff the budget granted its last outcome too |
| RetryTheorems.ServeExhausts | retry.go:118-177 | by default, without a budget, requests of idempotent methods that only fail each make MaxRetries + 1 calls and end in ErrMaxRetries |
| RetryTheorems.TotalSleepBound | retry.go:150-190 | one Execute sleeps at most MaxRetries * MaxBackoff * (1 + Jitter) with the built-in backoff, Retry-After included |
| RetryTheorems.RetryAmplification | retry.go:118-164 | Q requests of a sequential caller make R retries with R * (1 - b) < b * Q + 1 + W, W counting window resets, for any backend and any MaxRetries |
| RetryTheorems.RetryAmplificationInWindow | retry.go:246-270 | within one window and for b < 1: R < (b * Q + 1) / (1 - b) |
| RetryTheorems.RetryAmplificationSharp | retry.go:118-164 | since each retry makes a call of its own: R = 0 or R * (1 - b) < b * Q + (1 - b) + W |
| ConcurrentRetry.ConcurrentAmplification | retry.go:118-164 | with k callers at once in one window R = 0 or R * (1 - b) < b * Q + (1 - b) * k, for any interleaving of the loops and of the atomic steps of Allow; so R * (1 - b) < b * Q + k |
| ConcurrentRetry.AttemptsWithinLimit | retry.go:118-163 | no caller of any run makes more than MaxRetries + 1 attempts |
| ConcurrentRetry.RetriedForCause | retry.go:246-270 | every retry of every run follows an outcome its caller got, not permanent and wanted by the configuration |
| RetryAttainment.AmplificationIsAttained | retry.go:118-164 | for every budget below one and every k, with MaxRetries large enough, some run of k requests makes the most retries that this allows |
| RetryBreaker.BackendCallsBound | circuit.go:239-251 | for one sequential caller and a backend that always trips, k breaker calls reach the backend at least min(k, FailureThreshold) and at most FailureThreshold + floor((t - t0) / OpenDuration) times |
| RetryBreaker.DefaultTestsAgree | circuit.go:92-105 | the default tests of retry and breaker agree on everything but status 429 and permanent errors |
| RetryBreaker.RefusalIsReported | circuit.go:239-243 | a request whose last attempt the breaker refuses ends in ErrMaxRetries with the breaker's error as its cause |
| RetryBreaker.OutageLoadBound | retry.go:118-164 | with the default tests and no budget every request makes MaxRetries + 1 breaker calls and ends in ErrMaxRetries, and of all these calls the backend sees no more than that bound |
| Singleflight.SingleflightPolicy.BuildKey | singleflight.go:37-75 | the key, and what is left for the next policy: body, length, GetBody (which an oversize body leaves alone), and the closing of the old body |
| Singleflight.BodyKeptIff | singleflight.go:43-57 | building the key leaves the body whole iff there is none, the method is GET, HEAD, OPTIONS or DELETE, no limit is set, or it exceeds the limit by at most one byte; otherwise it is cut to one byte over the limit |
| Singleflight.GetBodyFollows | singleflight.go:52-71 | GetBody yields the body if that is keyed on, and is as before otherwise |
| Singleflight.KeysAgreeIff | singleflight.go:37-75 | two requests share a key iff method, URL and keyed body agree |
| Singleflight.DifferentBodiesMergeIff | singleflight.go:39-53 | different bodies under one method and URL are merged iff the method is GET, HEAD, OPTIONS or DELETE, or both are oversize |
| Singleflight.SingleflightPolicy.Enter | singleflight.go:85-105 | a caller joins the listed flight unless there is none or it is older than the TTL; then it lists its own |
| Singleflight.SingleflightPolicy.Publish | singleflight.go:118-124 | the response body is buffered before the followers go |
| Singleflight.SingleflightPolicy.Unlist | singleflight.go:126-128 | the entry is deleted by key |
| Singleflight.SingleflightPolicy.Result | singleflight.go:130-136 | leader and follower alike get the flight's error, or its status and all its bytes |
| Singleflight.DeliversEverything | singleflight.go:118-136 | what the upstream returned, buffered and handed out, has its status and every byte of its body, or is its error |
| SingleflightProtocol.OneLeaderPerKeyIff | singleflight.go:80-128 | in a run at most one leader per key is ever inside Execute iff no caller ever finds an expired entry under its key |
| SingleflightProtocol.AtMostOneUpstreamCall | singleflight.go:80-128 | so if no caller does, in particular if every flight leaves the map within the TTL, at most one upstream call per key is in progress |
| SingleflightProtocol.ExpiryStartsSecondCall | singleflight.go:86-105 | in every run a caller that finds an expired entry starts an upstream call while the flight it found is under way |
| SingleflightProtocol.TwoUpstreamCallsHappen | singleflight.go:86-105 | for every key there is such a run, with two upstream calls in progress |
| SingleflightProtocol.EveryCallerGetsItsFlight | singleflight.go:91-136 | every caller gets the error, or the status and every byte of the body, that one upstream call by a leader of its own key and flight returned; callers of one flight get the same |
| SingleflightProtocol.FollowersAreServed | singleflight.go:92-124 | a follower can return, or its flight's leader is still at work on the flight |
| SingleflightProtocol.LeadersAreNeverStuck | singleflight.go:107-136 | a leader can take whatever its upstream call returns, and each later stage has its step |
| SingleflightProtocol.UnlistTakesAnyEntry | singleflight.go:126-128 | a leader deletes the entry of its key, even if another flight's by then |
| SingleflightProtocol.EntriesNeverLeak | singleflight.go:80-128 | every entry's leader is inside Execute, with or without expiry, so the map is empty when nobody is |
| Cache.CachePolicy.constructor | cache.go:31-45 | configuration defaults; an empty cache |
| Cache.DefaultsFillZeros | cache.go:31-40 | zeros become five minutes and 1000 entries, no methods GET and HEAD, and everything given is kept |
| Cache.CachePolicy.IsCacheable | cache.go:51-58 | a method is cacheable iff it is listed |
| Cache.CachePolicy.Evict | cache.go:96-108 | a full cache loses one of its oldest entries made before now, whatever order the loop visits them in |
| Cache.CachePolicy.Store | cache.go:95-110 | the write-locked section: evict, then store |
| Cache.EvictionIgnoresOrder | cache.go:96-108 | with distinct creation times the eviction has one possible result |
| CacheProtocol.CacheIsRecencySuffix | cache.go:95-110 | in every run with an advancing clock the contents are exactly the latest write of each key newer than some watermark; the size never exceeds MaxEntries; the next eviction does not depend on the map order |
| CacheProtocol.LookupFindsLatest | cache.go:67-69 | a lookup finds the latest write of its key, or nothing iff that is not newer than the common watermark |
| CacheProtocol.HitsAreFresh | cache.go:67-79 | a hit returns the bytes stored last under its key when it looked, less than the TTL old |
| CacheProtocol.HitIff | cache.go:67-79 | a lookup is a hit iff there was an entry under its key and that is younger than the TTL at the age check |
| CacheLru.VictimIsLruIff | cache.go:96-108 | the victim of an eviction is the least recently used entry iff it was not hit later than some other entry was last used |
| CacheLru.NoLateHitsMeansLru | cache.go:96-108 | in particular if no entry was hit after another was stored later |
| CacheLru.AlwaysLruIff | cache.go:67-110 | every eviction of every run is LRU iff MaxEntries is 1 or the TTL at most two nanoseconds |
| CacheProtocol.BoundNeedsOlderEntry | cache.go:96-109 | storing a new key keeps a full cache within its bound iff some entry is older than the eviction's clock reading |
| AdaptiveTimeout.AdaptiveTimeoutPolicy.constructor | adaptive.go:26-44 | configuration defaults; the initial timeout is published |
| AdaptiveTimeout.DefaultsFillZeros | adaptive.go:26-38 | the defaults of the four settings: 5 seconds, 5 minutes, percentile 99 if not in 1..100, at least 10 samples |
| AdaptiveTimeout.AdaptiveTimeoutPolicy.NextDeadline | adaptive.go:68-74 | the published timeout, or the initial one when that is not positive |
| AdaptiveTimeout.AdaptiveTimeoutPolicy.Record | adaptive.go:51-65 | append, trim, and publish the percentile of the window when there are enough samples |
| AdaptiveTimeout.RecordedPublishesRank | adaptive.go:57-63 | the published value is the percentile of the window: it has the rank k with 100 * k <= (n-1) * percentile < 100 * (k+1), and rank is defined by counting smaller samples, not by sorting |
| AdaptiveTimeout.RankIndexIsPercentileRank | adaptive.go:61 | the computed index is that rank |
| AdaptiveTimeout.TrimmedTo | adaptive.go:53-56 | the window takes in every sample up to 1024 and with the next one keeps the last 512 |
| AdaptiveTimeout.SortedIndexHasRank | adaptive.go:58-62 | an element of the sorted copy is the order statistic of its index |
| AdaptiveProtocol.WindowIsIgnored | adaptive.go:33-35 | a remark: no step reads the configured time window, as nothing in the source does after its default is filled in |
| AdaptiveProtocol.PublishesOrderStatistic | adaptive.go:51-65 | in every run the window is the suffix of the history of the exact size the trimming leaves, at most 1024, and the published timeout is its configured percentile whenever it holds MinSamples |
| AdaptiveProtocol.StartGetsPercentile | adaptive.go:67-78 | a call that starts gets the published timeout, which with enough samples is the percentile of the window, or Initial if that is not positive |
| AdaptiveProtocol.WhenSamplesSuffice | adaptive.go:54-57 | with MinSamples at most 512 the window never falls short again; with more than 1024 it always does |
| AdaptiveProtocol.SamplesSufficeForeverIff | adaptive.go:54-57 | the values of MinSamples without relapse are exactly those up to 512 |
| AdaptiveProtocol.NeverExceedsInitial | adaptive.go:67-83 | if every call respects its deadline, the timeout never exceeds Initial, for any interleaving |
| RateLimit.RateLimitPolicy.constructor | ratelimit.go:23-45 | a positive rate starts with Burst tokens; zero passes everything, a negative rate refuses everything |
| RateLimit.DefaultsFillZeros | ratelimit.go:23-29 | the rate is kept; a burst of at least one and a timeout of at least zero too |
| RateLimit.RateLimitPolicy.Enter | ratelimit.go:88-95 | which of the three ways a call takes |
| RateLimit.RateLimitPolicy.TryTake | ratelimit.go:98-102 | a token is taken iff there is one |
| RateLimit.RateLimitPolicy.Refill | ratelimit.go:72-76 | a refill is accepted iff the bucket is not full |
| RateLimit.IntervalMeaning | ratelimit.go:62-65 | for rates of up to 1000 per second the interval d is the whole nanoseconds of one period, d * rate <= 10^9 < (d + 1) * rate; for higher rates it is a millisecond |
| RateLimitProtocol.TokenConservation | ratelimit.go:36-43 | admitted + tokens equals Burst + accepted refills, tokens stay within Burst, and every caller is waiting, admitted, denied or cancelled |
| RateLimitProtocol.AdmissionRateBound | ratelimit.go:61-117 | admissions by time t are at most Burst + floor((t - start) / interval) |
| RateLimitProtocol.RateOverInterval | ratelimit.go:61-117 | between any two moments of a run at most Burst + 4 + floor((t2 - t1) / interval) calls are admitted |
| RateLimitProtocol.AdmissionsFollowRate | ratelimit.go:61-117 | both bounds read in the rate itself: for rates of up to 1000 per second the admissions beyond Burst, and beyond Burst + 4 between any two moments, are at most n with n * (10^9 - rate) <= time * rate |
| RateLimitProtocol.TokensLostOnlyWhenFull | ratelimit.go:71-102 | a tick adds a token unless the bucket is full, and a call is admitted at once iff the bucket is not empty |
| RateLimitProtocol.JudgedExactly | ratelimit.go:96-107 | the look at the clock denies a caller iff WaitTimeout is 0 or more than that has passed since it entered |
| RateLimitProtocol.WaiterCanProceed | ratelimit.go:108-115 | a waiting caller can take any token, leaves without one from WaitTimeout after its entry on and no sooner, and can always be cancelled |
| RateLimitProtocol.BurstIsAttained | ratelimit.go:61-117 | under every configuration two moments a nanosecond apart exist with Burst + 4 admissions between them: one tick was in the refill loop's hand and another waited |
| RateLimitProtocol.DeniedAfterFullWait | ratelimit.go:96-117 | a denied caller entered more than WaitTimeout ago, unless that is 0, and found the bucket empty since; it takes no token |
| TimeoutMap.SegmentMatchIsSubstitution | timeout.go:94-118 | a pattern without a trailing wildcard matches iff some substitution of slash-free strings for its star segments turns it into the path, up to one leading slash |
| TimeoutMap.JoinOfSplit | timeout.go:106-107 | splitting at slashes and joining again is the identity, with slash-free parts |
| TimeoutMap.SplitOfJoin | timeout.go:106-107 | joining slash-free parts and splitting again is the identity |
| TimeoutMap.TrailingStarsAgree | timeout.go:98-105 | a trailing single star after a slash accepts exactly the paths a trailing double star does: those with the prefix |
| TimeoutMap.DoubleStarIsPrefix | timeout.go:102-105 | a pattern that ends in a double star matches exactly the paths with what precedes it as prefix |
| TimeoutMap.SingleSegmentIff | timeout.go:98-117 | for every pattern with a trailing star and every path the code agrees with the segment-wise reading iff the path is not more than one segment below the prefix and, where the segments match, no inner star stands for another segment and the leading slashes agree |
| TimeoutMap.SingleSegmentIffPlain | timeout.go:98-117 | without inner stars and with leading slashes: iff the path is not more than one segment below the prefix |
| TimeoutMap.InnerStarIsLiteral | timeout.go:98-105 | a pattern that ends in a wildcard and has an inner star matches no path with another character in its place |
| TimeoutMap.InnerStarMisses | timeout.go:98-105 | so a pattern of two segments around a star, and a trailing star, misses every path it matches segment by segment, unless that has a star in the middle too |
| TimeoutMap.MatchURL | timeout.go:85-92 | the result is the timeout of a matching rule, or 0 iff none matches, for every map order |
| TimeoutMap.OrderMattersIffRulesDisagree | timeout.go:85-92 | the result is independent of the map order iff all matching rules agree |

## Left out

- HTTP transport, headers, hooks, logging, metrics, stats, health endpoint, presets, request IDs, JSON helpers, fallback: plumbing without a property of its own.
- Policy chaining (policy.go, client.go): a plain right fold that would add only easy members.
- Panics: `next` is assumed to return, with a response or an error. The recovered path of singleflight.go:109-124 calls `wg.Done` twice.
- Floating-point rounding: ratios, delays and rates are reals, so a `float64` result that rounds across a comparison is not modelled; nor are conversions of out-of-range values to `time.Duration`.
- Wrap-around of counters that only grow (the breaker's 64-bit generation, the budget's 64-bit totals, the bulkhead's statistics) and of `maxBodySize + 1`: unbounded here. The 32-bit counters of the breaker wrap in the model.
- Window resets of the retry budget under concurrency: the overshoot and concurrent amplification bounds stay within one window; sequential resets are modelled, also in the sequential amplification bound.
- The ticker of the rate limiter is Go's. The model assumes of it that it ticks at most once in each interval since its start, perhaps late within the interval, and drops the ticks it misses; its channel has one place, as in the Go version of go.mod.
- `sha256` truncated to eight bytes: an injective function from bodies to strings, so digest collisions are not modelled. Methods and URLs are assumed free of spaces.
- `strconv.Atoi` and `http.ParseTime`: a header comes already parsed. `sort.Slice` is an insertion sort, which yields the same sequence of integers.
- Blocking and fairness: a blocked caller or worker is one whose next event is not enabled yet; no theorem says when the scheduler lets it go on. The infinite loops of the bulkhead worker, the refill loop and the rate limiter's Execute appear as their atomic steps.
- Responses: a response body is an object that counts its closings, or its bytes; partial reads that fail are not modelled.
- matchURL's rules and the configuration of every policy are fixed after construction, as in the source.
