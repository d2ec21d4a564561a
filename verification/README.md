# Vortex proxy: a verified model

Vortex is a layer-7 proxy. This project models the parts of it whose guarantees
hold only over whole runs, and proves those guarantees for every input, every
run or every interleaving:

- `Gcra`, `GcraRuns`, `TokenBucket`: the rate limiter's Redis script. It is the
  virtual-scheduling form of the generic cell rate algorithm (Annex A of ITU-T
  Recommendation I.371) with weighted costs. The script is proved to be a token
  bucket, to keep and attain a bound on every window, to refuse nothing that the
  bound allows, and to be indifferent to key expiry.
- `PeakEwma`, `PeakEwmaConcurrent`: the latency tracker. Peak EWMA is the maximum
  of all restarted plain averages, and the compare-and-swap loop is linearizable and
  lets every call through.
- `Ranking`, `Selector`, `Routing`, `GreedyBalance`: choosing a backend, and the
  proof that routing each request to the lowest score is optimal scheduling.
- `CircuitBreaker`, `CircuitBreakerConcurrent`, `BreakerTraces`: the breaker as a
  function of its history when calls do not overlap, and what is left of that when
  they do.
- `BanManager`, `BanManagerConcurrent`, `BanTraces`: bans in user space and in the
  kernel, with concurrent bans, checks and the sweeper.
- `ConnectionPool`, `RequestLifecycle`, `RequestTraces`, `HalfOpenRequests`: all requests
  in flight at once, with every early return, cancellation, table swap and health change. Besides
  safety, every request is proved to take only finitely many steps in every run.
- `SniCertificates`: certificate lookup against a scan over all patterns.

`dafny verify dfyconfig.toml` checks everything.

## How the model reads the source

- Numbers: latencies, TATs and scores are reals, without f64 rounding. Clock
  readings are whole milliseconds or seconds as in the source.
- The clock, spurious compare-and-swap failures, kernel refusals, the outcome of
  each network wait, and which sender is closed are parameters or free choices of
  the environment.
- An atomic operation is one step; any task may take the next step. Relaxed memory
  orderings are read as sequentially consistent.
- The connection pool's map locks a shard of addresses. `try_pop` holds that lock for
  reading during its whole loop, and `push` takes it for writing to find the queue, but
  not to push to it. The model locks each address by itself, which allows more runs.
- Fields such as `log`, `history`, `stamps`, `outcomes` or `epoch` record what happened so
  that it can be stated; the program has no such variables and no step depends on
  them. The modules named Traces, and `RecordsFollowRun`, prove that these fields say
  what the steps of the run did; `RunHasTrace` in each gives the states of any run.

Where the code and its documentation differ, the model follows the code:

- A request may declare a cost of 0. On a key that is not ahead of the clock the
  script then asks Redis for an expiry of 0 ms, which Redis refuses, so the call
  fails (`ScriptErrorIff`).
- `get_ai_backend` is documented to fall back when the primary model is heavily
  loaded. The code falls back only when no healthy backend serves it.
- `get_best_backend` and `get_ai_backend` ignore circuit breakers. `SelectionsAgreeIff`
  and `FallbackRespectsBreakersIff` say for which tables that makes a difference, and
  `SelectionsCanDiffer` and `FallbackCanDiffer` give one.
- With overlapping calls the circuit breaker need not answer as after the same calls
  one after the other. `record_success` clears the stamp in a second store, which may
  land after five failures have been counted (`TripCanBeLost`). Of two failures the one
  that read the clock earlier may store later, so that the breaker stops being open
  too early (`StampCanGoBack`). `SequentialIff` gives the exact condition.
  `SequentialIfCalm` gives one that the callers control: the latest counter step is not
  taken between another recording call's two steps.
- A ban can be in force in user space and yet be missing from the kernel: the
  sweeper may lift the address's old ban between the new ban's block and its insert
  (`InsertedBanCanMissKernel`; `KernelMissesBanIff` gives the exact condition for every
  run and every address). It cannot happen to an address that is blocked only while it
  has no entry and no pending ban (`KernelMissesNoSingleBan`).
- `CircuitState::HalfOpen` is documented to allow a test request. Selection lets every
  request through unless the breaker is open, so any number of them can hold a
  half-open backend at once (`HalfOpenAdmitsMany`).
- The connection pool is documented as lock-free. The map's lock is what makes the loop
  in `try_pop` end while others return connections that then close: a request in the
  loop can meet only connections that were idle, or whose queue had been found, when it
  entered (`OwnStepsAreBounded`). A push waits for the loops over its address.

## Model

| member | source | states |
|---|---|---|
| `Gcra.RateStore.CheckRateLimit` | vortex-filters/src/rate_limiter/redis_store.rs:27-59 | the step-by-step script leaves exactly the key and reply of the specification, and touches no other key |
| `Gcra.RateStore.Expire` | vortex-filters/src/rate_limiter/redis_store.rs:55 | Redis drops a key exactly when its deadline has come |
| `Gcra.ChargeIsProduct` | vortex-filters/src/rate_limiter/redis_store.rs:44 | the charge that the runs add up is emission interval times cost |
| `Gcra.ScriptErrorIff` | vortex-filters/src/rate_limiter/redis_store.rs:55 | the script fails exactly on a free call to a key not ahead of the clock; otherwise the deadline is at least 1 ms away and is the first whole millisecond at or after the TAT |
| `Gcra.RemainingIsExact` | vortex-filters/src/rate_limiter/redis_store.rs:48-58 | `remaining` is the largest whole cost still admissible at that instant, on both paths and for any clocks |
| `Gcra.DropVisibleIff` | vortex-filters/src/rate_limiter/redis_store.rs:36-43 | a dropped key changes a reply exactly when its TAT is ahead of the caller's clock |
| `GcraRuns.TatNeverDecreases` | vortex-filters/src/rate_limiter/redis_store.rs:43-55 | for arbitrary, even backward, clocks the stored TAT rises by at least the charge of everything admitted |
| `GcraRuns.AnyClockBound` | vortex-filters/src/rate_limiter/redis_store.rs:78-89 | for arbitrary clocks, the cost admitted between any two admitted calls is worth at most a period plus the difference of their readings |
| `GcraRuns.WindowBound` | vortex-filters/src/rate_limiter/redis_store.rs:43-55 | in every window of every ordered run, admitted cost * period <= limit * (window + period) |
| `GcraRuns.WindowBoundIsTight` | vortex-filters/src/rate_limiter/redis_store.rs:33-34 | for every limit, period and length some run attains the window bound |
| `GcraRuns.TatIsAttained` | vortex-filters/src/rate_limiter/redis_store.rs:43-44 | the TAT equals some admitted call's clock plus the charge of everything admitted since |
| `GcraRuns.DeniedOnlyWhenNecessary` | vortex-filters/src/rate_limiter/redis_store.rs:43-52 | a call is refused exactly when it, or some window ending with it, would break the bound |
| `GcraRuns.ExpiryIsInvisible` | vortex-filters/src/rate_limiter/redis_store.rs:36-55 | whatever expired keys are dropped and whenever, every call gets the reply it would get if none were |
| `GcraRuns.ErasingDenials` | vortex-filters/src/rate_limiter/redis_store.rs:47-52 | leaving out all refused calls changes no other reply and not the key |
| `GcraRuns.BatchEqualsSum` | vortex-filters/src/rate_limiter/redis_store.rs:43-58 | several costs spent at one instant all succeed exactly when one call for their sum does, with the same TAT |
| `TokenBucket.TakeSimulates` | vortex-filters/src/rate_limiter/redis_store.rs:33-59 | one script call and one bucket draw give the same reply and keep the simulation relation |
| `TokenBucket.ScriptIsATokenBucket` | vortex-filters/src/rate_limiter/redis_store.rs:33-59 | over every ordered run the script replies as a linearly refilled, capped token bucket, which never goes negative |
| `PeakEwma.Tracker.constructor` | vortex-core/src/load_balancer/ewma.rs:30-36 | a tracker starts at the given latency with no active request |
| `PeakEwma.Tracker.ObserveLatency` | vortex-core/src/load_balancer/ewma.rs:44-76 | the retry loop applies exactly one step, however often the exchange fails spuriously |
| `PeakEwma.Tracker.IncrementActive` | vortex-core/src/load_balancer/ewma.rs:80-83 | one more active request |
| `PeakEwma.Tracker.DropGuard` | vortex-core/src/load_balancer/ewma.rs:104-108 | the unsigned subtraction, including its wrap at zero |
| `PeakEwma.ScoreOf` | vortex-core/src/load_balancer/ewma.rs:89-95 | the score is at least 1 for any non-negative latency |
| `PeakEwma.StepStaysBetweenIff` | vortex-core/src/load_balancer/ewma.rs:54-58 | a step never leaves the range of its arguments exactly when alpha is in [0, 1] |
| `PeakEwma.PeakIsMaxOverRestarts` | vortex-core/src/load_balancer/ewma.rs:50-58 | Peak EWMA is the maximum of the plain averages restarted at the start and at each sample |
| `PeakEwma.PeakStaysInRange` | vortex-core/src/load_balancer/ewma.rs:160-185 | it stays within everything seen and never below the latest sample |
| `PeakEwma.StartIsForgotten` | vortex-core/src/load_balancer/ewma.rs:3-5 | after n samples at most alpha^n of a difference in the start is left |
| `PeakEwma.DecayedIsPower` | vortex-core/src/load_balancer/ewma.rs:57 | shrinking by alpha n times is multiplying by alpha^n |
| `PeakEwma.ConstantDecay` | vortex-core/src/load_balancer/ewma.rs:124-139 | under constant latency r below the start the value is r + alpha^n * (start - r) |
| `PeakEwmaConcurrent.CellIsSequentialFold` | vortex-core/src/load_balancer/ewma.rs:44-76 | in every interleaving the cell is the sequential fold of the committed samples, each returned call's sample exactly once |
| `PeakEwmaConcurrent.CommitOrderRespectsRealTime` | vortex-core/src/load_balancer/ewma.rs:44-76 | a call that returned before another began precedes it in the commit order |
| `PeakEwmaConcurrent.FailureMeansProgress` | vortex-core/src/load_balancer/ewma.rs:63-74 | an exchange that finds another value fails because some other call has committed since |
| `PeakEwmaConcurrent.RecordsFollowRun` | vortex-core/src/load_balancer/ewma.rs:44-76 | in every interleaving samples, begin and end times and the log are those of the run's own begin, return and successful exchange steps |
| `PeakEwmaConcurrent.RetryIsUpToDate` | vortex-core/src/load_balancer/ewma.rs:63-74 | after a load or a failed exchange the call's next exchange is enabled, however the others go on, unless some call commits in between |
| `PeakEwmaConcurrent.EveryCallCanReturn` | vortex-core/src/load_balancer/ewma.rs:44-76 | from every reachable state each begun call can return by at most three steps of its own, and is then in the log exactly once |
| `Ranking.MinByFindsBest` | vortex-core/src/load_balancer/selector.rs:12-22 | filter and fold find the first minimum, or nothing exactly when nothing qualifies |
| `Ranking.SortBy` | vortex-core/src/load_balancer/selector.rs:36-42 | the result is sorted and elements of equal score keep their order |
| `Ranking.StableSortIsUnique` | vortex-core/src/load_balancer/selector.rs:36-42 | only one list is a stable sort of a given list |
| `Selector.SelectBestIsFirstMinimum` | vortex-core/src/load_balancer/selector.rs:7-23 | the choice is the first lowest-scored healthy backend whose circuit is not open, and is missing exactly when there is none |
| `Selector.SelectHealthyBackends` | vortex-core/src/load_balancer/selector.rs:26-45 | collecting and sorting gives the stable sort of the eligible backends |
| `Selector.SortedListAgrees` | vortex-core/src/load_balancer/selector.rs:7-45 | that list has each eligible backend as often as the table does and nothing else, and begins with the selector's choice |
| `Routing.GetBestIsFirstMinimum` | vortex-core/src/domain/routing.rs:30-45 | the table's own choice is the first lowest-scored healthy backend, open circuit or not, and is missing exactly when none is healthy |
| `Routing.SelectionsAgreeIff` | vortex-core/src/domain/routing.rs:30-45 | the table's own choice equals the selector's exactly when the table's first lowest-scored healthy backend does not have an open circuit |
| `Routing.SelectionsCanDiffer` | vortex-core/src/domain/routing.rs:30-45 | a table of two new backends, one with an open circuit, on which the two choices differ |
| `Routing.FirstServedMeaning` | vortex-core/src/domain/routing.rs:49-93 | the search fails exactly when no listed model has a healthy server, and otherwise serves the earliest model that has one |
| `Routing.BestForIffServed` | vortex-core/src/domain/routing.rs:57-68 | for one model the first minimum exists exactly when some qualifying backend serves it |
| `Routing.FallbackRespectsBreakersIff` | vortex-core/src/domain/routing.rs:57-93 | the search agrees with one that respects breakers exactly when the first lowest-scored healthy server of the earliest served model does not have an open circuit |
| `Routing.FallbackCanDiffer` | vortex-core/src/domain/routing.rs:57-93 | a table on which the two searches differ |
| `Routing.RoutingTable.GetAiBackend` | vortex-core/src/domain/routing.rs:49-93 | the loop with its early return computes that search over the requested model and then the fallbacks |
| `Routing.RoutingTable.UpdateBackends` | vortex-core/src/domain/routing.rs:25-27 | the whole table is replaced |
| `GreedyBalance.GreedyIsBalanced` | vortex-core/src/load_balancer/selector.rs:12-22 | after k routed requests every added load is at most the next score of every eligible backend |
| `GreedyBalance.GreedyMinimizesPeak` | vortex-core/src/load_balancer/ewma.rs:80-95 | from any starting load, with latencies fixed and nothing completing, no other placement of k requests has a lower greatest load |
| `GreedyBalance.AdmissionPaysScore` | vortex-core/src/load_balancer/ewma.rs:80-95 | each admission adds the compared score to the total |
| `GreedyBalance.GreedyMinimizesTotal` | vortex-core/src/load_balancer/ewma.rs:80-95 | under the same conditions no other placement has a lower total of admission scores |
| `CircuitBreaker.TrippedIffStreak` | vortex-core/src/domain/circuit_breaker.rs:43-47 | a failure count at the threshold means that the latest five recorded calls all failed |
| `CircuitBreaker.FiveFailuresAt` | vortex-core/src/domain/circuit_breaker.rs:6-60 | four failures leave the breaker closed; five at t open it up to t + 30, and it is half open from t + 31 on; a success closes it |
| `CircuitBreaker.Breaker.State` | vortex-core/src/domain/circuit_breaker.rs:43-60 | after every history the state is a function of it: Closed, Open up to 30 s after the latest failure, then HalfOpen |
| `CircuitBreaker.Breaker.RecordSuccess` | vortex-core/src/domain/circuit_breaker.rs:63-66 | both fields become 0 and keep following the history |
| `CircuitBreaker.Breaker.RecordFailure` | vortex-core/src/domain/circuit_breaker.rs:69-78 | the fields keep following the history; the stamp is 0 while the count is below five |
| `CircuitBreakerConcurrent.OpenIsJustified` | vortex-core/src/domain/circuit_breaker.rs:43-78 | in every interleaving, with the clock past 30 s, Open means five additions since the reset and a stamp at most 30 s old from a failure that reached the threshold |
| `CircuitBreakerConcurrent.NeverStuckOpen` | vortex-core/src/domain/circuit_breaker.rs:55-59 | no reader answers Open once 30 s have passed beyond every stored stamp |
| `CircuitBreakerConcurrent.OneStorePerCall` | vortex-core/src/domain/circuit_breaker.rs:63-78 | in every interleaving each success and each failure that reached the threshold has exactly one store to the stamp, done or about to be, and a failure's carries its own clock reading |
| `CircuitBreakerConcurrent.SequentialIff` | vortex-core/src/domain/circuit_breaker.rs:43-78 | once no recording call is between its two steps, the fields give the answer of the calls in counter order at every clock past 30 s exactly when the count is below five or the latest store left the latest call's own clock reading |
| `CircuitBreakerConcurrent.SequentialIfCalm` | vortex-core/src/domain/circuit_breaker.rs:63-78 | that answer is given whenever the latest counter step was not taken between another recording call's two steps |
| `BreakerTraces.HistoryFollowsRun` | vortex-core/src/domain/circuit_breaker.rs:63-78 | in every run the history lists exactly the recording calls that were started, in the order of their counter steps |
| `BreakerTraces.ClockFollowsRun` | vortex-core/src/domain/circuit_breaker.rs:50-53 | in every run the clock shows what it was set to last |
| `BreakerTraces.SuccessResets` | vortex-core/src/domain/circuit_breaker.rs:63-66 | in every run a success sets the counter and then the stamp to 0, with other steps in between or not |
| `BreakerTraces.FailureAdds` | vortex-core/src/domain/circuit_breaker.rs:70-71 | in every run a failure adds one, and goes on to the stamp exactly from five on |
| `BreakerTraces.FailureStoresItsReading` | vortex-core/src/domain/circuit_breaker.rs:69-78 | in every run a failure that reaches the threshold stores its own clock reading, which its place in the history keeps |
| `BreakerTraces.ReaderAnswers` | vortex-core/src/domain/circuit_breaker.rs:43-60 | in every run a reader answers by the counter at its first step, the stamp at its second and the clock at its third |
| `BreakerTraces.ClosedAtOnce` | vortex-core/src/domain/circuit_breaker.rs:44-47 | a reader answers Closed at its first step exactly when it finds fewer than five |
| `BreakerTraces.QuietReader` | vortex-core/src/domain/circuit_breaker.rs:43-60 | if no recording call steps while it reads, the answer is that of the fields and the clock at its last step |
| `BreakerTraces.CalmReader` | vortex-core/src/domain/circuit_breaker.rs:43-78 | if the recording calls before it were also calm and are over, the answer is the one the history calls for |
| `CircuitBreakerConcurrent.TripCanBeLost` | vortex-core/src/domain/circuit_breaker.rs:63-78 | a run of exactly one success and five failures, all ended, under a clock set once at its beginning, after which the answer is HalfOpen; no order of these six calls gives that answer |
| `CircuitBreakerConcurrent.StampCanGoBack` | vortex-core/src/domain/circuit_breaker.rs:69-78 | a run of exactly six failures under a forward clock, after which the answer is HalfOpen while the calls in counter order call for Open |
| `BanManager.Manager.BanIp` | vortex-proxy/src/ban_manager.rs:24-36 | an accepted block gets its entry, a refused one changes nothing, and kernel and map stay equal |
| `BanManager.Manager.IsIpBanned` | vortex-proxy/src/ban_manager.rs:39-50 | without overlap, banned means having an entry, even past its end until it is swept |
| `BanManager.Manager.Sweep` | vortex-proxy/src/ban_manager.rs:64-83 | exactly the ended bans that the kernel agrees to lift disappear, from both sides |
| `BanManagerConcurrent.NoKernelBanIsOrphaned` | vortex-proxy/src/ban_manager.rs:24-83 | in every interleaving each kernel-blocked address has an entry or a pending insert |
| `BanTraces.BanStoresItsEnd` | vortex-proxy/src/ban_manager.rs:24-36 | in every run a ban of length d that read the clock at c leaves the entry c + d, whatever entry the address had before |
| `BanTraces.BanLasts` | vortex-proxy/src/ban_manager.rs:33-50 | from that insert on, before c + d, the entry stands and every check begun and answered answers true, unless another ban inserts its own |
| `BanTraces.CheckIsExplained` | vortex-proxy/src/ban_manager.rs:39-50 | in every run a check answers true if the kernel blocked the address when asked, and otherwise whether the entry it then read, if any, ended after its own clock reading |
| `BanTraces.BanAlone` | vortex-proxy/src/ban_manager.rs:24-36 | from every reachable state a ban alone can block an unlocked address and leave its entry, as without overlap |
| `BanTraces.EndedBanCanBeSwept` | vortex-proxy/src/ban_manager.rs:59-85 | from every reachable state the sweeper alone can remove any ended ban from map and kernel, keeping all that have not ended |
| `BanManagerConcurrent.KernelMissesBanIff` | vortex-proxy/src/ban_manager.rs:24-83 | in every run an address with a pending ban, or an entry not being removed, is missing from the kernel exactly when the latest kernel change to it lifted it while a ban of it was pending |
| `BanManagerConcurrent.InsertedBanCanMissKernel` | vortex-proxy/src/ban_manager.rs:26-33 | after a ban of any positive length has ended, a second one of any positive length can be inserted and not ended, with no call under way and the sweeper asleep, and not be blocked in the kernel |
| `BanManagerConcurrent.KernelMissesNoSingleBan` | vortex-proxy/src/ban_manager.rs:24-83 | in every run that blocks an address only while it has no entry and no pending ban, the kernel blocks it whenever it has one |
| `ConnectionPool.Pool.TryPop` | vortex-proxy/src/connection_pool/pool.rs:26-38 | the oldest open sender of the address is returned and only closed ones before it are thrown away |
| `ConnectionPool.PopIsDetermined` | vortex-proxy/src/connection_pool/pool.rs:26-38 | that description allows one result only |
| `ConnectionPool.Pool.Push` | vortex-proxy/src/connection_pool/pool.rs:41-54 | an open sender joins the end of its address's queue, a closed one does not |
| `RequestLifecycle.ActiveCountsInFlight` | vortex-proxy/src/server.rs:287-289 | over every run each backend ever installed counts exactly the requests that hold it, so its counter never underflows |
| `RequestLifecycle.BackendFollowsItsRecord` | vortex-proxy/src/server.rs:385-415 | over every run breaker and latency are what the recorded outcomes and samples call for, with one outcome per reporting request |
| `RequestLifecycle.SelectionIsSound` | vortex-proxy/src/server.rs:265-285 | over every run selection ends the request exactly when no backend of the current table is fit; otherwise it picks a fit one and no other fit one scores lower |
| `RequestLifecycle.SenderIsInOnePlace` | vortex-proxy/src/server.rs:294-409 | over every run each connection is idle under its own address, leased to one request, or discarded, only one of these, and at only one place in its queue |
| `RequestLifecycle.SwapDrains` | vortex-core/tests/routing_tests.rs:9-42 | across table swaps a request keeps its backend, and later choices come from the current or a later table |
| `RequestLifecycle.NoRequestIsStuck` | vortex-proxy/src/server.rs:196-426 | at every point before its end a request has a step of its own to take, or its push waits for a request in the loop over its address, which has one |
| `RequestLifecycle.SupplyStep` | vortex-proxy/src/connection_pool/pool.rs:26-54 | while a request is in the loop over an address, no step adds to the idle connections and those about to be pushed there, and each turn takes one away |
| `RequestLifecycle.FewStepsBeforeLoop` | vortex-proxy/src/server.rs:196-296 | over every run a request that has not come to the loop has passed a point with every step of its own |
| `RequestLifecycle.OwnStepsAreBounded` | vortex-proxy/src/server.rs:294-426 | from the loop on, whatever the others do, a request has finished after as many steps of its own as there were points before it and, in the loop, connections idle or about to be |
| `RequestLifecycle.NoRequestGoesOnForever` | vortex-proxy/src/server.rs:196-426 | in every run without end each request takes only finitely many steps |
| `RequestLifecycle.EveryRequestCanFinish` | vortex-proxy/src/server.rs:196-426 | from every reachable state each arrived request can finish uncancelled, by its own steps and turns of loops that others are in |
| `RequestTraces.RecordFollowsRun` | vortex-proxy/src/server.rs:305-415 | in every run a backend's outcomes and samples are those of the sends, connection attempts and observations of its requests, in order |
| `RequestTraces.RequestGoesDown` | vortex-proxy/src/server.rs:196-426 | in every run consecutive steps of a request follow one another in the program, whatever the others do in between |
| `RequestTraces.FinishedIff` | vortex-proxy/src/server.rs:240-426 | in every run a request has finished exactly when it was refused, found no fit backend, dropped its guard or was cancelled |
| `RequestTraces.RefusedGetsNothing` | vortex-proxy/src/server.rs:240-257 | in every run a refused request never has a backend, a guard or a connection |
| `RequestTraces.GuardFollowsRun` | vortex-proxy/src/server.rs:287-289 | in every run a request holds its backend exactly from taking the guard until it drops it or is cancelled |
| `RequestTraces.DiscardedIff` | vortex-proxy/src/server.rs:294-409 | in every run a connection is discarded exactly when it was popped or pushed closed, was not ready, failed a send, or its request was cancelled |
| `RequestTraces.UselessIsGone` | vortex-proxy/src/server.rs:297-403 | from then on it is neither idle nor in any request's hands |
| `RequestTraces.QueueHoldsLatestReturns` | vortex-proxy/src/connection_pool/pool.rs:26-54 | in every run the queue of an address holds the latest returns to it, oldest first |
| `RequestTraces.TryPopsFirstOpen` | vortex-proxy/src/connection_pool/pool.rs:26-38 | the turns of one request's loop together take the first open connection and drop the closed ones before it, unless others touch the queue meanwhile |
| `RequestTraces.TablesFollowRun` | vortex-core/src/domain/routing.rs:25-27 | in every run the tables are those swapped in, and the closed connections those that closed |
| `RequestTraces.NatureFollowsRun` | vortex-core/src/domain/routing.rs:25-27 | in every run a backend is as it was added, except for the health set since |
| `HalfOpenRequests.HalfOpenAdmitsMany` | vortex-core/src/domain/circuit_breaker.rs:13-17 | any number of requests can choose the same half-open backend and hold it together |
| `SniCertificates.SniCertificateManager.RegisterDomain` | vortex-proxy/src/tls.rs:68-75 | the pattern becomes live, in every spelling, with the new bundle |
| `SniCertificates.SniCertificateManager.RemoveDomain` | vortex-proxy/src/tls.rs:77-79 | the pattern is gone in every spelling, and the result says whether it was live |
| `SniCertificates.SniCertificateManager.SetDefaultBundle` | vortex-proxy/src/tls.rs:63-66 | the default is replaced |
| `SniCertificates.SniCertificateManager.GetCertificate` | vortex-proxy/src/tls.rs:98-117 | after any history two map lookups agree with a scan that ignores ASCII case: exact match, then wildcard match, then default |
| `SniCertificates.SameNameIffFolded` | vortex-proxy/src/tls.rs:74-99 | folding identifies exactly the names that differ only in the case of letters of the two alphabets |
| `SniCertificates.AnswerIgnoresCase` | vortex-proxy/src/tls.rs:98-117 | two spellings of one name get the same answers |
| `SniCertificates.RegisteredIsFound` | vortex-proxy/src/tls.rs:68-104 | a registered name is found under every spelling until some spelling of it is registered anew or removed |
| `SniCertificates.WildcardIsUnique` | vortex-proxy/src/tls.rs:106-112 | a name matches at most one wildcard pattern |
| `SniCertificates.WildcardCoversOneLabel` | vortex-proxy/src/tls.rs:106-112 | the star stands for exactly one label, which may be empty |
| `SniCertificates.AnswerIsUnique` | vortex-proxy/src/tls.rs:97-117 | the scan determines the answer |

## Left out

- Floating point: rounding, infinities and NaN in f64 and in Lua numbers; the conversion of the Lua reply to integers in `check_rate_limit` is not modelled either.
- Counter widths: the breaker's failure count and the number of active requests are unbounded when they grow; only the subtraction below zero is modelled as it wraps.
- A limit or period of 0: the only caller passes 1000 requests and 60 s.
- Redis and caller clocks that differ: `ExpiryIsInvisible` is for one shared, ordered clock; `DropVisibleIff` says what a differing clock would show.
- Weak memory orderings: every atomic operation takes effect at once for all tasks.
- Overlap inside `RequestLifecycle`: recording an outcome, observing a latency and selecting from a table are one step each there; their own interleavings are the subject of `CircuitBreakerConcurrent` and `PeakEwmaConcurrent`.
- Fairness: that the scheduler lets each task go on, and that the map's lock lets a waiting push in while new loops over its address keep starting.
- Scores that change while a list is being sorted: selection works on one snapshot of values.
- `Ranking.SortBy`: models the library's `sort_by` by an insertion into a sequence, not in place; its contract is all that the callers use.
- `SniCertificates.SniCertificateManager.GetCertificate`: concurrent changes between its lookups are not modelled, and names are ASCII.
- `BanManager.Manager.BanIp`: the kernel is a set that may refuse a change; the Linux limiter's silent acceptance of IPv6 addresses is not modelled.
- The wasm filter, the request cost header, the ban issued when a request is limited, headers and responses in `forward_request`: they do not touch the modelled state.
- TCP, TLS and QUIC listeners, the Kubernetes watcher, the admin server, the health prober, telemetry, PEM loading and the eBPF program: plumbing around the modelled state; only a table swap and a health change are seen here.
