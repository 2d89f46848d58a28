# A verified model of the request pipeline

This project models the stateful engines of a public-data API server and proves what they keep over
whole runs: its rate limiters, its dependency-injection container, its API version migration, its
LRU cache, its field mapper, and the registries and orderings that must agree with a plain scan.

Stateful code is modelled as classes whose methods run the source's steps and loops. Each method's
postcondition ties the new state, and the result, to a function of the old state; the properties are
then proved about these functions, over every run. Source paths are relative to the repository root.

## How the model is laid out

- `Container.dfy` is the container. `ResolveSpec`, `CreateSpec` and `ArgumentsSpec` describe a
  resolution whose caches grow while it recurses; `Judge` is the simple form, a walk of the binding
  graph with the caches frozen as they were when the call began. The two are proved to agree,
  which needs the fact that handing out an object cached during the walk never hides a cycle.
  `built` is the log of all constructions, so that "at most one instance" can be said.
- `MigrationPaths.dfy` is the breadth-first search for a migration path and the loop that applies it.
- `SharedCounters.dfy`, `SortedSetRace.dfy` and `FixedWindowRace.dfy` are the protocols on shared
  stores, as state machines over the steps of any number of concurrent requests.
- `AdmissionLog.dfy` is the specification of the log-style limiters: the full log of all admissions.
  `BlockingLimiter.dfy` and `LogLimiters.dfy` prove the deque, the list, the Redis list and the
  middleware's two-window list against it.
- `TokenBuckets.dfy`, `WeightedWindow.dfy` and `FixedWindow.dfy` are the counters and buckets, proved
  against numeric bounds.
- `NestedPaths.dfy`, `NestedDicts.dfy` and `FieldMapping.dfy` are the field mapper: paths and trees as
  values, the dictionaries updated in place, and the mapping rules.
- `LruCache.dfy`, `MiddlewareOrder.dfy`, `SourceRegistry.dfy`, `ApiVersions.dfy` (keys and URLs) and
  `VersionRegistries.dfy` are the other components. `Common.dfy` holds shared definitions.

Clocks, results of wrapped functions, migrations and transformation functions are parameters. Clocks
are real numbers where the source reads a float, and integers (whole seconds or arbitrarily fine
ticks) where it uses whole counts; they do not run backwards. Limits, windows, periods and cache
sizes are at least 1, as the source assumes. Keys made of a client and a window number are modelled
as pairs. A limiter check is one step, except in the protocols on shared stores. The storage of stored
counters and timestamps appears once per algorithm, with the keys that the algorithm uses.

Where the source's comments and its code differ, the model follows the code:

- `extract_from_url` says it normalizes to the short format, but neither `v1.0` nor `v01` becomes the
  key `v1`; `SpelledIsKeyIff` says exactly when a spelled version is a key. Digits of
  other scripts, which the pattern takes as well, are a set that the model leaves open.
- The second token bucket stores its refill time in whole seconds and reads a fractional clock, so it
  exceeds its rate without bound unless the limit divides the window; `KeepsRateIff` says so exactly.
- Registering a middleware instance twice enters it twice in the main list and once in each phase
  list; `RegisterKeepsPhasesIff` says exactly when the lists stay in step.
- The sorted set is meant to hold one member per request, but a member is named by its clock reading and its
  client, so checks of a client at one reading count as one; `AdmissionsBoundedIff` says what follows.
- `check_rate_limit` reports the strategy's `retry_after` with a denial, but blocks the client for
  `block_duration`; `NextAllowedIff` and `NextPassesIff` say which checks are let in next.
- `rate_limiter.py` imports a `cache_manager` that `cache.py` does not define, so the shared cache is
  assumed to return what was last written until its TTL has passed.

## Model

| member | source | states |
|---|---|---|
| Container.ResolvesIffAcyclicAndRegistered | app/core/container.py:125-220 | when every annotated parameter is required (and un-annotated ones, such as `*args`, have a default), `resolve` from outside succeeds if and only if every dependency path from the type, stopping at instances and at what was cached when the call began, is registered and repeats no type, although the caches grow during the recursion |
| Container.ResolveAgrees | app/core/container.py:125-182 | for every live resolution stack and whatever has been cached meanwhile, the outcome (object, not found, circular, bad call) is the verdict of the walk with frozen caches; what is newly cached is sound on its own; an error names a type that is really unregistered or a stack that really closes a cycle |
| Container.ArgumentsAgree | app/core/container.py:184-220 | the same for the parameter loop; moreover no default shadows a dependency that can be resolved |
| Container.ResolveFromOutside | app/core/container.py:125-182 | a top-level resolve reaches the frozen verdict, only adds to the caches, caches nothing for the type that failed, and every type it leaves cached can be resolved on its own |
| Container.FineIffAcyclicAndRegistered | app/core/container.py:125-220 | on such a binding graph the walk succeeds exactly when all dependency paths are registered and simple |
| Container.CacheHidesNothing | app/core/container.py:145-158 | a service that can be resolved on its own can be resolved below any live stack that asks for it, so a copy cached during the walk never hides a cycle |
| Container.LeadsIsPath | app/core/container.py:125-136 | the chain reported with a circular dependency is a path of the dependency graph |
| Container.ResolveGrows | app/core/container.py:138-166 | a resolve, failed or not, only adds to the singleton and scoped maps and caches nothing that is under construction; a failed one nothing for the failed type |
| Container.ResolveConsistent | app/core/container.py:138-220 | every cached or returned object belongs to its type, and every construction received, for each parameter, an object of the type the parameter asks for, leaving out only parameters with a default |
| Container.ArgumentsFill | app/core/container.py:196-220 | after a successful parameter loop every parameter that is annotated or has a default is filled with an object of the right type or left to its default |
| Container.RunConsistent | app/core/container.py:71-224 | over any run of registrations, resolves and scope clearings without re-registration the wiring invariant is kept, each cache holds only types of its lifetime, the scope only what was made since it was last cleared, and no singleton or binding is lost |
| Container.ConstructedAtMostOnce | app/core/container.py:145-152 | over such a run no singleton type is ever constructed twice |
| Container.EveryResolveReturnsIt | app/core/container.py:145-152 | once a resolve has returned a singleton, every later resolve returns the same object and constructs nothing |
| Container.ResolveHandsOut | app/core/container.py:138-182 | what a resolve hands out: a singleton or scoped object from its cache with nothing constructed, if it is there, and otherwise one made anew, which is cached from then on; a transient made anew every time |
| Container.TransientsDiffer | app/core/container.py:164-166 | over any run two resolves of a transient never hand out the same object |
| Container.ScopedUntilCleared | app/core/container.py:154-162 | over any run two resolves of a scoped type hand out the same object if and only if the scope was not cleared in between |
| Container.InstanceResolves | app/core/container.py:114-123 | a registered instance is what a resolve hands out, even of a type that was bound or cached before |
| Container.UnmetFails | app/core/container.py:184-220 | a parameter without annotation and default, or with an unregistered dependency and no default, makes the resolve fail; for a factory a default does not help |
| Container.DefaultsCoverMissing | app/core/container.py:196-218 | a class whose dependencies all have defaults never fails for a missing one |
| Container.MissingBeforeCall | app/core/container.py:184-220 | a missing dependency is reported before the call is attempted, and nothing is constructed |
| Container.DIContainer.ResolveService | app/core/container.py:125-136 | outcome and caches are those of the specification, and the resolution stack ends exactly as it began, normally or not; terminates because registered types not on the stack decrease |
| Container.DIContainer.ResolveInternal | app/core/container.py:138-166 | the three lifetimes: what is looked up, what is created, and that only a success is cached |
| Container.DIContainer.CreateInstance | app/core/container.py:168-182 | instances are handed out, classes and factories called with the resolved arguments; the stack is left as found |
| Container.DIContainer.Arguments | app/core/container.py:184-220 | the loop over the parameters of a class (`tolerant`) or factory gives the specified arguments or error |
| Container.DIContainer.RegisterProvider | app/core/container.py:71-112 | the binding is replaced and nothing else changes |
| Container.DIContainer.RegisterReady | app/core/container.py:114-123 | the instance is bound and cached as a singleton |
| Container.DIContainer.ClearScope | app/core/container.py:222-225 | the scoped objects are dropped and the singletons kept |
| MigrationPaths.FindMigrationPath | app/core/api_integration/versioning.py:479-501 | the search ends; a path it returns starts at the source, ends at the target, uses registered migrations only, repeats no version and is shortest, and of all shortest ones it is the one that takes, where they part, the migration registered earlier; it returns none exactly when the target cannot be reached |
| MigrationPaths.SearchStep | app/core/api_integration/versioning.py:489-500 | one turn of the search: either the first of the shortest routes to the target, or the breadth-first invariant and the order of the queue again with more seen or less waiting |
| MigrationPaths.FirstMetFirst | app/core/api_integration/versioning.py:489-500 | a version met for the first time is met by the first of its shortest routes |
| MigrationPaths.FirstIsUnique | app/core/api_integration/versioning.py:479-501 | so the path returned is determined |
| MigrationPaths.ClosedHoldsAll | app/core/api_integration/versioning.py:479-501 | a set of versions that holds the source and is closed under migrations holds everything reachable |
| MigrationPaths.NextLevel | app/core/api_integration/versioning.py:489-500 | when no route of the current length is waiting any more, everything reachable by routes one longer has been seen |
| MigrationPaths.ShortestIsSimple | app/core/api_integration/versioning.py:479-501 | a shortest route repeats no version |
| MigrationPaths.VersionManager.MigrateRequest | app/core/api_integration/versioning.py:409-442 | the request is unchanged if source and target agree or the target is unreachable; otherwise there is one request for each version of the first shortest route, from the given one to the result, each made from the one before by the migration registered for that hop and labelled with the version it leads to |
| MigrationPaths.VersionManager.RegisterMigration | app/core/api_integration/versioning.py:380-407 | refused exactly when one of the versions is unregistered; otherwise exactly this pair's migration is set or replaced, a new target going last and a known one keeping its place |
| MigrationPaths.VersionManager.RegisterVersion | app/core/api_integration/versioning.py:175-210 | adds the version unless known, supported only if active, and leaves every registered migration as it is |
| MigrationPaths.VersionManager.SourceVersion | app/core/api_integration/versioning.py:260-290 | the first supported one of what the request, its path, its header and its query parameter name, and the default exactly if none is supported |
| SharedCounters.LongTtlsSuffice | app/core/rate_limit.py:55-78 | for any number of servers and any interleaving of clock readings and pipelines, each pipeline less than 60 s after its reading, no counter that a pipeline increments has expired since it was set |
| SharedCounters.PassesExactlyByRank | app/core/rate_limit.py:72-105 | in every such run a request is denied by its minute exactly when its own client has had per-minute-limit requests in that minute before it, passed or denied, and otherwise by its hour exactly when it has had per-hour-limit ones; the reported wait ends with the slot |
| SharedCounters.SlotLimitHolds | app/core/rate_limit.py:72-105 | so all servers together let at most the limit of one client's requests through in a minute or an hour |
| SharedCounters.CountIsRequests | app/core/rate_limit.py:62-63 | a key counts exactly the requests of its client in its slot |
| SharedCounters.ServedAsRead | app/core/rate_limit.py:55-78 | every request counts under its own client and its own clock reading, whatever runs between reading and pipeline |
| SharedCounters.ReadAsSent | app/core/rate_limit.py:55-57 | and these are the client and the time of the reading |
| SharedCounters.RunKeepsInvariant | app/core/rate_limit.py:55-105 | every step keeps: each counter equals the number of requests served under its key and lives to the last moment at which a request of its slot can still run |
| SharedCounters.PipelineCounts | app/core/rate_limit.py:67-78 | one pipeline finds the counters it touches alive and moves exactly them up by one |
| SharedCounters.TtlsJustEnough | app/core/rate_limit.py:72-76 | no run loses a counter if and only if the TTLs are at least 120 s and 3660 s: with any shorter one some run of two requests does |
| SharedCounters.MinuteRetryIsFirst | app/core/rate_limit.py:82-105 | in every run a client denied by its minute that waits the reported time, with no other request under its next minute key, has rank 1 there |
| SharedCounters.HourRetryPasses | app/core/rate_limit.py:82-105 | and one denied by its hour passes |
| SharedCounters.Redis.Dispatch | app/core/rate_limit.py:50-105 | one request's commands leave the store and give the response the specification says |
| SortedSetRace.OverrunIsBounded | app/core/rate_limiter.py:149-184 | with at most c checks in flight, however trimming, counting and adding interleave, the sorted set never holds more than requests + c - 1 members |
| SortedSetRace.OverrunHappens | app/core/rate_limiter.py:149-184 | the bound on the set is exact: for every limit and every c some run reaches it |
| SortedSetRace.AdmissionsBounded | app/core/rate_limiter.py:149-184 | of the checks with readings in one window, wherever it begins, at most requests + 2 * (c - 1) are let in if the key does not expire, and if it does at most requests + 3 * c - 1, or 2 * c with a limit of 1; unless the limit is 1, no check may begin with the reading of one in flight or of a member |
| SortedSetRace.AdmissionsHappen | app/core/rate_limiter.py:149-184 | both bounds are exact for every limit and every c, the one for a limit above 1 and keys that expire when the window is longer than the second by which a key outlives it |
| SortedSetRace.AdmissionsBoundedIff | app/core/rate_limiter.py:175-177 | how many checks of a window are let in is bounded at all if and only if the limit is 1 or no check begins with the reading of one it meets: checks with one reading add one and the same member |
| SortedSetRace.StepInvariant | app/core/rate_limiter.py:155-184 | every command keeps, for every window: while the clock is in it each check let in is a member or promised, except those lost with a key that was last renewed before it; afterwards only checks still in flight can be let in |
| SortedSetRace.StepBounded | app/core/rate_limiter.py:155-184 | every command keeps: members plus checks that have been let in but not added stay within requests + c - 1 |
| AdmissionLog.AnyWindowWithinLimit | app/core/rate_limiter.py:189-214 | if every admission found fewer than N in its trailing window of the full log, no window of that length anywhere holds more than N |
| AdmissionLog.PermittedOnceOldestLeaves | app/core/api_integration/rate_limiting.py:362-375 | with no other admission in between, a denied client is permitted if and only if the oldest admission of its window has left it, at that very instant exactly when the window is half open |
| BlockingLimiter.CheckWindowKeeps | app/core/rate_limiter.py:189-214 | the deque admits exactly when the full log has fewer than `requests` entries in the trailing window, and is left holding exactly the recent part of the log |
| BlockingLimiter.CheckExplained | app/core/rate_limiter.py:306-340 | a check inside a block changes nothing, neither the block nor the deque; outside a block the full log decides |
| BlockingLimiter.CheckReports | app/core/rate_limiter.py:306-340 | `remaining` is the limit less what the window then holds; exactly a denial begins a block, whose end is told |
| BlockingLimiter.BoundedAndNeverStarved | app/core/rate_limiter.py:189-214 | over any run with blocking no window holds more than `requests` admissions, and since its last admission a client has been denied by the window at most floor(window / block_duration) + 1 times |
| BlockingLimiter.NextDenialSpaced | app/core/rate_limiter.py:306-340 | successive window denials without an admission in between are a block apart and within one window of the first |
| BlockingLimiter.NextAllowedIff | app/core/rate_limiter.py:306-340 | after a denial the client's next check is let in if and only if it comes when the block has ended and more than the reported retry_after has passed; the reported time alone does not do |
| BlockingLimiter.SilenceIsRewarded | app/core/rate_limiter.py:189-214 | a client with no admission for longer than a window is admitted by its next check outside a block |
| BlockingLimiter.RateLimiter.CheckSlidingWindow | app/core/rate_limiter.py:186-214 | the popleft loop and the append do what the specification says, for this client only |
| BlockingLimiter.RateLimiter.CheckRateLimit | app/core/rate_limiter.py:306-340 | the blocking table and the strategy together, for this client only |
| LogLimiters.CheckMemoryKeeps | app/core/api_integration/rate_limiting.py:343-389 | the log algorithm admits exactly when the full log has fewer than the limit in the window, and `remaining` is the limit less what the window then holds |
| LogLimiters.LogAlgorithmBound | app/core/api_integration/rate_limiting.py:343-389 | over any run no window anywhere holds more admissions than the limit |
| LogLimiters.RetryAfterSuffices | app/core/api_integration/rate_limiting.py:362-375 | a denied client that waits the reported seconds, or longer, with no other admission on its key is admitted |
| LogLimiters.RetryAfterIsTight | app/core/api_integration/rate_limiting.py:362-375 | and the reported wait ends within a second after the oldest admission has left the window |
| LogLimiters.RedisAnswersAlike | app/core/api_integration/rate_limiting.py:202-221 | on Redis's list, pushed at the head and reversed by each cleanup, a check gives the same answer and retry time as on the memory list |
| LogLimiters.RedisRunsAlike | app/core/api_integration/rate_limiting.py:202-221 | so over any run both stores give the same answers |
| LogLimiters.DispatchKeeps | app/core/middleware.py:293-350 | one list serves both windows: a request passes exactly when the full log permits it in the last 60 seconds and in the last 3600, and `remaining` is the minute limit less what the minute then holds |
| LogLimiters.BothWindowsBounded | app/core/middleware.py:293-350 | over any run no minute holds more than the minute limit and at the same time no hour more than the hour limit |
| LogLimiters.MemoryTimestamps.CheckLimit | app/core/api_integration/rate_limiting.py:343-389 | the check on the stored lists, for this key only |
| LogLimiters.MemoryTimestamps.CleanupExpired | app/core/api_integration/rate_limiting.py:172-175 | keeps exactly the recent entries of this key |
| LogLimiters.MemoryTimestamps.AddTimestamp | app/core/api_integration/rate_limiting.py:161-170 | appends and cleans this key only |
| LogLimiters.RateLimitMiddleware.DispatchRequest | app/core/middleware.py:275-350 | the filtering and appending on one client's history |
| TokenBuckets.IntervalBound | app/core/rate_limiter.py:216-255 | a bucket that never overflows and gains at most its rate admits at most capacity + (e - s) * requests / window in any interval |
| TokenBuckets.CachedBucketBound | app/core/rate_limiter.py:216-255 | over any interval of any run at most max_tokens + (e - s) * requests / window requests are admitted, including when the cached bucket expires and is created anew |
| TokenBuckets.CheckBucketFed | app/core/rate_limiter.py:216-255 | one check leaves and spends no more than was there and has accrued, also across an expiry |
| TokenBuckets.CheckBucketExact | app/core/rate_limiter.py:216-255 | on a live entry one check leaves and takes exactly what was there and has accrued, cut off at the burst (or the limit, without a burst), and is admitted exactly if that is a whole token |
| TokenBuckets.WholeTokensAdmit | app/core/rate_limiter.py:216-255 | of any number of checks at one instant a bucket with n whole tokens admits exactly the first n |
| TokenBuckets.NewBucketAdmits | app/core/rate_limiter.py:216-255 | and a new one the limit, or the burst if that is smaller |
| TokenBuckets.ExpiredIsNone | app/core/rate_limiter.py:216-227 | an expired entry counts no more than none |
| TokenBuckets.RetryAfterSuffices | app/core/rate_limiter.py:229-255 | the bucket itself lets a denied client in that waits the reported time |
| TokenBuckets.NextPassesIff | app/core/rate_limiter.py:306-340 | but behind `check_rate_limit` it is let in after the reported time if and only if its block has ended too |
| TokenBuckets.ClientExplained | app/core/rate_limiter.py:306-340 | inside a block nothing happens; outside the bucket decides, and exactly a denial begins a block |
| TokenBuckets.StoredBucketBound | app/core/api_integration/rate_limiting.py:238-290 | on a fractional clock, when the limit divides the window, any interval of any run admits at most max_tokens + (e - s + 1) * limit / window requests, one second more than the rate allows because the refill time is stored in whole seconds |
| TokenBuckets.CheckStoredCounts | app/core/api_integration/rate_limiting.py:238-290 | one check on the stored entries leaves and takes exactly what was there, unless expired, and the whole tokens earned, cut off at the burst or the limit |
| TokenBuckets.KeepsRateIff | app/core/api_integration/rate_limiting.py:238-290 | the bucket keeps its rate up to some constant, over all runs, if and only if the limit divides the window |
| TokenBuckets.TickRun | app/core/api_integration/rate_limiting.py:238-290 | the run that shows it: checks `window // limit` whole seconds apart, at the right offset in the second, are all admitted but the first |
| TokenBuckets.StarvesIff | app/core/api_integration/rate_limiting.py:241-276 | a client is never admitted in a whole run if and only if each gap between its checks is worth less than a token, counted from the whole second before, or is longer than two windows, or begins in second 0 |
| TokenBuckets.TokenBucketLimiter.CheckTokenBucket | app/core/rate_limiter.py:216-255 | the check on the cached bucket, for this client only |
| TokenBuckets.TokenBucketLimiter.CheckRateLimit | app/core/rate_limiter.py:306-340 | the blocking table and the bucket together, for this client only |
| TokenBuckets.CounterStorage.CheckLimit | app/core/api_integration/rate_limiting.py:238-290 | the check on the stored token and refill-time counters, for this key only |
| WeightedWindow.RunBounds | app/core/api_integration/rate_limiting.py:293-340 | over any run every aligned window admits at most the limit, and any trailing window ending at offset x at most limit + ceil(P * x / W), P being the previous window's count |
| WeightedWindow.NoCounterDropped | app/core/api_integration/rate_limiting.py:125-148 | after any run, whenever the next check comes, both counters it reads are those of the complete log and neither is dropped: a TTL of 2W never loses a counter that is still read |
| WeightedWindow.CheckExplained | app/core/api_integration/rate_limiting.py:293-340 | the stored counters decide as the counts of the full log would, and stay them; `remaining` is the limit less the estimate, less one |
| WeightedWindow.ShareLeftOut | app/core/api_integration/rate_limiting.py:311-313 | the share of the previous window is its count less the elapsed part of it, rounded up |
| WeightedWindow.TrailingBound | app/core/api_integration/rate_limiting.py:305-317 | the trailing bound for every log of admissions |
| WeightedWindow.AlignedLimit | app/core/api_integration/rate_limiting.py:305-317 | the aligned bound for every log of admissions |
| WeightedWindow.RetryAfterSuffices | app/core/api_integration/rate_limiting.py:317-328 | a denied client that waits the reported seconds, or longer, with no other admission on its key is admitted |
| WeightedWindow.BoundaryNeedsTheSecond | app/core/api_integration/rate_limiting.py:317-328 | without the added second it would not do: at the start of the next window a request is permitted exactly when the window before was not full |
| WeightedWindow.QuotaOverRuns | app/core/api_integration/rate_limiting.py:421-466 | over any run no period admits more than the quota, a check is refused exactly in a period that has used all of it, and waiting the reported seconds suffices if and only if they were not rounded |
| WeightedWindow.CounterStorage.CheckLimit | app/core/api_integration/rate_limiting.py:293-340 | the check on the stored counters, for this client only |
| WeightedWindow.CounterStorage.CheckQuotaOf | app/core/api_integration/rate_limiting.py:421-466 | the quota check on the stored counters, with its retry time, for this client only |
| WeightedWindow.CounterStorage.DoIncrement | app/core/api_integration/rate_limiting.py:136-148 | a live counter keeps its TTL, an expired or missing one starts over |
| FixedWindow.EachStoreWithinLimit | app/core/rate_limiter.py:89-147 | over any run, however the cache comes and goes, cache and memory each admit at most the limit in an aligned window and at most twice the limit in any trailing window |
| FixedWindow.BurstAcrossTheBoundary | app/core/rate_limiter.py:89-118 | the factor two is reached for every limit |
| FixedWindow.CacheKept | app/core/rate_limiter.py:95-118 | the cached counter decides as the count of the full log would |
| FixedWindow.MemoryKept | app/core/rate_limiter.py:120-147 | and so does the counter in memory |
| FixedWindow.FixedWindowLimiter.CheckFixedWindow | app/core/rate_limiter.py:89-147 | the check on the two stores, for this client only |
| FixedWindowRace.OverrunIsBounded | app/core/rate_limiter.py:95-110 | with at most c checks of one counter between reading and writing it, however these interleave, and no check so late that the counter has expired, the cached fixed window lets in at most (requests + c choose c) - 1 checks |
| FixedWindowRace.OverrunHappens | app/core/rate_limiter.py:95-110 | the bound is exact: for every limit and every c some run reaches it |
| FixedWindowRace.LateOverrunIsBounded | app/core/rate_limiter.py:95-110 | and when checks may be so late that the counter has expired, at most c more |
| FixedWindowRace.LateOverrunHappens | app/core/rate_limiter.py:95-110 | this bound is exact too |
| FixedWindowRace.SetBounded | app/core/rate_limiter.py:107-110 | writing back a count, however old, keeps: in whatever order the flights are used, what was let in and what they are still worth stays within the bound |
| FixedWindowRace.WorthIsChoose | app/core/rate_limiter.py:95-110 | what c free checks can get out of a counter m below its limit is (m + c choose c) - 1 |
| LruCache.RunIncluded | app/core/cache.py:35-75 | inclusion: over any trace of get, set, delete and clear with expiry, everything in the cache of size m is in the cache of size m' >= m with the same value and timestamp, and the small order is the large one restricted to the small keys |
| LruCache.LargerHitsWheneverSmallerDoes | app/core/cache.py:41-52 | so a larger cache hits, with the same value, whenever a smaller one does |
| LruCache.StepIncluded | app/core/cache.py:41-75 | every operation keeps inclusion and that a full large cache means a full small one |
| LruCache.RunAgrees | app/core/cache.py:41-75 | over any trace the ordered map and the timestamps have the same keys, each once, and at most max_size of them |
| LruCache.OrderIsUseOrder | app/core/cache.py:41-63 | over any trace the order is exactly the order of last successful use |
| LruCache.EvictsLeastRecentlyUsed | app/core/cache.py:54-63 | a new key in a full cache drops exactly the least recently used key, and no other set drops any |
| LruCache.ValueStays | app/core/cache.py:41-63 | a value stays, with its timestamp, until as many other keys have been used since as fit in the cache |
| LruCache.HitIffYoung | app/core/cache.py:35-52 | and until then a lookup returns it if and only if it is no older than ttl |
| LruCache.RunWritten | app/core/cache.py:54-75 | every entry's value and timestamp come from the last operation that wrote its key |
| LruCache.CachedValueIsFresh | app/core/cache.py:107-159 | with injective keys a value `cached` returns was produced for these arguments at most ttl earlier, and neither produced anew nor invalidated since, for interleaved calls too |
| LruCache.FreshIffInjective | app/core/cache.py:97-159 | this holds of all runs if and only if the keys are injective |
| LruCache.LRUCache.Get | app/core/cache.py:41-52 | a hit uses the key, an expired entry is deleted, a missing one changes nothing |
| LruCache.LRUCache.Set | app/core/cache.py:54-63 | evicts, stores and stamps as specified |
| LruCache.LRUCache.Delete | app/core/cache.py:65-70 | removes the key from both dictionaries |
| LruCache.LRUCache.Cached | app/core/cache.py:117-152 | the wrapped function is called exactly when no fresh value other than None is found, and then its result is stored |
| FieldMapping.TransformYieldsTree | app/core/api_integration/transformers.py:99-134 | when target paths are pairwise prefix-incomparable the mapper raises exactly when some required rule fails, and otherwise yields exactly the tree of the rules' values, with nothing else in it |
| NestedPaths.TreeIsUnique | app/core/api_integration/transformers.py:99-134 | only one dictionary holds a given set of writes and nothing else |
| NestedPaths.TreeHoldsNoMore | app/core/api_integration/transformers.py:136-159 | and it reads None wherever nothing was written |
| FieldMapping.TargetsHold | app/core/api_integration/transformers.py:99-134 | each target path reads what the rule's function makes of the value at the source path, or of the default where nothing stands there, and that value itself if there is no function; None where the outcome is None or an optional rule's function raises |
| FieldMapping.RaisesIff | app/core/api_integration/transformers.py:112-134 | the mapper raises exactly when some required rule finds nothing at its source path or has a function that raises on what it finds |
| FieldMapping.OrderDoesNotMatter | app/core/api_integration/transformers.py:112-134 | any permutation of the mappings raises too or yields the same dictionary |
| FieldMapping.OverlapOrderIff | app/core/api_integration/transformers.py:112-159 | when one target path is a proper prefix of another, the order of two rules does not matter if and only if the second value already stands below the first, or something there that is not a dictionary is in its way and the second rule is not required |
| FieldMapping.SameTargetOrderIff | app/core/api_integration/transformers.py:112-159 | with one target path for both, if and only if their values are equal |
| NestedPaths.SetChangesNothingIff | app/core/api_integration/transformers.py:136-159 | setting a value changes nothing if and only if reading the path gives it already |
| NestedPaths.SetBelowSet | app/core/api_integration/transformers.py:149-159 | setting below what was just set changes that value, or raises if it cannot hold one |
| NestedPaths.SetAboveSet | app/core/api_integration/transformers.py:149-159 | setting above what was just set leaves nothing of it |
| NestedPaths.GetAfterSet | app/core/api_integration/transformers.py:136-159 | reading at or below the path that was set gives what was stored there, at any depth |
| NestedPaths.GetElsewhere | app/core/api_integration/transformers.py:136-159 | a path incomparable with the one that was set reads as before |
| NestedPaths.SetRaisesIffBlocked | app/core/api_integration/transformers.py:149-159 | setting raises exactly when something on the way is there and is not a dictionary |
| NestedPaths.SetExtendsTree | app/core/api_integration/transformers.py:149-159 | a write outside the earlier ones succeeds and adds exactly itself |
| NestedPaths.SplitRoundTrip | app/core/api_integration/transformers.py:138-151 | splitting a path at its dots loses nothing |
| FieldMapping.FieldMapper.Transform | app/core/api_integration/transformers.py:99-134 | the loop over the mappings, with its exceptions, fills a new dictionary in place with the specified result |
| NestedDicts.NestedDict.SetNestedValue | app/core/api_integration/transformers.py:149-159 | the write in place, making dictionaries on the way: the result's value is that of the path write, or unchanged when it raises, and the dictionaries stay a tree without sharing |
| FieldMapping.FieldMapper.GetNestedValue | app/core/api_integration/transformers.py:136-147 | the walk returns the value at the path, None when there is none |
| FieldMapping.FieldMapper.AddMapping | app/core/api_integration/transformers.py:68-93 | a known source path keeps its place and gets the new rule, a new one goes last |
| MiddlewareOrder.MainListIsStableSort | app/core/api_integration/middleware.py:510-574 | after any run of register and unregister the main list is the registered instances stably sorted by order |
| MiddlewareOrder.StableSortUnique | app/core/api_integration/middleware.py:526-537 | which determines the list |
| MiddlewareOrder.StepMembers | app/core/api_integration/middleware.py:510-574 | an enabled instance joins the list, a disabled one changes nothing, and all instances of an unregistered name leave |
| MiddlewareOrder.PhaseListsFollowMainList | app/core/api_integration/middleware.py:510-574 | after any run that registers each instance once, each phase list is the main list filtered to the phase, so every phase executes in global order |
| MiddlewareOrder.RegisterKeepsPhasesIff | app/core/api_integration/middleware.py:510-553 | a registration keeps the phase lists in step if and only if the instance is disabled, has no phase, or is not registered yet |
| MiddlewareOrder.UnregisterKeepsPhases | app/core/api_integration/middleware.py:559-574 | removal by name keeps them in step |
| MiddlewareOrder.InsertFilter | app/core/api_integration/middleware.py:526-553 | ordered insertion commutes with filtering on sorted lists |
| MiddlewareOrder.EnterOnce | app/core/api_integration/middleware.py:539-553 | a phase named twice gets the instance once |
| MiddlewareOrder.MiddlewareManager.RegisterMiddleware | app/core/api_integration/middleware.py:510-557 | the loops over the main list and the phases; a disabled instance is refused |
| MiddlewareOrder.MiddlewareManager.UnregisterMiddleware | app/core/api_integration/middleware.py:559-574 | all lists lose exactly the instances of that name |
| SourceRegistry.RunExact | app/core/data_sources/registry.py:152-365 | after any run of register, unregister and status updates every type, category and provider index is exactly what a scan of the main table gives |
| SourceRegistry.ListIsScan | app/core/data_sources/registry.py:296-333 | the indexed listing holds exactly the sources of the kind, category, provider and status asked for, an empty string being no filter |
| SourceRegistry.TableAfter | app/core/data_sources/registry.py:152-365 | after any run, one more operation changes exactly this: an accepted registration adds its source as registered, an unregistration takes its source away, an update changes the status of its source |
| SourceRegistry.UnregisterUndoesRegister | app/core/data_sources/registry.py:152-282 | unregistering a just registered source restores the table and the answer to every query |
| SourceRegistry.TypeCountsSum | app/core/data_sources/registry.py:379-400 | the counts by type add up to the number of sources |
| SourceRegistry.CategoryCountsSum | app/core/data_sources/registry.py:379-400 | the counts by category add up to the number of sources that have one |
| SourceRegistry.StatusCountsSum | app/core/data_sources/registry.py:393-398 | the counts by status add up to the number of sources |
| SourceRegistry.DataSourceRegistry.RegisterDataSource | app/core/data_sources/registry.py:152-200 | refused exactly for a known name or an empty name, display name or version; otherwise table and indexes are updated together |
| SourceRegistry.DataSourceRegistry.UnregisterDataSource | app/core/data_sources/registry.py:244-282 | table and indexes lose the source together |
| SourceRegistry.DataSourceRegistry.UpdateDataSourceStatus | app/core/data_sources/registry.py:350-365 | only the status of a known source changes |
| SourceRegistry.DataSourceRegistry.ListDataSources | app/core/data_sources/registry.py:296-333 | returns exactly the matching sources, each once, in the order of their names |
| SourceRegistry.UpToMeans | app/core/data_sources/registry.py:333 | the order of the listing: where two names first differ the smaller character decides |
| SourceRegistry.DataSourceRegistry.CountByStatus | app/core/data_sources/registry.py:393-398 | the loop counts the sources of every status that occurs |
| ApiVersions.UrlGivesKey | app/shared/versioning.py:249-262 | `extract_from_url` on `/api/` + key + rest gives that key |
| ApiVersions.ShortVersionInjective | app/shared/versioning.py:69-76 | versions with the same short version are the same |
| ApiVersions.KeyRoundTrip | app/shared/versioning.py:69-76 | reading a printed key gives the version back, whatever follows |
| ApiVersions.KeyPrints | app/shared/versioning.py:69-76 | a key names major, minor and patch in this order, in decimal, as many as it needs |
| ApiVersions.SpelledIsKeyIff | app/shared/versioning.py:249-262 | for one to three strings of digits of any script, leading zeros allowed, what is extracted is the key of some version if and only if all digits are ASCII, no part has a superfluous leading zero, no last part but the first is 0, and the first is not 0 |
| ApiVersions.UrlGivesSpelling | app/shared/versioning.py:249-262 | a spelled version is extracted as it stands |
| ApiVersions.ExtractsLeftmostLongest | app/shared/versioning.py:245-262 | nothing is extracted exactly when no spelled version stands behind `/api/v` anywhere; otherwise the longest one behind the leftmost such mark is |
| VersionRegistries.StepValid | app/shared/versioning.py:130-226 | registering and removing keep: default and latest name registered versions whenever there are any |
| VersionRegistries.LatestIsGreatestIff | app/shared/versioning.py:130-226 | throughout a run latest is the greatest version if and only if the latest flag is only passed for a version greater than all others or in a rejected registration |
| VersionRegistries.RegisterKeepsMaxIff | app/shared/versioning.py:130-153 | a registration keeps latest the greatest if and only if it is not flagged latest, is rejected, or is of a version greater than all others |
| VersionRegistries.CompareOrders | app/shared/versioning.py:94-104 | comparison is a total order that identifies equal versions only |
| VersionRegistries.LessMeans | app/shared/versioning.py:94-104 | major before minor, and minor before patch |
| VersionRegistries.VersionRegistry.RegisterVersion | app/shared/versioning.py:130-153 | rejects a known key; otherwise the version becomes default if flagged or the first, and latest if flagged, the first, or greater than the latest |
| VersionRegistries.VersionRegistry.RemoveVersion | app/shared/versioning.py:204-226 | rejects an unknown key; a removed default or latest is replaced by the greatest version left |
| VersionRegistries.VersionRegistry.Greatest | app/shared/versioning.py:215-224 | the maximum of the registered versions |

## Left out

- HTTP requests and responses, headers, logging, metrics, Pydantic validation and FastAPI: only clock, store and decision are modelled, and of an answer only what the caller decides on.
- Redis errors: on an error the middleware lets requests through; the protocols are modelled with Redis up.
- The adaptive strategy (app/core/rate_limiter.py:262-304) builds a new limiter at each call and keeps no history.
- The fixed window as fallback of the other strategies, whose windows are then one second long.
- FixedWindow.EachStoreWithinLimit: the cached counter is read and written in one step; FixedWindowRace takes the two apart, for the checks of one window.
- SortedSetRace.AdmissionsHappen: for a limit above 1, a window of one second and keys that expire, the bound may not be reached.
- The `Retry-After` header of the decorator, which is the reported time cut to whole seconds (app/core/rate_limiter.py:545-546).
- The memory limiters' checks are single steps; concurrent coroutines inside one check are not modelled.
- Rounding of floats: clocks and tokens are exact real numbers, and the weighted share is rounded down exactly.
- The weighted counter, the quota and the second token bucket are modelled on the memory storage; on the Redis storage each increment renews the TTL.
- `migrate_response`, which walks back to the source version, and version compatibility, deprecation and statistics.
- Re-registration of a resolved singleton, `DependencyOverrides`, and factories that call back into the container.
- The Optional branch of the container's parameter loop, which never fires.
- The two parameter loops of the container, for classes and for factories, are one method with a flag.
- NestedDicts.NestedDict.SetNestedValue: the dictionaries that the mapper makes are objects, but a source dictionary stored as a value is copied, so that a later write below it does not show in the source; the walk is a recursion where the source has a loop.
- Values that are not dictionaries are opaque; all of them make a nested write raise.
- `cached` for key generation: keys are a parameter, injective where a lemma says so.
- `get_stats`, block clean-up, suspicious-behaviour detection and whitelists of the rate limiters.
- `_plugin_sources`, `register_from_plugin`, search, and changes of a registered info object from outside.
- Middleware order, phases and the enabled flag are fixed while an instance is registered; running the middleware and its error handling are left out.
- Header, query and content-type extraction, sunset dates and `is_current`.
