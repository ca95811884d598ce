# Verified model of the mamotama reverse proxy's request-path state machines

This project models the lock-protected components of the proxy in Dafny and proves what they keep over
whole runs. Every mutex-protected method is one atomic step; the clock is an argument that, where a
statement needs it, does not go back. Components that update fields in place are classes whose methods
are proved against a specification function of their abstract value; what the component promises is then
proved about that function over sequences of steps.

| file | component |
|---|---|
| `CacheSpec`, `CacheRuns`, `CacheHits`, `CacheCounters`, `ReloadOrder`, `ResponseCache` | the response cache: a map, a recency list, a byte counter and the files of a directory; what a lookup answers after any run, and what the counters count |
| `UpstreamHealth`, `Transport`, `Trials` | backend health, the circuit breaker, in-flight counting, the retrying transport that drives them, and the half-open trials of named requests |
| `ProxyRules`, `RulesText` | applying and rolling back proxy rules: file, blob and transport, with a bounded undo stack; the same for texts of configurations |
| `TargetSelection` | weighted draws by cursor or hash, least-connections order, eligible targets first |
| `RateLimit`, `TokenBucket` | the fixed-window limiter with its lossy sweep and adaptive scaling; the admin token bucket with pruning |
| `PathRewrite`, `Routing`, `CheckedRouting`, `Preparation` | path and host rules, prefix rewriting against percent-encoding; validation and resolution of routes; which configurations are accepted; normalization, and what a second preparation does |
| `CacheRules` | the cache rule printer and parser |
| `TemporalWindow`, `Notifications` | sliding window per client, compacted in its array; windowed alerts with cooldown |
| `Text`, `Wrappers` | the string operations the code leans on; optional values and results |

## What the proofs turned up

In brackets: the lemma at a concrete input, then the one that says exactly when the property holds.

- Loading a cache directory gives a consistent store if and only if no key is named by two metadata
  files; with two, the byte counter counts both while the map holds one
  (`DuplicateKeyOvercounts`; `LoadAgreesIffKeysDistinct`).
- A hit does not rewrite the metadata file, so a reload orders entries by store time, not by last use. It
  must keep the order of use if and only if the files' times rise along it (`ReloadForgetsHit`;
  `ReloadKeepsRecencyIff`).
- Rolling back does not always undo. A prefix `/a /` is stored as `/a `, and rolling back to that text
  installs `/a`; a host `*...` is stored as `*..`, whose text is refused, and its entry blocks the stack
  for good (`SpacedPrefixIsNotRestored`, `DottedHostBlocksRollback`). Rollbacks bring a text back if and
  only if every text on the way still prepares and the last prepares to itself
  (`RollbacksUndoAppliesIff`), that is, if and only if normalization leaves something of every stored
  host and prefix on the way, and all of the last (`RollbacksRestoreIff`).
- The cause: preparing a prepared configuration changes it at these inputs (`SpacedPrefixChangesAgain`,
  `DottedHostFailsAgain`). It goes through if and only if the configuration is restorable, and gives it back
  if and only if it is stable (`PreparesAgainIff`, `PrepareIsIdempotentIff`).
- A failing apply restores the file it found only if that file already held the normalized text
  (`FailedApplyRewritesSpacedPrefix`; `FailuresLeaveStateIff`).
- The half-open counter can pass its limit (`HalfOpenLimitNeedsCoupling`). It stays within if and only if every
  acquire from an open circuit finds it below the limit, which the code checks in the half-open state only
  (`HalfOpenLimitHoldsIff`).
- The counter is not the number of trials in flight either: a body from before the trip gives back a place it
  never took (`RealTrialsCanExceedLimit`). It is that number if and only if every release that finds it
  above zero is a trial's own (`CounterIsTrialsIff`), and the real trials stay within the limit if and only if
  every acquire outside the closed state finds fewer of them (`TrialsWithinLimitIff`).
- With passive health on and no active probe configured, a backend whose circuit has tripped never
  becomes selectable again (`OneFailureIsForever`; `TrippedBackendRecoversIff`).
- Status codes count against an upstream by the retry codes; the configured passive-unhealthy codes are
  not looked at, so an answer with one of them may even clear the failures (`UnhealthyStatusSucceeds`;
  `UnhealthyCodesCountIff`).
- Releasing a target that was never acquired (blocked requests do) makes an exact in-flight count too low, unless
  it finds nothing in flight (`StrayReleaseUndercounts`; `StrayKeepsExactIff`).
- Two upstreams may share a name and URL, and then an update takes the count from the last of them while
  requests are counted on the first: a count can come back that no request holds
  (`SharedKeyOvercounts`). Counts stay within the holders throughout if and only if no update does that
  (`InFlightWithinHoldersIff`). They equal them throughout if and only if every update finds each key it lists
  either new and unheld or with its last upstream counting as its first, and every stray release finds
  nothing (`InFlightIsHoldersIff`).
- The rate-limit sweep changes no decision for a key whose window is up to 600 s, and does for every longer
  window (`SweepShowsBeyondIdle`; `SweepIsInvisible`). So Limit + Burst bounds every window of every run if and only
  if the window is at most 600 s (`PolicyBudgetIff`). Bucket pruning changes no decision, and keeps the rate
  bound, if and only if the burst is at most 600 s of refill (`PruningShows`, `PruningExceeds`;
  `PruningIsInvisibleIff`, `RateBoundIff`).
- Normalizing a path prefix twice differs from once for `//`, and for a space before a trailing slash
  (`UnstablePrefixes`; `NormalizePrefixIsIdempotentIff`).
- Rewriting a prefix and rewriting it back changes an exact match that goes through `/`, and paths under a
  prefix that ends in a space (`ExactMatchGainsSlash`, `SpaceIsLost`; `RoundTripIff`).
- A route with a path rewrite that matches the decoded path but not the raw one makes resolution fail
  (`EscapedPrefixStopsResolution`; `CheckedResolvesIff`).
- A request whose address is missing, or holds a bar, can share a rate-limit counter with another address's
  (`MissingAddressMixes`; `SameKeyIff`, `CountedTogetherIff`). Known addresses without a bar do not mix.
- A rule value with white space, or a vary entry with a comma or space, does not survive the rules file
  (`SpacedValuesAreLost`; `FileRoundTripIff`).
- Window number 0, the first after 1970, means "no window" to the alerts: an observation made there is not closed
  with it but filed under the first later window with an observation (`FirstWindowIsCarriedOver`,
  `FirstWindowRaisesAlert`). Nothing is lost in any run in time order (`NothingIsLost`), but the current count is that of the
  current window at every moment if and only if the accepted observations are all in window 0 or none is
  (`CountsAreTrueIff`), and the status that of the last closed window if and only if the first later window is
  not over or window 0 does not change its class (`StatusIsTrueIff`).

## Model

| member | source | states |
|---|---|---|
| CacheSpec.TrimIsLongestFittingSuffix | coraza/src/internal/handler/response_cache_runtime.go:833-851 | limit enforcement keeps a suffix of the recency order that fits, and the longest such: the evicted prefix is minimal |
| CacheRuns.StepKeeps | coraza/src/internal/handler/response_cache_runtime.go:534-713 | each of Store, Lookup, removeByKey, Clear, Reconfigure and the loss of a body file keeps the whole invariant: limit, unique keys, recency order, files on disk |
| CacheRuns.RunKeepsInvariant | coraza/src/internal/handler/response_cache_runtime.go:534-713 | over every run with a non-decreasing clock the enabled store is within its limit, lists each key once in order of last access, and mirrors the directory |
| CacheRuns.FreshStoreIsConsistent | coraza/src/internal/handler/response_cache_runtime.go:523-532 | a new store, disabled over an empty directory, satisfies that invariant |
| CacheRuns.HitIsLatestStore | coraza/src/internal/handler/response_cache_runtime.go:581-609 | a hit after any run returns what the latest completed Store of that key in the directory in force wrote, with its body, unexpired; after a switch to another directory and back that is the first one's |
| CacheHits.StoredHitsIff | coraza/src/internal/handler/response_cache_runtime.go:630-685 | right after a completed store with lifetime ttl at time s, a lookup hits if and only if it comes before s + ttl, and gives the status, header, size and body passed |
| CacheHits.HitIsLastStoreOperation | coraza/src/internal/handler/response_cache_runtime.go:581-609 | after any run of a store that began empty, or in which the key was stored, a hit gives what was passed to the last completed store of the key in the directory in force, and comes before the end of its lifetime |
| CacheHits.UntouchedHitsIff | coraza/src/internal/handler/response_cache_runtime.go:581-609 | while no operation removes what a completed store wrote (drop, clear, loss of the body, a new store of the key, a store it does not fit beside, a reload elsewhere or into too little room), a lookup at any later time hits if and only if the lifetime is not over, and gives what was passed |
| CacheHits.StoreDrops | coraza/src/internal/handler/response_cache_runtime.go:824-851 | a store that is taken up makes an entry of another key go if that has expired, or it and those used since do not fit beside the new one |
| CacheHits.ForgottenMisses | coraza/src/internal/handler/response_cache_runtime.go:687-713 | after a drop, a clear, the loss of the body, switching off, or a store of the key that fails half way, the key misses |
| CacheHits.ReloadedIff | coraza/src/internal/handler/response_cache_runtime.go:715-763 | after a reload the store knows a key if and only if the directory has it, unexpired and with its body, and it and those stored since fit |
| CacheCounters.CountersAreTallies | coraza/src/internal/handler/response_cache_runtime.go:564-579 | over every run the counters grow by the hits, the misses, the completed stores and the clears there were; entries there at first and entries that came in are, together, those there now, those evicted and those that left otherwise |
| CacheRuns.ReloadYieldsSurvivors | coraza/src/internal/handler/response_cache_runtime.go:715-763 | reloading after any run yields exactly the unexpired entries that still have a body, each key once, with the same byte total |
| CacheRuns.ReconfigureKeeps | coraza/src/internal/handler/response_cache_runtime.go:534-562 | a reload from a directory written by earlier runs re-establishes the invariant |
| ReloadOrder.ReloadKeepsRecencyIff | coraza/src/internal/handler/response_cache_runtime.go:715-763 | after any run a reload can keep the survivors' order of last use if and only if their files' times do not fall along it, and must if and only if they rise |
| ReloadOrder.SortedIsUnique | coraza/src/internal/handler/response_cache_runtime.go:756-756 | at different times the sort leaves one order only |
| ReloadOrder.ReloadForgetsHit | coraza/src/internal/handler/response_cache_runtime.go:603-606 | store a, store b, hit a: b is the least recent, and after a reload a is |
| ResponseCache.AgreesQueue | coraza/src/internal/handler/response_cache_runtime.go:808-822 | map, list and counter in agreement determine one list of entries whose keys and total they are |
| ResponseCache.RemoveAgrees | coraza/src/internal/handler/response_cache_runtime.go:808-822 | removing an entry keeps the three in agreement |
| ResponseCache.TouchAgrees | coraza/src/internal/handler/response_cache_runtime.go:603-606 | moving a hit entry to the back keeps the three in agreement |
| ResponseCache.PushAgrees | coraza/src/internal/handler/response_cache_runtime.go:670-684 | entering a new entry keeps the three in agreement |
| ResponseCache.LoadAgreesIffKeysDistinct | coraza/src/internal/handler/response_cache_runtime.go:715-763 | loading yields an agreeing store if and only if the loaded keys are distinct |
| ResponseCache.DuplicateKeyOvercounts | coraza/src/internal/handler/response_cache_runtime.go:756-762 | two files naming one key: the counter exceeds the sum over the map |
| ResponseCache.SortByAccess | coraza/src/internal/handler/response_cache_runtime.go:756-756 | a permutation sorted by last access |
| ResponseCache.ReadDirectory | coraza/src/internal/handler/response_cache_runtime.go:721-755 | the usable entries of the directory, with unusable metadata and its bodies removed |
| ResponseCache.Index | coraza/src/internal/handler/response_cache_runtime.go:757-762 | the list names every loaded entry, the map keeps the last of each key, the counter sums all |
| ResponseCache.Store.constructor | coraza/src/internal/handler/response_cache_runtime.go:523-532 | an empty consistent store |
| ResponseCache.Store.RemoveEntry | coraza/src/internal/handler/response_cache_runtime.go:808-822 | on a consistent store the abstract list loses exactly that entry and its files; the clamp at zero never fires |
| ResponseCache.Store.EvictExpired | coraza/src/internal/handler/response_cache_runtime.go:824-831 | walking the map in any order removes exactly the expired entries |
| ResponseCache.Store.EnforceLimit | coraza/src/internal/handler/response_cache_runtime.go:833-851 | the loop terminates and leaves the longest recent suffix that fits with the additional bytes |
| ResponseCache.Store.Lookup | coraza/src/internal/handler/response_cache_runtime.go:581-609 | refines the specified lookup: miss, expired, body gone, or hit with the entry moved to the back |
| ResponseCache.Store.Drop | coraza/src/internal/handler/response_cache_runtime.go:707-713 | refines dropping one key |
| ResponseCache.Store.Put | coraza/src/internal/handler/response_cache_runtime.go:630-685 | refines the specified store, with its ignored, oversized, failed-move and failed-metadata outcomes; what lookups then see is CacheHits |
| ResponseCache.Store.Clear | coraza/src/internal/handler/response_cache_runtime.go:687-705 | empties the store and, while enabled, removes its files; reports entries and bytes |
| ResponseCache.Store.Reconfigure | coraza/src/internal/handler/response_cache_runtime.go:534-562 | refines the specified reconfiguration: emptied when disabled, reloaded and trimmed when enabled |
| UpstreamHealth.NewMonitorIsIdle | coraza/src/internal/handler/proxy_runtime.go:1971-2010 | a new monitor describes the configured upstreams, all healthy, idle and with closed circuits |
| UpstreamHealth.Monitor.AcquireTarget | coraza/src/internal/handler/proxy_runtime.go:1516-1541 | says yes exactly for blank or unknown keys and selectable backends, and then steps that backend only |
| UpstreamHealth.GrantsIff | coraza/src/internal/handler/proxy_runtime.go:1516-1541 | the answer is yes if and only if the key is blank, no backend has it, or the first one that has it can be selected |
| UpstreamHealth.Monitor.ReleaseTarget | coraza/src/internal/handler/proxy_runtime.go:1495-1514 | gives back one place of the first backend with the key, never below zero |
| UpstreamHealth.Monitor.RecordPassiveFailure | coraza/src/internal/handler/proxy_runtime.go:1543-1573 | counts a failure of that backend and trips its circuit at the threshold |
| UpstreamHealth.Monitor.RecordPassiveSuccess | coraza/src/internal/handler/proxy_runtime.go:1575-1598 | clears that backend's failures and circuit |
| UpstreamHealth.Monitor.RecordResult | coraza/src/internal/handler/proxy_runtime.go:1651-1680 | a successful probe clears what a passive success clears, a failed one only marks unhealthy |
| UpstreamHealth.RebuildFollowsKeys | coraza/src/internal/handler/proxy_runtime.go:1971-2010 | after an update each upstream is described as configured and has the runtime state of the last previous backend with its key; without one it is new |
| UpstreamHealth.RebuildTwice | coraza/src/internal/handler/proxy_runtime.go:1971-2010 | applying a configuration a second time changes no backend |
| UpstreamHealth.CircuitTracksFailures | coraza/src/internal/handler/proxy_runtime.go:1543-1598 | the failure counter is the failures since the last success, and the circuit is not closed exactly when that has reached the threshold |
| UpstreamHealth.AcquiredIff | coraza/src/internal/handler/proxy_runtime.go:1899-1919 | after any run of a new backend an acquire succeeds if and only if it is enabled, nothing marked it unhealthy since the last success (with probing or passive health), and, once tripped, either the open time since the last failure is over and nothing was tried since, or fewer trials are counted than the limit |
| UpstreamHealth.FailedProbeRefuses | coraza/src/internal/handler/proxy_runtime.go:1915-1917 | with probing, nothing is acquired after a failed probe before a success |
| UpstreamHealth.DisabledIsNeverAcquired | coraza/src/internal/handler/proxy_runtime.go:1899-1903 | a disabled backend is never acquired |
| UpstreamHealth.NoAcquireWhileOpen | coraza/src/internal/handler/proxy_runtime.go:1516-1573 | from the trip at t no acquire succeeds before t plus the open duration unless a success comes between |
| UpstreamHealth.HalfOpenWithinInFlight | coraza/src/internal/handler/proxy_runtime.go:1495-1541 | half-open requests never exceed in-flight ones, in any order of events |
| UpstreamHealth.HalfOpenLimitHoldsIff | coraza/src/internal/handler/proxy_runtime.go:1516-1541 | the half-open counter stays within its limit throughout a run if and only if every acquire that finds the circuit open finds it below the limit |
| UpstreamHealth.HalfOpenLimitHolds | coraza/src/internal/handler/proxy_runtime.go:1892-1919 | in particular it does when every failure is followed at once by its release: below the limit while open, zero while closed |
| UpstreamHealth.HalfOpenLimitNeedsCoupling | coraza/src/internal/handler/proxy_runtime.go:1039-1065 | without that coupling, a run that passes the limit |
| UpstreamHealth.DrainedTrialsAreReal | coraza/src/internal/handler/proxy_runtime.go:1516-1541 | if nothing was in flight when the circuit opened, the counter is the number of requests in flight |
| UpstreamHealth.InFlightIsOutstanding | coraza/src/internal/handler/proxy_runtime.go:1495-1541 | the in-flight count is the number of unreleased acquires |
| UpstreamHealth.TrippedBackendRecoversIff | coraza/src/internal/handler/proxy_runtime.go:1899-1919 | without probes a tripped idle backend is selectable at some time if and only if passive health is off |
| UpstreamHealth.OneFailureIsForever | coraza/src/internal/handler/proxy_runtime.go:1899-1919 | with passive health on and a threshold of one, one failed request makes a backend unselectable at every later time |
| UpstreamHealth.UnprobedBackendStaysRefused | coraza/src/internal/handler/proxy_runtime.go:1899-1919 | with passive health on every later event on it is a refusal |
| Transport.Attempt | coraza/src/internal/handler/proxy_runtime.go:981-1068 | the monitor operations and the send of one attempt, in order, and the answer that ends the request |
| Transport.RoundTrip | coraza/src/internal/handler/proxy_runtime.go:937-1072 | with m = 1 + attempts if attempts are configured and the method is retried, but at most the targets, and else m = 1: positions 0, 1, ... are tried while requests clone, until one is granted and answers with no retry code, or at m - 1 with any; the response is that answer, and an error comes only when all m were tried or a request did not clone |
| Transport.TryTargets | coraza/src/internal/handler/proxy_runtime.go:981-1072 | the loop over the targets: none before the last attempt answered for good, and the error says what the last one failed of |
| Transport.LimitIs | coraza/src/internal/handler/proxy_runtime.go:967-973 | the number of positions there are to try |
| Transport.AttemptIs | coraza/src/internal/handler/proxy_runtime.go:981-1068 | a granted attempt acquires, sends, records a failure for no answer or a retry code and else a success, and releases unless the body of the response it settles on stays open; a refused one does nothing else, an unmonitored one only sends |
| Transport.TrackedBody.Close | coraza/src/internal/handler/proxy_runtime.go:1127-1141 | releases on the first close only |
| Transport.Serve | coraza/src/internal/handler/proxy_runtime.go:937-1141 | a request whose body is closed any positive number of times does what its transcript and one release say, and ends holding nothing |
| Transport.RequestIsDisciplined | coraza/src/internal/handler/proxy_runtime.go:937-1072 | it acquires only when holding nothing, records and releases only what it holds, and ends holding at most the backend of its open body |
| Transport.SendsInOrder | coraza/src/internal/handler/proxy_runtime.go:981-1010 | sends go to increasing positions, to exactly those whose backend did not refuse |
| Transport.SendsWithinBudget | coraza/src/internal/handler/proxy_runtime.go:967-973 | at most min(1 + attempts, targets) sends, one for a method that is not retried |
| Transport.InFlightWithinHoldersIff | coraza/src/internal/handler/proxy_runtime.go:1495-1541 | over every interleaving with probes, stray releases and updates, in-flight is at most the number of holders throughout if and only if no update finds a last backend of a key it lists that counts more than hold it |
| Transport.InFlightNeverExceedsHolders | coraza/src/internal/handler/proxy_runtime.go:1971-2010 | so it never is while no configuration lists a name and URL twice |
| Transport.SharedKeyOvercounts | coraza/src/internal/handler/proxy_runtime.go:1971-2010 | two upstreams of one key, two updates and a release between them: one in flight and no holder |
| Transport.InFlightIsHoldersIff | coraza/src/internal/handler/proxy_runtime.go:1495-1541 | in-flight is exactly the number of holders throughout if and only if every stray release finds nothing in flight, and every update finds each key it lists either new and unheld or with its last backend counting as its first |
| Transport.InFlightIsHolders | coraza/src/internal/handler/proxy_runtime.go:1495-1541 | so it is without stray releases and updates |
| Transport.RunIffDisciplined | coraza/src/internal/handler/proxy_runtime.go:937-1072 | from an idle system the runs are exactly the mixes of disciplined requests in which every grant and refusal is the monitor's |
| Transport.TransportedIsRun | coraza/src/internal/handler/proxy_runtime.go:937-1141 | round trips and the closing of their bodies, interleaved in any way and answered by the monitor, are such a run |
| Transport.TransportCounts | coraza/src/internal/handler/proxy_runtime.go:937-1141 | with them, both counts hold throughout exactly under those conditions |
| Transport.StrayKeepsExactIff | coraza/src/internal/handler/proxy.go:370-380 | a stray release keeps the counts exact if and only if it finds no tracked backend or nothing in flight |
| Transport.StrayReleaseUndercounts | coraza/src/internal/handler/proxy.go:370-380 | one holder, one stray release, and the count is zero |
| Transport.BuildPolicy | coraza/src/internal/handler/proxy_selection.go:165-194 | the policy has the configured status codes and methods, or the defaults |
| Transport.AnswerRecords | coraza/src/internal/handler/proxy_runtime.go:1012-1057 | an attempt that got an answer records a failure exactly for the retry codes, whatever else is configured |
| Transport.UnhealthyCodesCountIff | coraza/src/internal/handler/proxy_selection.go:165-194 | the codes configured as unhealthy are the ones that count if and only if they are the retry codes |
| Transport.UnhealthyStatusSucceeds | coraza/src/internal/handler/proxy_selection.go:165-194 | status 500, configured as unhealthy, is recorded as a success |
| Transport.RealTrialsCanExceedLimit | coraza/src/internal/handler/proxy_runtime.go:1495-1514 | an interleaving of disciplined requests with two real trials under a limit of one |
| Trials.CounterNeverOverstates | coraza/src/internal/handler/proxy_runtime.go:1495-1541 | in every run the half-open counter is at most the number of requests in flight that were let in as trials |
| Trials.CounterIsTrialsIff | coraza/src/internal/handler/proxy_runtime.go:1495-1541 | it is that number throughout if and only if every release that finds it above zero is a trial's own |
| Trials.TrialsWithinLimitIff | coraza/src/internal/handler/proxy_runtime.go:1516-1541 | the real trials stay within the limit throughout if and only if every acquire that finds the circuit not closed finds fewer of them than the limit |
| Trials.OwnTrialsWithinLimitIff | coraza/src/internal/handler/proxy_runtime.go:1899-1919 | where releases are the trials' own, that is the guard missing from the open circuit |
| Trials.TransportRunsAreTrials | coraza/src/internal/handler/proxy_runtime.go:937-1141 | every run of the transport under one configuration is, for the first backend of each key, a run these theorems speak of |
| ProxyRules.Runtime.constructor | coraza/src/internal/handler/proxy_runtime.go:138-234 | a coherent runtime with a bound in range, whose file is not rewritten |
| ProxyRules.ClampRollbackMax | coraza/src/internal/handler/proxy_runtime.go:863-871 | the stack bound is between 1 and 64, which the theorems on runs need |
| ProxyRules.Runtime.PushSnapshot | coraza/src/internal/handler/proxy_runtime.go:873-885 | pushes and forgets the oldest beyond the bound |
| ProxyRules.Runtime.InstallRules | coraza/src/internal/handler/proxy_runtime.go:332-352 | all three writes, or the compensation the code makes for the ones already done |
| ProxyRules.Runtime.Apply | coraza/src/internal/handler/proxy_runtime.go:310-363 | the new state and the outcome of an apply under every success or failure of its writes: invalid if and only if the text does not prepare, a conflict if and only if it does and carries another tag than the current one, both without effect |
| ProxyRules.ConflictIff | coraza/src/internal/handler/proxy_runtime.go:310-330 | an apply of a text that prepares is refused as a conflict, the state unchanged, if and only if its trimmed tag is not empty and not the current one; else, with working writes, it is done, and its prepared text is current, served and saved |
| ProxyRules.SuccessNeedsCurrentTag | coraza/src/internal/handler/proxy_runtime.go:323-325 | over every run a non-empty tag that an apply succeeded with was the current one, and afterwards that of its text is |
| ProxyRules.SecondApplyConflicts | coraza/src/internal/handler/proxy_runtime.go:310-363 | of two applies carrying the same tag the second is refused once the first has put a text of another tag in force, unless something brings the tag back between them |
| ProxyRules.Runtime.Rollback | coraza/src/internal/handler/proxy_runtime.go:365-423 | the same for a rollback, which pops only when it works |
| ProxyRules.RunKeepsCoherent | coraza/src/internal/handler/proxy_runtime.go:310-423 | over every run text, tag, configuration and transport come from one preparation and the stack stays within its bound, whether or not texts prepare again |
| ProxyRules.FailedStepLeavesStateIff | coraza/src/internal/handler/proxy_runtime.go:332-343 | a failing step leaves the state unchanged if and only if what it compensates was already saved |
| ProxyRules.FailuresLeaveStateIff | coraza/src/internal/handler/proxy_runtime.go:332-343 | every step that fails with its compensation working leaves the state unchanged if and only if, before it, file and blob carry the current text |
| ProxyRules.RunKeepsSaved | coraza/src/internal/handler/proxy_runtime.go:310-423 | once file and blob carry the current text they do so after every run |
| ProxyRules.StackIsRecentHistory | coraza/src/internal/handler/proxy_runtime.go:873-885 | the bounded stack is always a suffix of the unbounded one |
| ProxyRules.RollbacksPop | coraza/src/internal/handler/proxy_runtime.go:365-423 | j rollbacks pop entries up to the first whose text no longer prepares; what is current then is what the last popped one prepares to |
| ProxyRules.BlockedForever | coraza/src/internal/handler/proxy_runtime.go:365-423 | a text on top that does not prepare stays there, and no number of rollbacks changes anything |
| ProxyRules.RollbacksUndoAppliesIff | coraza/src/internal/handler/proxy_runtime.go:310-423 | after k applies, j rollbacks (j at most k and the bound) restore the text current before the last j, their entries popped, if and only if the texts they pass prepare and the last prepares to itself |
| ProxyRules.RollbacksAfterAppliesSave | coraza/src/internal/handler/proxy_runtime.go:310-423 | either way they leave a coherent state that file and blob carry |
| RulesText.EncodedAgainIff | coraza/src/internal/handler/proxy_runtime.go:517-543 | the printed text of a configuration in force prepares exactly when that is restorable, and to itself exactly when it is stable |
| RulesText.RollbacksRestoreIff | coraza/src/internal/handler/proxy_runtime.go:310-423 | so the rollbacks restore the configuration if and only if every one they pass is restorable and the last is stable |
| RulesText.SpacedPrefixIsNotRestored | coraza/src/internal/handler/proxy_routing.go:366-372 | start on prefix "/a /", apply, roll back: the prefix was "/a " and is "/a" |
| RulesText.DottedHostBlocksRollback | coraza/src/internal/handler/proxy_routing.go:378-384 | start on host "*...", apply: every rollback is refused and changes nothing |
| RulesText.FailedApplyRewritesSpacedPrefix | coraza/src/internal/handler/proxy_runtime.go:339-343 | a failing apply right after that start replaces the file's text |
| TargetSelection.PickBucket | coraza/src/internal/handler/proxy_selection.go:450-457 | the one position whose weight interval holds the bucket |
| TargetSelection.BucketUnique | coraza/src/internal/handler/proxy_selection.go:437-477 | the weight intervals partition the buckets, for hash and cursor alike |
| TargetSelection.ExactShares | coraza/src/internal/handler/proxy_selection.go:460-477 | over any totalWeight consecutive cursor values position i is picked exactly weight i times |
| TargetSelection.DrawsAreFair | coraza/src/internal/handler/proxy_selection.go:460-477 | the same for the real uint64 cursor as long as the draws do not cross its wrap, or the total weight divides it |
| TargetSelection.ConfiguredShares | coraza/src/internal/handler/proxy_selection.go:460-477 | over as many consecutive cursor draws as the competing candidates weigh, candidate i is in front exactly as often as its configured weight, 1 if that is not positive, and a candidate that does not compete never |
| TargetSelection.CallsAreFair | coraza/src/internal/handler/proxy_selection.go:309-368 | the same for consecutive calls that arrange the candidates by the cursor |
| TargetSelection.CanaryShare | coraza/src/internal/handler/proxy_selection.go:231-241 | a canary of p percent gets exactly p of 100 consecutive draws that do not cross the wrap of the cursor, its partner 100 - p |
| TargetSelection.LessLoadedIsStrictWeakOrder | coraza/src/internal/handler/proxy_selection.go:334-345 | cross-multiplied comparison is irreflexive, transitive, and its ties are transitive, for positive weights |
| TargetSelection.StableSort | coraza/src/internal/handler/proxy_selection.go:334-345 | a permutation, in order, ties in input order |
| TargetSelection.SelectSplits | coraza/src/internal/handler/proxy_selection.go:313-327 | every candidate is selected exactly once, as eligible or as fallback |
| TargetSelection.Partition | coraza/src/internal/handler/proxy_selection.go:313-323 | the loop computes that split |
| TargetSelection.HeadIsLeast | coraza/src/internal/handler/proxy_selection.go:334-345 | the head carries no more in flight per weight than any contender |
| TargetSelection.LeastLoadedIs | coraza/src/internal/handler/proxy_selection.go:334-345 | no competing candidate has fewer requests in flight for its configured weight than the head, ties going by name |
| TargetSelection.SortedTrails | coraza/src/internal/handler/proxy_selection.go:334-345 | and so on down the list, ties of both going by position |
| TargetSelection.OrderIsEligibleFirst | coraza/src/internal/handler/proxy_selection.go:309-368 | the result is a permutation with every eligible target before every other |
| TargetSelection.Promote | coraza/src/internal/handler/proxy_selection.go:346-354 | the drawn contender first, the others in their order |
| TargetSelection.Rotate | coraza/src/internal/handler/proxy_selection.go:355-361 | the contenders cyclically from the drawn one |
| TargetSelection.Selector.CursorIndex | coraza/src/internal/handler/proxy_selection.go:460-477 | draws by the next cursor value and advances it modulo 2^64 |
| TargetSelection.Selector.HashIndex | coraza/src/internal/handler/proxy_selection.go:437-458 | draws by the digest and leaves the cursor alone unless the value is blank |
| TargetSelection.Selector.Order | coraza/src/internal/handler/proxy_selection.go:309-368 | a permutation, eligible first; the one in front is the least loaded of several by in-flight count and configured weight, or the one whose share of the configured weights holds the digest, or the cursor; the other contenders follow by load, in list order, or cyclically, the rest in list order |
| RateLimit.NormalizedIsAccepted | coraza/src/internal/handler/rate_limit_store.go:495-529 | what policy normalization lets through is in range, differs from what it was given in status and key kind only (429 for 0, "ip" for a blank kind), and is left alone by a second pass |
| RateLimit.AdaptiveStaysInRange | coraza/src/internal/handler/rate_limit_identity.go:211-243 | scaled limit in 1..Limit, scaled burst in 0..Burst |
| RateLimit.AdaptiveIsAntitone | coraza/src/internal/handler/rate_limit_identity.go:211-243 | a higher risk score never gets a higher limit or burst, across the threshold too |
| RateLimit.AdaptiveIs | coraza/src/internal/handler/rate_limit_identity.go:211-243 | from the threshold on, limit and burst are the rounded-up share of 10 points less per point of risk, between 10 and 100 percent; below it they stay, and nothing else ever changes |
| RateLimit.PickedIsFirst | coraza/src/internal/handler/rate_limit_store.go:299-315 | the policy of the first applicable rule, else the default |
| RateLimit.RuleDecides | coraza/src/internal/handler/rate_limit_store.go:299-315 | the first enabled rule that matches the path and lists the method, or lists none, decides; without one the default |
| RateLimit.SameKeyIff | coraza/src/internal/handler/rate_limit_identity.go:174-209 | two requests have the same key if and only if they are alike in what the kind looks at; with an address missing or holding a bar, also if address and second part read the same when joined |
| RateLimit.KnownAddressesDoNotMix | coraza/src/internal/handler/rate_limit_identity.go:174-202 | known addresses without a bar are never mixed up |
| RateLimit.MissingAddressMixes | coraza/src/internal/handler/rate_limit_identity.go:174-202 | a request without an address that is counted with another address's session |
| RateLimit.CountedTogetherIff | coraza/src/internal/handler/rate_limit_store.go:206-231 | two counted requests share a counter if and only if one policy governs both and they are alike in what its key kind looks at |
| RateLimit.BypassesIff | coraza/src/internal/handler/rate_limit_store.go:185-231 | a request is not counted if and only if the limiter is off, the request exempt, its governing policy off, or there is nothing to count it by |
| RateLimit.CountedRequestsAreBudgeted | coraza/src/internal/handler/rate_limit_store.go:206-228 | a counted request has a positive window and a positive budget within its base policy's |
| RateLimit.Limiter.PickPolicy | coraza/src/internal/handler/rate_limit_store.go:299-315 | the loop finds that policy |
| RateLimit.Limiter.Count | coraza/src/internal/handler/rate_limit_store.go:233-256 | one counted step, with a sweep on every thousandth |
| RateLimit.Limiter.SweepIdle | coraza/src/internal/handler/rate_limit_store.go:248-255 | forgets exactly the counters idle for more than 600 s |
| RateLimit.Limiter.Evaluate | coraza/src/internal/handler/rate_limit_store.go:185-291 | decision, counters and totals of one request, with every bypass |
| RateLimit.SweepIsInvisible | coraza/src/internal/handler/rate_limit_store.go:248-255 | for a key with a window up to 600 s every decision is that of counters that are never forgotten, whatever windows other keys have |
| RateLimit.SweepShowsBeyondIdle | coraza/src/internal/handler/rate_limit_store.go:248-255 | for every longer window of a key a run where the decisions differ |
| RateLimit.CounterCountsWindow | coraza/src/internal/handler/rate_limit_store.go:235-246 | the counter is the number of the key's requests in the current window |
| RateLimit.DecisionIff | coraza/src/internal/handler/rate_limit_store.go:233-256 | in time order a hit is allowed if and only if fewer of its key passed in its window than its budget, for windows up to 600 s |
| RateLimit.RequestAllowedIff | coraza/src/internal/handler/rate_limit_store.go:185-291 | with a window of at most 600 s, a counted request is allowed if and only if, of those counted together with it, fewer passed before it in its window than its limit and burst, tightened by its risk |
| RateLimit.RequestBlockedIff | coraza/src/internal/handler/rate_limit_store.go:185-291 | with a window of at most 600 s, a request is blocked if and only if the limiter is on, it is not exempt, the policy that governs it is on and has something to count it by, and those counted with it have used up its budget in its window |
| RateLimit.WindowBudget | coraza/src/internal/handler/rate_limit_store.go:233-256 | at most Limit + Burst allowed requests of a key per window, if its own window is up to 600 s |
| RateLimit.WindowBudgetIff | coraza/src/internal/handler/rate_limit_store.go:233-256 | for every key and positive budget: no run in time order lets more through per window if and only if the key's window is at most 600 s |
| RateLimit.IntervalBudget | coraza/src/internal/handler/rate_limit_store.go:233-256 | at most twice that in any interval one window long |
| RateLimit.IntervalBudgetIff | coraza/src/internal/handler/rate_limit_store.go:233-256 | and none more than twice that per interval one window long, under the same condition |
| RateLimit.PlaceOfRuleKey | coraza/src/internal/handler/rate_limit_store.go:459-459 | a counter key names the place of its rule, whatever the rule's name and the request put behind it |
| RateLimit.KeyDeterminesPolicy | coraza/src/internal/handler/rate_limit_store.go:206-231 | requests of one counter key are counted under one policy, so a key has one window |
| RateLimit.PolicyBudget | coraza/src/internal/handler/rate_limit_store.go:185-291 | over every run of requests under one configuration, of those counted together at most Limit + Burst of their policy pass per window of up to 600 s |
| RateLimit.PolicyIntervalBudget | coraza/src/internal/handler/rate_limit_store.go:185-291 | and at most twice that in any interval one window long |
| RateLimit.PolicyBudgetIff | coraza/src/internal/handler/rate_limit_store.go:185-291 | for every configuration and counted request: over every run at most Limit + Burst of those counted with it pass per window if and only if that window is at most 600 s |
| RateLimit.PolicyIntervalBudgetIff | coraza/src/internal/handler/rate_limit_store.go:185-291 | and at most twice that in any interval one window long, under the same condition |
| RateLimit.RetryAfterIsNextWindow | coraza/src/internal/handler/rate_limit_store.go:264-271 | a configured value is given as it is; the automatic one is in 1..WindowSeconds and names the next window's start |
| RateLimit.RetryIsHonoured | coraza/src/internal/handler/rate_limit_store.go:223-271 | the key's first request at or after that moment is allowed, whatever other keys do |
| TokenBucket.Limiter.Update | coraza/src/internal/handler/admin_guards.go:226-243 | disabling forgets every bucket, otherwise they stay |
| TokenBucket.Limiter.Evaluate | coraza/src/internal/handler/admin_guards.go:245-285 | refill, decision, spending and pruning of one request |
| TokenBucket.Limiter.Prune | coraza/src/internal/handler/admin_guards.go:296-302 | removes exactly the buckets last used before the cutoff |
| TokenBucket.TokensStayInRange | coraza/src/internal/handler/admin_guards.go:245-285 | tokens of every bucket stay in 0..burst over every run, whatever the clock does |
| TokenBucket.PruningIsLosslessIff | coraza/src/internal/handler/admin_guards.go:281-302 | a bucket idle for more than ten minutes is surely full if and only if burst <= 600 rps |
| TokenBucket.PruningShows | coraza/src/internal/handler/admin_guards.go:281-302 | for every larger whole burst a run in time order whose last request pruning lets through and full buckets would not |
| TokenBucket.PruningIsInvisibleIff | coraza/src/internal/handler/admin_guards.go:281-302 | for a whole burst, pruning changes no decision of any run in time order if and only if burst <= 600 rps |
| TokenBucket.PruningIsInvisible | coraza/src/internal/handler/admin_guards.go:281-302 | with burst <= 600 rps, whole or not, it changes none |
| TokenBucket.PlainRateBound | coraza/src/internal/handler/admin_guards.go:245-285 | at most burst + rps * T allowed requests per key in any interval of length T, without pruning |
| TokenBucket.AllowedOnceRefilled | coraza/src/internal/handler/admin_guards.go:245-285 | a request is allowed once the refill since the last allowed one of its key makes up a token, whatever was blocked between, if the burst holds one |
| TokenBucket.FirstIsAllowedIff | coraza/src/internal/handler/admin_guards.go:245-285 | the first request of a key is allowed if and only if the burst holds a token |
| TokenBucket.RateBound | coraza/src/internal/handler/admin_guards.go:245-302 | the same with pruning, when it is lossless |
| TokenBucket.PruningExceeds | coraza/src/internal/handler/admin_guards.go:281-302 | for every larger whole burst a run in time order that lets more through than the bound |
| TokenBucket.RateBoundIff | coraza/src/internal/handler/admin_guards.go:245-302 | for a whole burst the bound holds of every run in time order if and only if burst <= 600 rps |
| PathRewrite.StoredIsWhatNormalizationLeaves | coraza/src/internal/handler/proxy_routing.go:366-372 | the prefixes normalization can leave, all of them, but for the empty text |
| PathRewrite.NormalizePrefixIsIdempotentIff | coraza/src/internal/handler/proxy_routing.go:366-372 | normalizing twice equals once if and only if the first result ends in neither a slash nor white space |
| PathRewrite.UnstablePrefixes | coraza/src/internal/handler/proxy_routing.go:366-372 | "/a /", "//" and "// /" normalize to what normalizes differently |
| PathRewrite.NormalizeHostIsIdempotentIff | coraza/src/internal/handler/proxy_routing.go:378-384 | a normalized host is left alone by a second pass if and only if it ends in neither a dot nor white space |
| PathRewrite.UnstableHosts | coraza/src/internal/handler/proxy_routing.go:378-384 | "*..." loses a dot per pass |
| PathRewrite.PrefixMatchesIffSegmentsBegin | coraza/src/internal/handler/proxy_routing.go:1001-1012 | a prefix rule accepts exactly the paths whose segments begin with its segments |
| PathRewrite.RewrittenLiesUnderTarget | coraza/src/internal/handler/proxy_routing.go:1024-1068 | whatever the rule, the rewritten path is accepted by the new prefix |
| PathRewrite.RewriteReplaces | coraza/src/internal/handler/proxy_routing.go:1024-1068 | what rewriting makes of a path: the new prefix in the place of the rule's, with what was behind it; under an exact rule or none, the new prefix alone |
| PathRewrite.RoundTripIff | coraza/src/internal/handler/proxy_routing.go:1024-1068 | with any stored prefixes, rewriting there and back restores the path if and only if it starts with a slash, both prefixes are stable, and it is not an exact match sent to "/" |
| PathRewrite.ExactMatchGainsSlash | coraza/src/internal/handler/proxy_routing.go:1024-1068 | "/a" sent to "/" comes back as "/a/" |
| PathRewrite.SpaceIsLost | coraza/src/internal/handler/proxy_routing.go:1024-1068 | "/a /x" under "/a " comes back as "/a/x" |
| PathRewrite.RawSuffixDecodes | coraza/src/internal/handler/proxy_routing.go:833-844 | a rule without escapes, whatever prefix is stored, that accepts a raw path accepts its decoding and leaves the decoded suffix |
| PathRewrite.RewritingCommutesWithDecodingIff | coraza/src/internal/handler/proxy_routing.go:833-844 | decoding the rewritten raw path gives the rewritten decoded path, except under rule "/" when an escape hides the leading slash |
| PathRewrite.DecodedMayMatchWhereRawDoesNot | coraza/src/internal/handler/proxy_routing.go:833-844 | a raw path the rule rejects though it accepts the decoding |
| PathRewrite.WildcardMatchesProperSubdomains | coraza/src/internal/handler/proxy_routing.go:965-975 | a wildcard accepts exactly the hosts with its labels at the end and at least one more |
| Routing.BuildTables | coraza/src/internal/handler/proxy_routing.go:390-399 | the two name tables, or the first upstream whose weight is not positive |
| Routing.TablesAnswer | coraza/src/internal/handler/proxy_routing.go:462-474 | a lookup in the tables finds what a search of the upstream list finds |
| Routing.CheckRef | coraza/src/internal/handler/proxy_routing.go:462-474 | accepts a URL or the one enabled upstream of that name, with the reason otherwise |
| Routing.CheckAction | coraza/src/internal/handler/proxy_routing.go:457-530 | the first fault of an action, in the order of the checks |
| Routing.CheckMatch | coraza/src/internal/handler/proxy_routing.go:427-455 | the first fault of a match |
| Routing.CheckRoute | coraza/src/internal/handler/proxy_routing.go:401-414 | the first fault of a route |
| Routing.CheckRoutes | coraza/src/internal/handler/proxy_routing.go:401-409 | the first route with a fault, and its fault |
| Routing.RoutesProvideFallback | coraza/src/internal/handler/proxy_routing.go:704-717 | an enabled default with an upstream, or an enabled catch-all route, exists |
| Routing.ValidateRoutes | coraza/src/internal/handler/proxy_routing.go:390-425 | reports nothing if and only if every check passes, else the first problem |
| Routing.FindByName | coraza/src/internal/handler/proxy_routing.go:675-694 | the target a reference configures |
| Routing.FindFallback | coraza/src/internal/handler/proxy_routing.go:654-673 | the default's target, else that of the first enabled route with one |
| Routing.ScanUpstreams | coraza/src/internal/handler/proxy_runtime.go:764-786 | whether every upstream has a URL and a weight, and the URL of the first enabled one |
| Routing.FindPrimary | coraza/src/internal/handler/proxy_runtime.go:756-795 | the primary target, or none when an upstream URL is bad or nothing is configured |
| Routing.Check | coraza/src/internal/handler/proxy_runtime.go:623-641 | succeeds exactly for configurations that pass the checks and have a primary target, which fills the upstream URL |
| CheckedRouting.ReferenceIsGoodIff | coraza/src/internal/handler/proxy_routing.go:462-474 | a reference is accepted if and only if it is a URL or the name of exactly one upstream, an enabled one |
| CheckedRouting.ActionIsGoodIff | coraza/src/internal/handler/proxy_routing.go:457-530 | an action is accepted if and only if its references are good, a canary stands beside an upstream with 1 to 99 percent and none without a canary, and a path rewrite begins with a slash |
| CheckedRouting.RouteIsGoodIff | coraza/src/internal/handler/proxy_routing.go:401-455 | a route is accepted if and only if its hosts, path rule and action are, and a path is rewritten only under an exact or prefix rule |
| CheckedRouting.AcceptedIff | coraza/src/internal/handler/proxy_runtime.go:623-641 | a configuration is accepted if and only if every upstream has a URL and a positive weight, all routes and an enabled default are good, and a target is always left |
| CheckedRouting.PrimaryIs | coraza/src/internal/handler/proxy_runtime.go:756-795 | in an accepted configuration the primary target is the first enabled upstream; without upstreams the upstream URL; else what the enabled default or the first enabled referring route names |
| Preparation.NormalizeHostList | coraza/src/internal/handler/proxy_routing.go:332-353 | the normalized hosts, blanks and repeats dropped |
| Preparation.NormalizeUpstreamList | coraza/src/internal/handler/proxy_runtime.go:712-739 | each upstream trimmed, named by its place if it has no name, of weight 1 if that is not positive, and enabled if it was or none is |
| Preparation.NormalizeOneRoute | coraza/src/internal/handler/proxy_routing.go:143-160 | the normalized route, named by its place if it has no name |
| Preparation.NormalizedRouteIs | coraza/src/internal/handler/proxy_routing.go:143-216 | enabled and ranked as before, the normalized hosts once each and none blank, the path rule, references and path rewrite normalized |
| Preparation.Prepare | coraza/src/internal/handler/proxy_runtime.go:545-641 | normalizes, checks, and fills the upstream URL |
| Preparation.StoredHostsFixedIff | coraza/src/internal/handler/proxy_routing.go:332-384 | a second normalization leaves a route's hosts alone if and only if none ends in a dot or white space |
| Preparation.NormalizedAgainIff | coraza/src/internal/handler/proxy_runtime.go:643-685 | normalizing a prepared configuration gives it back if and only if it is stable |
| Preparation.PrepareIsIdempotentIff | coraza/src/internal/handler/proxy_runtime.go:545-641 | a prepared configuration prepares to itself if and only if no stored host ends in a dot or white space and no stored prefix in white space |
| Preparation.PreparesAgainIff | coraza/src/internal/handler/proxy_runtime.go:545-641 | it prepares at all if and only if normalization leaves something of each stored prefix and more than a bare wildcard of each host |
| Preparation.SpacedPrefixChangesAgain | coraza/src/internal/handler/proxy_routing.go:366-372 | the prefix "/a /" is prepared to "/a " and that to "/a" |
| Preparation.DottedHostFailsAgain | coraza/src/internal/handler/proxy_routing.go:378-384 | the host "*..." is prepared to "*..", which is then refused |
| Routing.FindTarget | coraza/src/internal/handler/proxy_selection.go:268-307 | the candidate of a reference, managed when an upstream has its URL or name |
| Routing.ListTargets | coraza/src/internal/handler/proxy_selection.go:250-265 | one candidate per upstream, or the error of a bad URL |
| Routing.BuildTargets | coraza/src/internal/handler/proxy_selection.go:221-266 | in order: the upstream with what the canary leaves and the canary with its percentage; the upstream alone; every upstream with its weight; or the upstream URL: each with the URL, name and key of what the reference names in the configuration |
| Routing.TargetsAreNamed | coraza/src/internal/handler/proxy_selection.go:221-307 | the targets an action has are the ones it names, by the upstream list and the parsed URLs |
| Routing.SortedIndexes | coraza/src/internal/handler/proxy_routing.go:930-939 | every index once, strictly by (priority, index) |
| Routing.HostsAccept | coraza/src/internal/handler/proxy_routing.go:952-963 | no patterns, or one that accepts the host |
| Routing.TakesIff | coraza/src/internal/handler/proxy_routing.go:941-1012 | a route takes a request if and only if it is enabled, lists no hosts or a pattern whose labels accept the host, and has no path rule or one that equals the path, whose segments begin it, or whose expression matches it |
| Routing.ChoosePlace | coraza/src/internal/handler/proxy_routing.go:780-819 | the enabled matching route of least priority, first among equals, else an enabled default, else the upstreams |
| Routing.GoverningPlaceIsUnique | coraza/src/internal/handler/proxy_routing.go:780-819 | no request has two such places |
| Routing.Resolve | coraza/src/internal/handler/proxy_routing.go:780-871 | the deciding place; its targets, as they are named, with the one selected leading by load, hash or cursor as configured; both rewritten paths; or the one error |
| Routing.OutcomeFollows | coraza/src/internal/handler/proxy_routing.go:821-871 | what a resolved request is sent to and as is what the deciding route, default or upstream list says |
| Routing.CanaryGetsItsShare | coraza/src/internal/handler/proxy_selection.go:231-241 | of 100 consecutive decisions by the cursor between an upstream and its canary, both selectable, the canary leads exactly its percentage |
| Routing.CheckedActionHasTargets | coraza/src/internal/handler/proxy_selection.go:221-307 | a checked action never meets an unknown reference or an empty list, and a canary's weights are p and 100 - p |
| Routing.CheckedResolvesIff | coraza/src/internal/handler/proxy_routing.go:780-871 | in a checked configuration every request has targets, and resolution fails exactly for a rejected raw path or an unparsable query |
| Routing.EscapedPrefixStopsResolution | coraza/src/internal/handler/proxy_routing.go:833-844 | a valid configuration and a request it cannot resolve |
| CacheRules.ReadMethods | coraza/src/internal/cacheconf/serialize.go:84-101 | the known methods and one fault per unknown one, blanks skipped |
| CacheRules.ReadMatch | coraza/src/internal/cacheconf/serialize.go:58-82 | the match field set and the fault of the match |
| CacheRules.FromDto | coraza/src/internal/cacheconf/serialize.go:49-115 | all rules, or all faults of all rows in order |
| CacheRules.FaultsOfRow | coraza/src/internal/cacheconf/serialize.go:49-115 | each kind of fault is reported of a row if and only if the row has it |
| CacheRules.TableAcceptedIff | coraza/src/internal/cacheconf/serialize.go:49-115 | a table is accepted if and only if every row has a known kind and match type, a value that compiles where it must, known or blank methods and no negative lifetime |
| CacheRules.PrintRule | coraza/src/internal/cacheconf/serialize.go:123-155 | the printed line of a rule |
| CacheRules.RulesetToLines | coraza/src/internal/cacheconf/serialize.go:117-158 | one line per rule |
| CacheRules.AtoiOfItoa | coraza/src/internal/cacheconf/serialize.go:146-148 | a printed lifetime parses back |
| CacheRules.SplitAndTrim | coraza/src/internal/cacheconf/loader.go:160-175 | the non-blank trimmed pieces in order |
| CacheRules.ReadOption | coraza/src/internal/cacheconf/loader.go:104-133 | the rule after one option, unknown and malformed ones ignored |
| CacheRules.ReadLine | coraza/src/internal/cacheconf/loader.go:90-137 | the rule of one line, if it has one |
| CacheRules.LineMeans | coraza/src/internal/cacheconf/loader.go:98-134 | the rule of a line has the first word for its kind and, under each key, what the last option that sets it says; a pattern that does not compile and a lifetime that is no number set nothing |
| CacheRules.Parse | coraza/src/internal/cacheconf/loader.go:90-137 | the rules of all lines that are neither blank, comment nor a single word |
| CacheRules.Match | coraza/src/internal/cacheconf/loader.go:139-158 | the first rule that applies and its verdict |
| CacheRules.RowsDecide | coraza/src/internal/cacheconf/loader.go:139-158 | of an accepted table the first row decides that lists the method and whose value is the path, begins it or matches it, by its kind, with its lifetime and vary list; without one the answer is no |
| CacheRules.LineReadsBack | coraza/src/internal/cacheconf/loader.go:98-134 | the printed line of a clean rule parses to it, the lifetime made explicit |
| CacheRules.ParsedIsClean | coraza/src/internal/cacheconf/loader.go:98-134 | every parsed rule is clean, whatever the line |
| CacheRules.FileRoundTripIff | coraza/src/internal/handler/cache_rules.go:123-142 | writing accepted rows to the file and parsing it restores the rules if and only if no value holds white space, Unicode's included, and every vary entry is a word without comma |
| CacheRules.SpacedValuesAreLost | coraza/src/internal/handler/cache_rules.go:123-142 | accepted values with a space and with a no-break space that are not restored |
| CacheRules.RestoredRulesDecideAlike | coraza/src/internal/cacheconf/loader.go:139-158 | the restored rules give every method and path the same verdict, vary list and effective lifetime |
| TemporalWindow.Compact | coraza/src/internal/handler/semantic_temporal.go:75-82 | compaction within the array leaves exactly the recent observations in order |
| TemporalWindow.Append | coraza/src/internal/handler/semantic_temporal.go:83-87 | appends in place or to a fresh larger array |
| TemporalWindow.Store.constructor | coraza/src/internal/handler/semantic_temporal.go:44-58 | an empty store with positive size and window, the window scaled to nanoseconds |
| TemporalWindow.Store.Observe | coraza/src/internal/handler/semantic_temporal.go:60-106 | the client's next window and its counts; every other client's window is untouched |
| TemporalWindow.NormalizedIs | coraza/src/internal/handler/semantic_temporal.go:124-142 | a blank path counts as "/", letter case of the agent and surrounding white space do not matter, nor what lies beyond the length limits |
| TemporalWindow.Store.Count | coraza/src/internal/handler/semantic_temporal.go:93-105 | requests, distinct paths, distinct non-empty user agents |
| TemporalWindow.RecentIsSuffix | coraza/src/internal/handler/semantic_temporal.go:75-82 | in time order what is recent is a suffix |
| TemporalWindow.SurplusFirst | coraza/src/internal/handler/semantic_temporal.go:75-91 | dropping the surplus before the stale gives the same window as after |
| TemporalWindow.StoreHoldsTheWindow | coraza/src/internal/handler/semantic_temporal.go:60-91 | over every run in time order the store holds exactly the last max in-window observations of all ever made |
| Notifications.FindTrigger | coraza/src/internal/handler/notification_store.go:994-1031 | the trigger of a category and source |
| Notifications.AlertState.Advance | coraza/src/internal/handler/notification_store.go:460-494 | closes the window in progress, classifies it, and sends on a change outside the cooldown |
| Notifications.AlertState.Record | coraza/src/internal/handler/notification_store.go:434-441 | counts the observation in the given window |
| Notifications.Manager.Observe | coraza/src/internal/handler/notification_store.go:404-442 | the alert of the observation's key, all others untouched |
| Notifications.Manager.FlushExpired | coraza/src/internal/handler/notification_store.go:444-458 | every alert advanced, in any order of the map, and the set of dispatches started |
| Notifications.Manager.Update | coraza/src/internal/handler/notification_store.go:326-332 | a new configuration forgets every alert |
| Notifications.SummaryCounts | coraza/src/internal/handler/notification_store.go:886-907 | a summary's count and addresses are those of its observations |
| Notifications.SummaryPeaks | coraza/src/internal/handler/notification_store.go:903-905 | its score is the highest positive one |
| Notifications.SummaryLast | coraza/src/internal/handler/notification_store.go:886-907 | its status code is the last positive one and its request that of the last observation |
| Notifications.SummaryVisits | coraza/src/internal/handler/notification_store.go:897-899 | its path counts are the visits |
| Notifications.TrackFollowsManager | coraza/src/internal/handler/notification_store.go:404-458 | the steps of the run are the manager's |
| Notifications.StatusIsLastClosedWindow | coraza/src/internal/handler/notification_store.go:460-481 | in every run in time order the status is the classification of the observations filed under the last closed window |
| Notifications.StatusMeans | coraza/src/internal/handler/notification_store.go:460-481 | so the status is escalated, active or quiet by how many observations were filed under that window, against the two thresholds |
| Notifications.BucketOfIff | coraza/src/internal/handler/notification_store.go:431-432 | a moment is in the window whose start is not after it and whose end is |
| Notifications.DispatchIff | coraza/src/internal/handler/notification_store.go:483-494 | an event starts a dispatch if and only if it changes the status, a sink is enabled, and the last dispatch, if any, is at least the cooldown ago |
| Notifications.StatusIsTrueIff | coraza/src/internal/handler/notification_store.go:460-481 | at every moment it is that of the last closed window's own observations if and only if the first window after number 0 with an observation is not over, or counting those of window 0 with it does not change its class |
| Notifications.NothingIsLost | coraza/src/internal/handler/notification_store.go:404-481 | in every run in time order closed counts plus the current count are all accepted observations, and the current summary is that of those filed under the current window |
| Notifications.CountsAreTrueIff | coraza/src/internal/handler/notification_store.go:404-441 | at every moment the current summary is that of the current window's own observations if and only if the accepted ones are all in window 0 or none is |
| Notifications.OneSidedIff | coraza/src/internal/handler/notification_store.go:431-441 | that condition, observation by observation |
| Notifications.DispatchesAreSpaced | coraza/src/internal/handler/notification_store.go:483-494 | two dispatches of a key are at least the cooldown apart, whatever the clock does |
| Notifications.FirstWindowIsCarriedOver | coraza/src/internal/handler/notification_store.go:431-441 | whatever the window's length, an observation in window 0 is counted in the window of the next one |
| Notifications.FirstWindowRaisesAlert | coraza/src/internal/handler/notification_store.go:460-481 | and raises there an alert that takes two in one window |

## Left out

- Strings are sequences of runes: white space is Unicode's, letter case that of the ASCII letters only. Texts that are not valid UTF-8 are not modelled, and an escape in a path stands for one rune.
- TemporalWindow.Store.Observe: paths and user agents are cut to a number of runes where the code counts bytes.
- TemporalWindow.NormalizedIs: the same.
- TemporalWindow.Store.constructor: a window of more than 292 years, which wraps in nanoseconds.
- Integer width: counters are unbounded, except the selection cursor (uint64) and rule lifetimes (64-bit).
- Floating point: token buckets use real numbers, without rounding.
- Opaque calls: JSON, URL parsing, regular expressions, SHA-256, host canonicalization and header hygiene are parameters; the cache theorems take the digest to be injective, routing takes a printed URL to parse to itself.
- CacheRuns.RunKeepsInvariant: removes succeed, and nobody but the store writes the directory; body files may vanish.
- ResponseCache.Store.Put: the temporary body file, its copy across devices and the header sanitizing are not modelled.
- Concurrency: each locked method is one step; the cache's byte counter races outside the lock do not exist in the model.
- Entries, backends and candidates are values in sequences and maps; aliasing of the source's pointers to them is not captured. Window arrays and alert states are objects.
- Transport.RoundTrip: request bodies, per-try timeouts, tracing and the shape of synthesized responses; a send is a status with or without body, or an error.
- UpstreamHealth.HalfOpenLimitHolds: the sufficient condition, kept for what it gives while open and closed; the exact one is HalfOpenLimitHoldsIff.
- Monitor status snapshots, the probing goroutine, SelectTarget and resolveProxyRouteTarget: the older selection path and reporting.
- Preparation.Prepare: the settings outside routing (timeouts, TLS, error pages, retry and health settings) and their checks, and the certificate and page files read there; query and header operations and hash settings are taken to be left alone by a second normalization.
- RulesText.RollbacksRestoreIff: JSON is a codec that gives back what it printed and never prints a blank text.
- Routing.CheckAction: host rewrite and hash policy, and query and header operations, are represented by whether they pass their own checks.
- Routing.Resolve: the decision's outbound host, rewritten query and hash override are not part of this model.
- RateLimit.Limiter.Evaluate: extraction of identity from cookies and tokens; the request carries it.
- CacheRules.Parse: the line scanner's 64 KiB limit.
- CacheRules.RulesetToLines: methods differing in case only would be printed once here and twice by the code; rules built by either constructor are upper-case already.
- Notifications: sinks, message texts and the rendering of the top three paths; defaults filled in before validation.
- IP reputation, bot challenges, country blocks, log storage, the admin UI and the HTTP handlers: input and output around the components above.
