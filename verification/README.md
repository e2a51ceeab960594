# A verified model of the reconnaissance pipeline

The project models the parts of the tool that decide what is done, in which order and to
whom, and proves what they keep over whole runs:

- **Scan runs** (`Registry`, `RegistryOrder`, `ScanMachine`, `ScanHistory`, `ScanSafety`,
  `ScanService`): the order of the requested modules, and a run as a state machine whose
  steps are the committed writes of the executor, the operator's actions, module outcomes,
  and a crash between any two of them. The class `ScanOrchestrator.ScanService` holds the
  fields of a run and has one method for each of the service's methods. Each loop of the
  executor lets anything outside happen between two steps; the safety lemmas are about every
  reachable state or every continuation.
- **Correlation** (`Routing`, `Correlation`, `EvidenceLaws`, `Links`, `Engine`): evidence is
  routed to groups, references and hints, folded into assets, and the hints are made
  relationships in a session without autoflush.
- **Targets and scope** (`Scope`, `Targets`, `TargetSources`): the scope decision, and the ranked,
  partitioned target set of an active module.
- **Rate control** (`RateLimit`, `Backoff`, `HttpClient`): the token bucket, the adaptive
  back-off, and the audited redirect loop that couples them, over real-valued time.
- **Parsers and bounded loops** (`CatFile`, `ScanDiff`, `Crawler`, `CrawlRequests`,
  `Recurse`, `RecurseSeeds`).

Code that works by changing things step by step is a method or a class here, proved against
a specification function or predicate on values; the lemmas are about that specification.
To check everything: `dafny verify dfyconfig.toml`.

What the proofs say about the code that a reader may not expect:

- A FAILED module is not in `modules_completed`, so a resume runs it again
  (`FailedRunsAgain`). A dependency that is not registered is skipped by the closure but is a
  KeyError in the phase check, although the comment there calls it optional
  (`ClosureProperties`, `Resolver.CheckPhases`).
- A cancel during the last module can still end in COMPLETED (`CancelTooLate`): nothing looks
  at it after the check of the last module, and only then (`StoppedCompletesExactly`).
- The comment at recon/orchestrator/scans.py:237-240 says that only a module from an earlier
  scan run is relabelled. No reachable state has such a module: the relabelling only replaces
  a reason the same run had set (`CarryOverRelabels`, `RelabelHappens`).
- A run that is resumed before its previous task has ended can lose its handle to that
  task's `finally`; a cancel then has no effect (`CancelLost`, and exactly when:
  `CancelReachesExactly`, `ResumedCancelExactly`). If that task then raises while it closes
  its client, the resumed run is marked FAILED under its live executor, which can still write
  COMPLETED (`FailedIsOverwritten`, and exactly when: `ResumedRunningExactly`).
- With the default back-off, a configured rate below ten requests a second can be cut below
  one by 429 answers, and `acquire` then never returns until the rate is raised
  (`HttpClient.ProgressExactly` and `DefaultThreshold`).
- git prints paths with control characters, quotes, backslashes or characters beyond ASCII in
  quotes (`core.quotePath` is on by default, and the code does not turn it off). The log
  parser takes the quoted form for the path, so such a file's history is not read, unless
  another file has that very name (`LogRoundTripExactly`, `HistoryReadsExactly`).
- A request that httpx rejects with an exception outside `httpx.HTTPError` takes a token and
  leaves no audit row (`ReconHTTPClient.Request`).
- Two distinct hints that name the same new relationship make a correlation fail in some
  orders of the hint set, because the second check does not see the pending row
  (`SucceedsExactly`). Type names that are no asset type all stand for a finding, so one
  row with two such hints is enough (`EvidenceCanCollide`), although no module emits one.
- `extract_host` raises on a malformed URL. A group whose value does so is skipped, but the
  loops over attribute rows and hints catch nothing, so one such row makes the whole
  correlation fail (`MalformedRefSinksPass`, and exactly when: `Session.Correlate`).
- Scope is decided for each target candidate by its own addresses. A host whose addresses
  together are excluded is still eligible exactly if one of its candidates is usable alone
  (`EligibleThoughExcludedExactly`); two DNS rows are enough (`ExcludedHostIsEligible`).
- The alias record of a name with fewer than two dots splits its target: the record's group is
  that of a domain, but the relationship ends at a subdomain of the same name
  (`AliasTargetExactly`).
- Every IPv6 service gets a change key without its port (`ServiceKeyExactly`).
- The crawl's page limit counts answers, not requests: where every request fails, all seeds
  are asked for (`DeadWebAsksAllSeeds`). The requests stay within the limit, whatever the
  answers, exactly if there are at most 150 URLs that are seeds or in scope on a seed's host
  (`RequestsBoundedExactly`).

## Model

| member | source | states |
|---|---|---|
| `Registry.ClosureProperties` | recon/modules/registry.py:39-51 | the pulled set is the least set that holds the request and is closed under registered dependencies |
| `Registry.ToposortCorrect` | recon/modules/registry.py:63-81 | the depth-first sort of a phase fails exactly if the phase has a dependency cycle; otherwise it lists the phase once each, dependencies first |
| `Registry.CycleWithinPhase` | recon/modules/registry.py:53-61 | without an edge into a later phase, a cycle anywhere is a cycle inside one phase, so the phase check and the sort together miss none |
| `Registry.ResolveFailsExactly` | recon/modules/registry.py:31-89 | no order exactly if a request or a dependency is unregistered, or the closure has an edge into a later phase or a cycle |
| `Registry.ResolveSound` | recon/modules/registry.py:31-89 | every answer lists exactly the closure, without duplicates, every dependency before its dependent, phase ranks never falling |
| `Registry.ResolveStable` | recon/modules/registry.py:31-89 | resolving the stored order again gives the identical order |
| `RegistryOrder.PhasesInOrder` | recon/modules/registry.py:53-89 | osint modules come before passive before active ones, and no dependency in the closure points against that |
| `RegistryOrder.AlphabeticalUnlessNeeded` | recon/modules/registry.py:63-81 | of two modules of a phase the later name comes first only if a module not after the other name needs it |
| `RegistryOrder.FirstDependenciesSorted` | recon/modules/registry.py:67-81 | a phase without dependencies is listed by the alphabet, and so are the dependencies of its first module if they have none |
| `Ordering.LeIsLexicographic` | recon/modules/registry.py:73-79 | the order of the sort is the dictionary order: a prefix first, else the first difference decides |
| `Registry.Resolver.Pull` | recon/modules/registry.py:39-48 | the in-place closure over `wanted`: at the end the old set and everything reachable from the name |
| `Registry.Resolver.DoVisit` | recon/modules/registry.py:67-77 | the recursive visit changes `out` and `visiting` exactly as the specification, and terminates |
| `Registry.Resolver.CheckPhases` | recon/modules/registry.py:53-61 | an error exactly if some dependency is unregistered or in a later phase |
| `Registry.ResolveOrder` | recon/modules/registry.py:31-89 | success is exactly the specified order; KeyError means an unregistered name, ValueError a later-phase edge or a cycle |
| `ScanMachine.StepKeepsInv` | recon/orchestrator/scans.py:204-485 | every committed write, executor move, operator action and crash keeps the invariant of rows, lists, program counter and event log |
| `ScanMachine.ReachableInv` | recon/orchestrator/scans.py:82-485 | the invariant holds in every reachable state |
| `ScanMachine.RegistrySound` | recon/modules/registry.py:31-89 | the registry gives the scan machine what it relies on: good orders that resolve to themselves |
| `ScanHistory.RowsTellHistory` | recon/orchestrator/scans.py:273-377 | in every reachable state the last event of a module determines its row: none PENDING, an ended body its status, a begun one RUNNING, SKIPPED once marked, or PENDING if it was cut short; the reason is the last one the module gave unless it was carried over, and the events come in order |
| `ScanHistory.ReapedRowsArePending` | recon/orchestrator/scans.py:162-176 | after a restart exactly the rows that were RUNNING have changed: they are PENDING with their reason, their module had started and not ended, and it runs again |
| `ScanHistory.CancelledRowIsPending` | recon/orchestrator/scans.py:344-349 | a cancelled body leaves its own row PENDING and every other row as it is; its module runs again |
| `ScanHistory.SkippedWasMarked` | recon/orchestrator/scans.py:323-330 | a SKIPPED row was marked so by its own module in this run |
| `ScanSafety.CheckpointSafety` | recon/orchestrator/scans.py:130-147 | an ACTIVE module starts only after an authorisation; a resume authorises only from AWAITING_CHECKPOINT; the flag is set exactly if an authorisation happened |
| `ScanSafety.ExecutorKeepsFlag` | recon/orchestrator/scans.py:204-406 | no step of the executor changes `active_confirmed` |
| `ScanSafety.AuthorisationSteps` | recon/cli/client.py:266-279 | the only steps that set the flag are pre-authorising and resuming from the checkpoint; resuming a paused run never does, nothing clears it |
| `ScanSafety.AuthorisedIsNotHeld` | recon/orchestrator/scans.py:252-256 | an authorised run that is not already on its way to the checkpoint is never held there, over any continuation |
| `ScanSafety.HeldForAModule` | recon/orchestrator/scans.py:252-256 | a run held at the checkpoint has an active module that has not succeeded, so a run without active modules is never held |
| `ScanSafety.CheckpointComplete` | recon/orchestrator/scans.py:252-256 | in AWAITING_CHECKPOINT every osint and passive module has ended and a correlation ran after the last of them |
| `ScanSafety.CompletedConsistent` | recon/orchestrator/scans.py:268-269 | a COMPLETED run has only ended rows, `modules_completed` names exactly those COMPLETED or SKIPPED, and it correlated last |
| `ScanSafety.OverIsFinal` | recon/orchestrator/scans.py:134-143 | COMPLETED, and FAILED without a live executor, never change again, over any continuation |
| `ScanSafety.StartedPrefix` | recon/orchestrator/scans.py:211-263 | over all launches re-resolving gives the stored order and the modules ever started are a prefix of it |
| `ScanSafety.CompletedNeverRestarts` | recon/orchestrator/scans.py:479-485 | `modules_completed` only grows, without duplicates, inside the request, and no module in it is started again |
| `ScanSafety.FailedRunsAgain` | recon/orchestrator/scans.py:365-371 | a FAILED module is not in `modules_completed`, so the next launch runs it again |
| `ScanSafety.CarryOverRelabels` | recon/orchestrator/scans.py:236-250 | a carried-over row is relabelled exactly if it is SKIPPED, and then this same run had marked it so: the "earlier scan run" case is unreachable |
| `ScanSafety.RelabelHappens` | recon/orchestrator/scans.py:458-477 | the relabelling is reachable and replaces the module's own skip reason |
| `ScanSafety.StopHalts` | recon/orchestrator/scans.py:185-187 | while a cancel or the kill switch stands at most one more module starts, none if the executor had not just passed its check |
| `ScanSafety.PausesOnlyIfStopped` | recon/orchestrator/scans.py:226-229 | without a cancel, the kill switch or a crash no continuation interrupts a body or pauses the run |
| `ScanSafety.StoppedCompletesExactly` | recon/orchestrator/scans.py:226-269 | a live run under a stop can end COMPLETED with the stop standing all the way exactly if its executor has made the check of its last module |
| `ScanSafety.CancelTooLate` | recon/orchestrator/scans.py:262-269 | a cancelled run in the body of its only module that still ends COMPLETED |
| `ScanSafety.SingleExecutor` | recon/orchestrator/scans.py:179-183 | a resume never finds a live executor; a RUNNING run has one, and a live one is RUNNING or was marked FAILED by an earlier task |
| `ScanSafety.StaysRunningExactly` | recon/orchestrator/scans.py:189-202 | a live run stays RUNNING for as long as its executor lives exactly if it is and every earlier task has closed its client |
| `ScanSafety.ResumedRunningExactly` | recon/orchestrator/scans.py:270-271 | a resumed run stays RUNNING while its executor lives exactly if the previous task had closed its client before the resume |
| `ScanSafety.FailedIsOverwritten` | recon/orchestrator/scans.py:189-202 | from every reachable resume before that, the run can be marked FAILED by the earlier task and still end COMPLETED |
| `ScanSafety.CancelReachesExactly` | recon/orchestrator/scans.py:149-152 | cancels find a handle for as long as the executor lives exactly if there is one now and every earlier task has closed its client and popped its own |
| `ScanSafety.CancelStandsExactly` | recon/orchestrator/scans.py:185-187 | a cancel given now stands for as long as the executor lives, with or without the kill switch, exactly if every earlier task has closed its client and popped its handle |
| `ScanSafety.ResumedCancelExactly` | recon/orchestrator/scans.py:179-183 | cancels reach a resumed executor throughout exactly if the previous task had closed its client and popped its handle before the resume |
| `ScanSafety.CancelLost` | recon/orchestrator/scans.py:201-202 | a reachable run, resumed too early, whose live executor has no handle |
| `ScanSafety.ExecutorNotStuck` | recon/orchestrator/scans.py:204-271 | a live executor always has an enabled step |
| `ScanSafety.CanComplete` | recon/orchestrator/scans.py:82-485 | from every reachable state that is not FAILED, even a crashed one, the run can still reach COMPLETED |
| `ScanOrchestrator.ScanService.StartScan` | recon/orchestrator/scans.py:82-128 | refused exactly for no modules, the kill switch or an unresolvable request; otherwise a fresh run of the resolved order |
| `ScanOrchestrator.ScanService.ResumeScan` | recon/orchestrator/scans.py:130-147 | succeeds exactly from AWAITING_CHECKPOINT or PAUSED without the kill switch; its new state is the machine's resume |
| `ScanOrchestrator.ScanService.CancelScan` | recon/orchestrator/scans.py:149-152 | sets the event of the current handle, and does nothing without one |
| `ScanOrchestrator.ScanService.ReapOrphans` | recon/orchestrator/scans.py:162-176 | on startup a RUNNING run becomes PAUSED and its RUNNING rows PENDING with their reasons kept; nothing else changes |
| `ScanOrchestrator.ScanService.PreauthorizeActive` | recon/cli/client.py:272-279 | sets the flag from outside, at any time |
| `ScanOrchestrator.ScanService.MarkSkipped` | recon/modules/base.py:195-225 | a module records its own skip, with or without a reason |
| `ScanOrchestrator.ScanService.CommitReturn` | recon/orchestrator/scans.py:323-330 | a body that returned is COMPLETED unless it had marked itself SKIPPED |
| `ScanOrchestrator.ScanService.CommitFailed` | recon/orchestrator/scans.py:350-371 | a timeout or an exception makes the row FAILED |
| `ScanOrchestrator.ScanService.SkipIfNotRun` | recon/orchestrator/scans.py:458-477 | relabels a row that is neither COMPLETED nor FAILED and says whether it did |
| `ScanOrchestrator.ScanService.AppendCompleted` | recon/orchestrator/scans.py:479-485 | adds the name once |
| `ScanOrchestrator.ScanService.AwaitCheckpoint` | recon/orchestrator/scans.py:385-390 | holds the run at the checkpoint |
| `ScanOrchestrator.ScanService.RunOneModule` | recon/orchestrator/scans.py:273-377 | one module, with cancels, timeouts, skips, exceptions of the body (also under a cancel) or of the executor, and crashes in between, stays on the machine |
| `ScanOrchestrator.ScanService.Execute` | recon/orchestrator/scans.py:189-271 | the whole executor task, ended by an exception between any two of its steps or not, and then closing its client, which may raise, and popping its handle, keeps every property the machine's steps keep and ends with no executor |
| `ScanOrchestrator.ExecuteReachable` | recon/orchestrator/scans.py:189-271 | any execution from a reachable launch ends in a reachable state, so every safety lemma speaks about it |
| `Text.BelowIsLabelSuffix` | recon/core/scope.py:67-73 | the suffix test `endswith("." + base)` holds exactly if the labels of the base are a proper suffix of the host's labels |
| `Scope.InNetIsRange` | recon/core/scope.py:76-81 | membership in a network is the range from its first to its last address, of the same IP version |
| `Scope.NetSizes` | recon/core/scope.py:76-81 | a full-length prefix holds one address, an IPv4 prefix of 24 bits 256 |
| `Scope.WildcardIsStrict` | recon/core/scope.py:67-73 | `*.base` covers exactly the hosts with further labels in front of the base, not the base itself |
| `Scope.PatternCoversExactly` | recon/core/scope.py:67-73 | a plain pattern covers exactly the hosts with the same labels, a wildcard exactly those with further labels in front |
| `Scope.SpellingDoesNotMatter` | recon/core/scope.py:67-73 | the case of letters and a final dot, of host or pattern, change no match |
| `Scope.Classify` | recon/core/scope.py:88-132 | the loops compute the decision: exclusions win outright, then any positive match, else FLAGGED |
| `Scope.DecisionExactly` | recon/core/scope.py:88-132 | EXCLUDED exactly if an exclusion lists the host, covers its labels or holds one of its addresses in its range; IN_SCOPE exactly if only the in-scope lists do; else FLAGGED |
| `Scope.PlainDomainsAreExact` | recon/core/scope.py:115-123 | with plain in-scope domains only, a longer name than each, below one or merely ending in its letters, is not in scope |
| `Scope.ScopeMonotone` | recon/core/scope.py:88-132 | widening the exclusions only adds EXCLUDED; widening the in-scope lists never lifts an exclusion nor takes IN_SCOPE away |
| `Scope.MoreAddressesStayExcluded` | recon/core/scope.py:91-113 | further resolved addresses never lift an exclusion |
| `RateLimit.RateLimiter.AcquireToken` | recon/net/rate_limit.py:16-27 | the retry loop over any clock readings changes the bucket and ends exactly as specified |
| `RateLimit.LiveAtOneOrMore` | recon/net/rate_limit.py:16-27 | at a rate of one or more `acquire` grants after at most one computed sleep |
| `RateLimit.DeadBelowOne` | recon/net/rate_limit.py:16-27 | below one it never grants, however long it polls |
| `RateLimit.LivenessExactly` | recon/net/rate_limit.py:16-27 | at a fixed rate waiting always ends exactly if the rate is at least one |
| `RateLimit.WindowBound` | recon/net/rate_limit.py:16-31 | under any live rate changes up to a ceiling, a window of length T has at most base * (T + 1) grants, although elapsed time is credited at the newest rate |
| `RateLimit.SleepIsExact` | recon/net/rate_limit.py:18-27 | the sleep ends exactly when the token is there |
| `RateLimit.TokensAreConserved` | recon/net/rate_limit.py:16-31 | under any rate changes and without overflow, balance and grants together are the old balance and what time has earned: a grant costs one token |
| `RateLimit.NewBucketIsFull` | recon/net/rate_limit.py:10-13 | a new bucket lets as many requests go at once as its rate |
| `RateLimit.GrantedExactly` | recon/net/rate_limit.py:18-27 | a turn is granted exactly if capacity and refilled balance reach one |
| `Backoff.BackoffController.RecordOutcome` | recon/net/backoff.py:43-63 | `record` changes the controller as specified and returns its current rate |
| `Backoff.RecordInv` | recon/net/backoff.py:43-63 | after every `record` the rate is between floor and base and the window is empty or below the trip ratio |
| `Backoff.HealthyNeverTrips` | recon/net/backoff.py:43-63 | a healthy outcome never trips and never lowers the rate |
| `Backoff.RecordExactly` | recon/net/backoff.py:43-63 | inside a cool-down no outcome changes the rate; after it one that calls for a trip cuts it once, and any other, also a failure, raises it |
| `Backoff.TripsExactly` | recon/net/backoff.py:38-59 | over any run an outcome trips exactly after the cool-down by a 429, or if failures reach the ratio among the last `window` outcomes since the last that called for a trip |
| `Backoff.RateFallsByTripsOnly` | recon/net/backoff.py:49-59 | after any outcomes the rate is at least the floor, and at least the old rate cut once for each trip gained |
| `Backoff.TripsAreSpaced` | recon/net/backoff.py:49-60 | in any stretch of time there is at most one trip more than cool-downs fit into it |
| `Backoff.RecoversExactly` | recon/net/backoff.py:60-63 | n healthy outcomes after the cool-down give exactly min(base, rate * recover^n) |
| `Backoff.FloorReached` | recon/net/backoff.py:49-59 | for every configuration whose trips cut and whose floor ratio is positive, enough spaced 429 answers bring the rate to exactly the floor |
| `Backoff.RateStaysExactly` | recon/net/backoff.py:15-63 | for every configuration the rate stays at one or more under all outcomes exactly if the floor is (or the base rate, when trips do not cut) |
| `Backoff.BackoffController.ExtraDelay` | recon/net/backoff.py:65-67 | the rest of the cool-down, zero exactly after it |
| `HttpClient.ComposedWindowBound` | recon/net/http_client.py:211-244 | for any earlier traffic, answers and back-off, at most base * (T + 1) turns are granted in any window of length T |
| `HttpClient.RequestObserved` | recon/net/http_client.py:158-257 | requests leave limiter and controller exactly where their traffic leads, so the window bound covers them |
| `HttpClient.ProgressExactly` | recon/net/http_client.py:211-244 | after any traffic `acquire` returns within one sleep exactly if the lowest rate answers can bring about is at least one; otherwise some genuine requests and answers lead to a state where it never returns |
| `HttpClient.DefaultThreshold` | recon/net/backoff.py:16-34 | with the default back-off that is a configured rate of ten a second |
| `HttpClient.ReconHTTPClient.SingleRequest` | recon/net/http_client.py:182-257 | refused hops are audited and take no token; others take one, are sent, feed the back-off and are audited with their own decision; an exception outside httpx.HTTPError takes the token and leaves no row |
| `HttpClient.ReconHTTPClient.Request` | recon/net/http_client.py:136-180 | the new audit rows are the chain of attempted hops in order, except a last one that still waits or whose exception escapes; the new sends are its unrefused hops, the result that of the last hop |
| `HttpClient.ChainIsShort` | recon/net/http_client.py:159-180 | at most max_redirects + 1 sends, one without following |
| `HttpClient.ChainIsGated` | recon/net/http_client.py:192-206 | every sent target hop is IN_SCOPE or its row has override_used; a refused hop is audited, not sent, and last |
| `HttpClient.TargetsAreAllowed` | recon/net/http_client.py:196-206 | so what a request sends to a target is in scope by the client's own rules of engagement, or overridden |
| `HttpClient.BodyIsDropped` | recon/net/http_client.py:176-180 | a 301, 302 or 303 turns all but HEAD into GET and drops the body for the rest of the chain |
| `HttpClient.HopsExactly` | recon/net/http_client.py:161-180 | every hop has the method and body of the request up to the first 301, 302 or 303, and after it is a GET without a body, unless the request is a HEAD |
| `HttpClient.HopsFollowRedirects` | recon/net/http_client.py:161-175 | every hop but the first is reached by an answer of 300 to 399 with a location, from the hop before, at the URL it names |
| `HttpClient.OverrideIsAudited` | recon/net/http_client.py:192-206 | a third-party call is never refused; with an override no hop is, and its row says so exactly if the target was excluded or flagged |
| `HttpClient.ThrottledAnswerCuts` | recon/net/http_client.py:242-244 | a 429 after the cool-down cuts the shared rate once and starts a cool-down |
| `HttpClient.OtherAnswersDoNotThrottle` | recon/net/http_client.py:222-244 | a refused connection or any other answer never lowers the shared rate and starts no cool-down |
| `Targets.ResolveTargets` | recon/modules/_targets.py:270-424 | the collected, judged and stashed candidates give a resolution of exactly these inputs; an unknown type is the only error |
| `Targets.ResolutionPartitions` | recon/modules/_targets.py:346-424 | every accepted non-empty key is in exactly one of eligible and excluded; it is eligible exactly if one of its candidates is usable by its own decision |
| `Targets.ExcludedTogetherExactly` | recon/modules/_targets.py:358-394 | all addresses of a key together are excluded exactly if one of its candidates is excluded by its own |
| `Targets.EligibleThoughExcludedExactly` | recon/modules/_targets.py:346-424 | a key is eligible although its addresses together are excluded exactly if one of its candidates is usable and another is excluded |
| `Targets.ExcludedHostIsEligible` | recon/modules/_targets.py:346-424 | a host whose two DNS rows give an excluded and another address is eligible |
| `Targets.EligibleIsBest` | recon/modules/_targets.py:352-395 | an eligible record is the verdict on a safe-form, not excluded and not merely flagged candidate of its key, of the best source rank among them |
| `TargetSources.EligibleExactly` | recon/modules/_targets.py:306-394 | a target is in the result exactly if its type is asked for and the rules, a prior asset or a row of this run names it, and eligible exactly if one of these leaves it clear with its own addresses |
| `TargetSources.HostEligibleExactly` | recon/modules/_targets.py:210-268 | a host is eligible exactly by an entry of the rules or a prior asset clear by name alone, a DNS record clear with its address, or a sighting clear with its own addresses |
| `TargetSources.OtherRowsAreSilent` | recon/modules/_targets.py:315-327 | a row of another run, of an error or of something absent changes no resolution |
| `TargetSources.RecordSource` | recon/modules/_targets.py:352-356 | the record is of the current run exactly if a usable candidate is, and of a prior asset only if all usable ones are |
| `TargetSources.RecordHasProvenance` | recon/modules/_targets.py:202-268 | the record names a row of this run that names the target, with its source and addresses, or is by the rules or a prior asset |
| `TargetSources.EligibleIsSafe` | recon/modules/_targets.py:77-92 | an eligible address or host is no option, no network above 256 addresses, and otherwise a plain host name |
| `Targets.OrderDoesNotMatter` | recon/modules/_targets.py:346-424 | order and repetition of the candidates change neither side's keys nor the rank of an eligible key |
| `Targets.MoreCandidatesKeepEligible` | recon/modules/_targets.py:427-431 | more candidates never take an eligible key away nor worsen its rank |
| `Targets.UnaccountedExactly` | recon/modules/_targets.py:396-415 | an in-scope network is reported unaccounted exactly if addresses are asked for and no usable address candidate lies in it |
| `Targets.EveryAddressParses` | recon/modules/_targets.py:397-402 | every address candidate parses, so building its one-address network cannot fail |
| `Targets.Account` | recon/modules/_targets.py:145-165 | the counters hold the number of eligible keys, of each source and of each exclusion reason |
| `Targets.ReasonsAddUp` | recon/modules/_targets.py:149-152 | the exclusion reasons add up to the number of excluded keys |
| `Targets.SourcesAddUp` | recon/modules/_targets.py:153-155 | the sources add up to the number of eligible keys |
| `Targets.AccountingConserves` | recon/modules/_targets.py:145-165 | both sides together are the distinct accepted keys and the unaccounted networks, each counted once |
| `CorrelationEngine.Session.Correlate` | recon/correlation/engine.py:202-269 | a pass leaves the database exactly as specified or fails and leaves it unchanged; it fails if a reference or a hint makes `extract_host` raise, and otherwise only if hints collide |
| `CorrelationEngine.Collect` | recon/correlation/engine.py:272-394 | routing fills the groups with exactly each key's own rows, the parent references in order, and all hints |
| `CorrelationEngine.Session.GroupLoop` | recon/correlation/engine.py:231-248 | every group is upserted once with its own evidence, in any order, and exactly those whose value cannot be classified are skipped |
| `CorrelationEngine.Session.AttributeLoop` | recon/correlation/engine.py:250-262 | unmatched references materialise their parent, in row order; the loop fails exactly if matching or materialising one raises |
| `CorrelationEngine.Session.RelateAll` | recon/correlation/engine.py:497-547 | the hints in any order write their end points and leave stored and pending relationships as specified; it fails exactly if a flush does or an end cannot be classified |
| `Correlation.MalformedRefSinksPass` | recon/correlation/engine.py:250-262 | one attribute row that refers to a malformed URL makes every pass over it fail, whatever the other rows are |
| `CorrelationEngine.Interest` | recon/correlation/engine.py:439-460 | the loop computes the highest of the hinted and the key's own interest |
| `EvidenceLaws.NameScopeExactly` | recon/correlation/engine.py:462-470 | after a pass a name is EXCLUDED exactly if the exclusions name it or hold an address that a row gives it, and IN_SCOPE exactly if only the in-scope lists do |
| `EvidenceLaws.UrlScopeExactly` | recon/correlation/engine.py:467-469 | a URL has the scope of its host, with the addresses that rows give that host |
| `EvidenceLaws.IpScopeExactly` | recon/correlation/engine.py:465-466 | an address has the scope of its own |
| `EvidenceLaws.NoScopeExactly` | recon/correlation/engine.py:463-464 | exactly findings and the kinds of intelligence have no scope |
| `EvidenceLaws.AddressRowExcludes` | recon/correlation/engine.py:370-383 | one address record into an excluded network excludes its name, whatever else is known |
| `EvidenceLaws.RelationshipsExactly` | recon/correlation/engine.py:308-394 | the relationships after a pass are the old ones and exactly those of explicit hints, of address, alias and mail records, and of subdomains and their parents, each with its direction |
| `EvidenceLaws.AliasTargetExactly` | recon/correlation/engine.py:384-388 | an alias record joins the group of its target by its number of dots but relates to a subdomain; the two are one asset exactly from two dots on |
| `EvidenceLaws.RowsOfGroupExactly` | recon/correlation/engine.py:308-394 | the rows of a group are exactly the records of its name or target, its findings, and rows about the asset; attribute rows and recorded hits join none |
| `EvidenceLaws.SpellingsAreOneAsset` | recon/correlation/engine.py:131-174 | the case of letters makes no other name, service or mail address, and keeps people and documents apart |
| `EvidenceLaws.FinalDot` | recon/correlation/engine.py:131-132 | a final dot makes no other name |
| `EvidenceLaws.WordsAreOneOrganisation` | recon/correlation/engine.py:172-173 | white space between the words makes no other organisation |
| `EvidenceLaws.SubjectsAreAssets` | recon/correlation/engine.py:27-49 | every asset type but finding is the subject of its own name, and both kinds of endpoint are URLs |
| `EvidenceLaws.ConfidenceExactly` | recon/correlation/engine.py:177-193 | confidence is 1.0 exactly with three rows that differ pairwise in module or source, 0.75 with two, 0.5 with rows that do not differ, 0.3 without |
| `EvidenceLaws.InterestExactly` | recon/correlation/engine.py:439-460 | high value exactly if a row says so or the key is a secret; informational exactly if no row says more and the key is none of the notable kinds |
| `EvidenceLaws.ReferencesExactly` | recon/correlation/engine.py:346-351 | the references of a pass are exactly the URLs and hosts that its attribute rows name |
| `EvidenceLaws.ReferencesAreCovered` | recon/correlation/engine.py:250-262 | every reference ends up with an asset that fits it or was made for it |
| `EvidenceLaws.StandInsAreNeeded` | recon/correlation/engine.py:472-495 | an asset made for a reference is of the type its text calls for, and made only if no group fits the reference |
| `EvidenceLaws.RecordedHitIsSilent` | recon/correlation/engine.py:311-316 | a hit that was only recorded changes nothing in any pass |
| `Correlation.ConfidenceCounts` | recon/correlation/engine.py:177-193 | confidence is 0.5, 0.75 or 1.0 for one, two or at least three independent origins, and 0.3 exactly without own evidence |
| `Correlation.PassIsExact` | recon/correlation/engine.py:397-437 | on any database the evidence supports, a pass writes exactly the confidence, interest and scope the evidence determines |
| `Correlation.TwoPassesAreOne` | recon/correlation/engine.py:202-269 | correlating early and again equals correlating once, for every key with evidence or in a hint, also those first materialised at 0.3, and for all relationships |
| `Correlation.PassesAreExact` | recon/correlation/engine.py:202-269 | after any number of passes over growing evidence the last evidence alone determines confidence, interest, scope and relationships; 0.3 marks exactly the keys without evidence |
| `Correlation.PassIsIdempotent` | recon/correlation/engine.py:202-269 | a second pass on the same evidence creates nothing and changes no field |
| `Correlation.OrderDoesNotMatter` | recon/correlation/engine.py:231-248 | permuting or repeating evidence changes no record of a key with evidence and no relationship |
| `Correlation.ParentsDependOnOrder` | recon/correlation/engine.py:251-262 | parents that are only referred to do depend on the order: a page before its host materialises both, after it only the host |
| `Correlation.PassNeverLowers` | recon/correlation/engine.py:431-437 | a pass never lowers confidence or interest, never narrows the times, never drops a relationship |
| `Correlation.TimesSpanEvidence` | recon/correlation/engine.py:408-437 | first_seen and last_seen of a grouped key span its own evidence and the earlier record, and are attained |
| `Links.SucceedsExactly` | recon/db.py:42-47 | linking succeeds in every order of the hint set exactly if no two hints stand for the same relationship that is not stored yet |
| `Links.EvidenceCanCollide` | recon/correlation/engine.py:321-335 | one row of evidence with two explicit hints of unknown types makes a pass over an empty database fail in some order |
| `Links.AllLinked` | recon/correlation/engine.py:497-534 | without a collision every order stores exactly the relationships of the hints, each once |
| `Links.LinkedRels` | recon/correlation/engine.py:497-534 | whenever a pass succeeds, stored and pending relationships are exactly the old ones and those of the hints |
| `CatFile.ParseCatFile` | recon/modules/osint/git_secrets.py:244-270 | the index loop computes the specified frames of any byte stream |
| `CatFile.CatFileRoundTrip` | recon/modules/osint/git_secrets.py:244-270 | any list of blobs of arbitrary bytes and missing revisions of arbitrary words is read back as it was |
| `CatFile.ParseBatchCheck` | recon/modules/osint/git_secrets.py:228-241 | the loop gives one size per line |
| `CatFile.BatchCheckExactly` | recon/modules/osint/git_secrets.py:228-241 | the answer is read as the true blob sizes exactly if no missing revision holds a character at which `splitlines` ends a line |
| `CatFile.ReadBlobs` | recon/modules/osint/git_secrets.py:488-519 | the filter and the pairing compute the specified reads from git's two answers |
| `CatFile.ReadBlobsExact` | recon/modules/osint/git_secrets.py:488-519 | for a git that answers line by line, each kept path gets its own content, in order, for exactly the blobs of 1 to 10 MiB, for paths of one line |
| `CatFile.ParseLog` | recon/modules/osint/git_secrets.py:211-225 | the accumulator loop computes the specified commits |
| `CatFile.LogIsClean` | recon/modules/osint/git_secrets.py:211-225 | every parsed path is one stripped line and no commit hash, whatever the log |
| `CatFile.LogReadsQuotedExactly` | recon/modules/osint/git_secrets.py:211-225 | the parser reads the paths as git prints them exactly if every commit is a hash and every printed path is one stripped line that is no hash |
| `CatFile.LogRoundTripExactly` | recon/modules/osint/git_secrets.py:211-225 | a log is read back as it was exactly if, besides, git prints no path of it in quotes |
| `CatFile.HistoryIsExact` | recon/modules/osint/git_secrets.py:449-478 | for any log text and repository every commit of the walk gets exactly the wanted blobs of its parsed paths |
| `CatFile.HistoryReadsExactly` | recon/modules/osint/git_secrets.py:449-478 | for every commit readable as printed, the walk reads the printed names: exactly the unquoted paths if and only if no quoted form is itself a wanted blob, and then all of the commit exactly if no quoted path is one |
| `ScanDiff.ServiceKeyExactly` | recon/modules/active/scan_diff.py:40-60 | the key of a service signature names its host and port exactly if the host has no colon |
| `ScanDiff.PairChanges` | recon/modules/active/scan_diff.py:63-92 | the changes are exactly the keys with one signature added and one removed, one change a key |
| `ScanDiff.DiffAgainst` | recon/modules/active/scan_diff.py:115-123 | the stored lists are the delta of the two sets, sorted |
| `ScanDiff.DeltaApplies` | recon/modules/active/scan_diff.py:115-126 | (old - removed - was) + added + now is the current set, the four pieces disjoint and nothing else |
| `ScanDiff.DeltaUndoes` | recon/modules/active/scan_diff.py:115-126 | read backwards it is the delta from the current set to the old one |
| `ScanDiff.DeltaIsUnique` | recon/modules/active/scan_diff.py:83-91 | the delta does not depend on the order in which keys are visited |
| `ScanDiff.SnapshotStore.Latest` | recon/modules/base.py:370-382 | a snapshot no other is newer than, none exactly if there is none |
| `ScanDiff.SnapshotStore.Run` | recon/modules/active/scan_diff.py:103-136 | the first run writes a baseline only; every later one its snapshot, a delta against a latest snapshot, and evidence that is exactly that delta |
| `ScanDiff.EvidenceTellsDelta` | recon/modules/active/scan_diff.py:128-136 | the evidence of a delta reports every part of it once, and nothing else |
| `ScanDiff.DeltasTelescope` | recon/modules/base.py:370-420 | with increasing snapshot times the stored deltas lead from the first baseline to the latest snapshot |
| `ScanDiff.DeltasRewind` | recon/modules/base.py:370-420 | and backwards from the latest snapshot to the baseline |
| `Crawler.RunCrawl` | recon/modules/passive/crawler.py:95-196 | on any web the loop ends where the turns lead, with an empty queue or 150 pages, and keeps its invariant |
| `Crawler.Loop` | recon/modules/passive/crawler.py:95-196 | every turn of the loop, with its own visited set, page counts and rooted hosts, is a turn of the specification |
| `Crawler.TurnDecreases` | recon/modules/passive/crawler.py:95-97 | every turn adds a page or shortens the queue |
| `Crawler.Enqueue` | recon/modules/passive/crawler.py:239-271 | exactly the followed links that were not visited go on the queue |
| `Crawler.TurnKeepsInv` | recon/modules/passive/crawler.py:95-196 | every turn keeps provenance, levels, limits, reasons and that nothing known is lost |
| `Crawler.CrawlIsBounded` | recon/modules/passive/crawler.py:95-196 | no URL fetched by the loop twice, at most 150 pages, 40 a host, depth at most 4; every URL the loop fetches is on a seed's host, every non-seed in scope |
| `Crawler.DepthIsShortest` | recon/modules/passive/crawler.py:239-271 | the depth of a URL is the least number of links to it from a seed over crawled pages |
| `Crawler.ExhaustedIsComplete` | recon/modules/passive/crawler.py:95-271 | an exhausted crawl has seen exactly what is within four links, and every URL it did not crawl has its reason |
| `CrawlRequests.RequestsAreCounted` | recon/modules/passive/crawler.py:128-153 | every request of the loop became a page or failed |
| `CrawlRequests.DeadWebAsksAllSeeds` | recon/modules/passive/crawler.py:109-136 | on a web where every request fails the loop asks for exactly the seeds with a host, however many, and has no page |
| `CrawlRequests.RequestsBoundedExactly` | recon/modules/passive/crawler.py:95-271 | whatever the answers the loop makes at most 150 requests, exactly if at most 150 URLs are seeds with a host or in scope on the host of a seed |
| `Recurse.Run` | recon/modules/passive/subdomain_recurse.py:45-123 | the nested loops compute the specified recursion |
| `Recurse.TakeHitsIs` | recon/modules/passive/subdomain_recurse.py:98-121 | one source passes the cap by at most one name, and by one exactly if it offers a new one |
| `Recurse.RoundsAre` | recon/modules/passive/subdomain_recurse.py:71-123 | all rounds: each name once and offered by a query made; nothing offered is lost short of the cap; the total passes it by less than one round's queries |
| `Recurse.SeedsAskedOnce` | recon/modules/passive/subdomain_recurse.py:71-123 | every seed is strictly below an apex and is asked about in one round only |
| `RecurseSeeds.FirstSeedsExactly` | recon/modules/passive/subdomain_recurse.py:63-75 | the first round asks exactly about the known names below an apex, no apexes, with fewer than 60 such names before them in the alphabet |
| `RecurseSeeds.NextSeedsExactly` | recon/modules/passive/subdomain_recurse.py:75-121 | a later round asks exactly about the names found in the round before, with fewer than 60 before them |
| `Recurse.RecursionIsBounded` | recon/modules/passive/subdomain_recurse.py:25-123 | at most 3000 + 60 * 4 - 1 names, each once, new, offered, strictly below an in-scope apex, over at most max_rounds rounds |
| `Recurse.BoundIsMet` | recon/modules/passive/subdomain_recurse.py:120-121 | the bound is met for every cap, every number of seeds a round and every list of sources: some answers reach exactly the cap plus one round's queries, less one |

## Left out

- Module bodies, DNS, HTTP, git and the source adapters: their answers are parameters or nondeterministic outcomes.
- Web interface, command line (except the pre-authorisation), reports, event bus and logging: presentation only.
- Database failures: every commit of the scan machine is one atomic step that succeeds; a correlation that fails is the executor raising.
- Two overlapping resumes: `resume_scan` is one atomic step, and one process owns the database.
- The catalog of modules is the same at every launch of a run.
- `shutdown` and the `available_modules` listing: easy next to the above.
- Several runs at once: a run is modelled alone, since runs share only the kill switch and each has its own handle.
- The hard timeout's suppressed database error: the FAILED write of `_force_module_failed` always happens.
- Registry.ResolveOrder: which of several errors is raised is left open, because the source looks through a set.
- `extract_host`, `urlsplit`, `urljoin`, `ipaddress` parsing and printing, and the value pattern for interest: function parameters; that `extract_host` can raise is modelled in the correlation only. The RoE's own normalisation of its lists on load is taken as done.
- Unicode case folding: host names are lowered as ASCII.
- Float rounding: rates, times and confidences are reals, so 0.3 is exact.
- User-agent rotation, jitter and the concurrency semaphore of the HTTP client; the cool-down sleep appears only as time passing before the outcome.
- Crawler.CrawlIsBounded: speaks of the URLs the loop itself fetches; the hops of redirects, which the HTTP client follows, and the robots and sitemap requests are outside it.
- Cancellation inside a request, a crawl or a recursion: each runs to its end or, for `acquire`, as far as the clock readings last.
- HttpClient.ReconHTTPClient.Request: requests of one client are modelled one after the other; interleaved ones are covered by the window bound, which takes any order of turns and outcomes, but not by the redirect chain.
- Targets.ResolveTargets: the result holds maps instead of lists sorted by type and value, and no bounded provenance excerpt.
- CorrelationEngine.Session.Correlate: the counters of the summary, the links from evidence to assets, raw data of the wrong type and database errors inside a group are not modelled.
- Correlation.TwoPassesAreOne: says nothing about first_seen and last_seen, because a key that the first pass materialised without evidence is stamped with the time of that pass.
- Correlation.OrderDoesNotMatter: does not cover parents that are only referred to; `ParentsDependOnOrder` shows that they depend on the order.
- CatFile.ParseBatchCheck: `int()` is modelled on plain decimal digits; signs, underscores and other digits never come from git.
- CatFile.CatFileRoundTrip: the frames are blobs and missing revisions, the only ones `_read_blobs` asks for; UTF-8 decoding is a parameter with its separation property.
- CatFile.LogRoundTripExactly: paths are valid UTF-8; git escapes other bytes one by one, so such a path is quoted too.
- The secret rules, redaction, cloning and the trufflehog pass of the git module: pattern matching and processes.
- Building the signature set in scan_diff: the set is an input of the run.
- ScanDiff.SnapshotStore.Run: the evidence of a delta may be cut short by a crash; the delta and its snapshot are the first two writes of a module's session, which commits every 25, so they are stored together or not at all.
- Seeds, robots.txt, sitemaps, forms, scripts and parameter names of the crawler: a page is the list of its links, and the seeds are an input.
- Normalising the known names and apexes of the recursion, and the addresses it emits with a name.
- Password hashing, tokens, artifact hashing, soft-404 detection, version ranges: independent of the above.
