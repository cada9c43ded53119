# Verified model of the MCP operator

A Dafny 4.11 model of the stateful and arithmetic parts of a Kubernetes operator for MCP servers: a
circuit breaker, backup retention and scheduling, a TTL cache with a cached lookup over it, status
conditions and the deployment watchdog, three retriers, the auto-update failure tracker, registry
enrichment and template updates, the ports of rendered resources, and registry naming, URLs and
synchronisation. `dafny verify dfyconfig.toml` checks everything.

Where the operator updates objects in place, the model has classes whose methods do the same and are
proved against a specification: a smaller machine (the breaker), a log of calls (cache, failure
tracker), a map (conditions), or a function of the old state whose meaning is then stated by lemmas
over whole runs. What such a function means for one step is stated apart from it, in the fields of its inputs
(`Watchdog.BlockTells`, `GitHubRetry.RetriedIff`, `ReconcilePath.EndsWhere`). The API server, clocks, random numbers, the library sort, the cron parser and
everything behind the network are parameters, so each theorem holds for all their answers.

Time is in nanoseconds as unbounded integers unless 64-bit arithmetic matters (`FailureTracker`, the
retry service's conversion in `Backoff`); what the API server stores is cut to whole seconds where that
matters (`Watchdog`, `BackupSchedule.CutTimesAreEnough`). Floating-point delays are reals. Reconciles read
through a watch-fed cache, so a run says for each of them which stored version it reads (`Watchdog`,
`BackupSchedule`, `CachedLookup`, `Templates.Patched`).

## What came out

Properties that one would expect and the code does not have are stated with the exact condition
under which they hold.

- A completed one-time backup is created again if Suspend or a missing MCPServer takes it out of phase
  Completed and a later reconcile can create (`BackupSchedule.CompletedIsRecreatedIff`).
- Ready=True survives a failed apply, together with phase Failed (`Watchdog.ReadyCanBeTrustedIff`).
- Patch-then-invalidate refreshes the lookup exactly if no lookup in flight holds an outdated result and
  the manager's index has caught up (`CachedLookup.InvalidateRefreshesIff`). Reconcile invalidates right
  after its patch and does not wait for the index, so the old object can be cached for five more minutes
  (`CachedLookup.PatchCanBeMissed`).
- A 404 on a registry listing is retried as a network error if its URL, which the error text holds,
  contains a pattern such as "dns" (`RegistrySync.MissingPathIsFinalIff`,
  `RegistrySync.MissingRegistryTakenForNetwork`).
- An unchanged template can cause updates without end: enrichment writes the digest of the cached copy,
  the auto-update service compares it with the live template, which it fetches from the default registry
  whatever registry the server names, and while the two differ each undoes the other's work. One update
  is enough exactly if the copies are compatible (`Templates.UpdatesAtMostOnceIff`,
  `Templates.UpdatesWithoutEnd`).
- A reconcile that succeeds can leave a backup slot due: Suspend, a missing MCPServer and a failed
  creation, which every S3 backup is, all do (`BackupSchedule.NoSlotStaysDueIff`). With a cron expression
  that never matches every reconcile fires (`BackupSchedule.NeverMatchingAlwaysFires`).
- A reconcile that still reads the version before a firing creates a second backup for the same slot
  (`BackupSchedule.LaggingReadCreatesAgain`), though it never records a second firing. A firing can delete
  the backup that its schedule belongs to; it is then the last one, and is not recorded
  (`Retention.OwnBackupGoesIff`, `BackupSchedule.RetiringFiringIsTheLast`).
- A retention run that stops at a refused deletion can leave an older backup than it deleted
  (`Retention.AbortedRunInvertsIff`).
- A second retention run can delete what the first one kept: the finalizer keeps marked backups listed,
  nothing looks at the mark, and among backups of one second the order is arbitrary. The kept ones are
  safe exactly if the cut falls between two creation times (`Retention.KeptSurviveRunsIff`,
  `Retention.RerunDeletesTheKeptOne`).
- The deployment timeout can fire twice within a moment, if the status of the first firing was not stored
  or the second pass still reads the version before it (`Watchdog.AfterFiringIff`). Otherwise firings are
  ten minutes less a second apart, since stored times are whole seconds, and no more than that can be
  promised (`Watchdog.GapCanBeShort`).
- Enrichment from a version that lags behind overwrites what the user has set in the meantime, since its
  patch names no version (`Templates.PatchOnlyFillsIff`, `Templates.UsersImageIsOverwritten`).
- A UDP port that comes first is probed, and routed to, over TCP (`Ports.PlainServersAgreeIff`).
- A stdio gateway without a port gets 8000 in the container and 8080 in the Service
  (`Ports.ServiceReachesContainerIff`).
- Registry and server names joined by hyphens are ambiguous: a server of registry "a-b" can read what
  registry "a" wrote, and is not requeued for it (`Naming.ReaderIsWatchedIff`).
- The enrichment gate never lets a server through to rendering, and requeues forever
  (`ReconcilePath.NeverRenders`, `ReconcilePath.RequeuesForever`); with a guard for servers that are
  already enriched it would (`ReconcilePath.GuardedRunRenders`).
- Enrichment never stores RegistryFetched=True, so a server whose ConfigMap was once missing reports that
  for ever (`ReconcilePath.MissingIsNeverCleared`).
- From the 64th failure in a row on, the auto-update backoff is zero (`FailureTracker.BackoffByCount`).

Where comments and code disagree the model follows the code. The backoff is 2^(n-1) minutes, not
2^n as its comment says; the registry status keeps the first ten errors, not the last ten; KeepDaily,
KeepWeekly and KeepMonthly are accepted and ignored, and a retention policy without KeepLast does
nothing even if MaxAge is set; the half-open state of the breaker and its MaxRequests are never
observable because the lock is held while the protected call runs; a reconcile panics on a nil runtime
before the enrichment that would create one; and the second fill of the transport path during
enrichment has nothing left to fill.

## Model

| member | source | states |
|---|---|---|
| CircuitBreaker.CircuitBreaker.constructor | pkg/circuitbreaker/circuitbreaker.go:109-133 | a new breaker accepts calls, has notified nobody, and has the defaults for zero settings |
| CircuitBreaker.CircuitBreaker.Call | pkg/circuitbreaker/circuitbreaker.go:142-165 | a call takes the two-state machine one step; too-many-requests never happens; a rejected call changes nothing; the notifications are those of that step and form a legal chain |
| CircuitBreaker.CircuitBreaker.BeforeRequest | pkg/circuitbreaker/circuitbreaker.go:168-189 | admission in each of the three states, including the half-open request counter |
| CircuitBreaker.CircuitBreaker.AfterRequest | pkg/circuitbreaker/circuitbreaker.go:192-226 | what success and failure do to state, counters and failure time |
| CircuitBreaker.CircuitBreaker.Reset | pkg/circuitbreaker/circuitbreaker.go:262-269 | a reset breaker is fresh and notifies open to closed only if it was open |
| CircuitBreaker.CallIff | pkg/circuitbreaker/circuitbreaker.go:142-226 | a call is rejected iff the breaker is open and cools down; a success makes it fresh, a failure lengthens the row, and it is open iff the row has MaxFailures, and one at least |
| CircuitBreaker.NotificationsOfCall | pkg/circuitbreaker/circuitbreaker.go:168-246 | which state changes a call notifies, for a closed, a cooling and a probing breaker |
| CircuitBreaker.StateIsFailureHistory | pkg/circuitbreaker/circuitbreaker.go:168-226 | after any run the state is determined by the failures since the last success or reset: open exactly from the threshold on |
| CircuitBreaker.ProbesAreSpaced | pkg/circuitbreaker/circuitbreaker.go:172-179 | once open, two failures in a row are more than one timeout apart, in every run |
| CircuitBreaker.FailuresFitTheTime | pkg/circuitbreaker/circuitbreaker.go:168-226 | in every run the failures in a row, from any one on at which the breaker is open, fit the elapsed time at one per timeout |
| CircuitBreaker.RateBound | pkg/circuitbreaker/circuitbreaker.go:142-226 | after any history, while nothing succeeds and nobody resets, the executions from the opening failure on fit the elapsed time at one per timeout; if the breaker was already open, all of them do |
| CircuitBreaker.RecoversAfterCoolDown | pkg/circuitbreaker/circuitbreaker.go:172-179 | after the cool-down one successful call is executed and makes the breaker fresh |
| Retention.EnforceRetentionPolicy | controllers/mcpserverbackup_controller.go:1380-1471 | success marks exactly what lies beyond the kept prefix of the sorted completed backups; a refused delete leaves a prefix of the deletions done; no KeepLast, no change; it succeeds iff no delete is refused |
| Retention.Cluster.Delete | controllers/mcpserverbackup_controller.go:108-121 | deleting a backup, which has a finalizer, marks it; it stays in the API server |
| Retention.Cluster.HandleDeletion | controllers/mcpserverbackup_controller.go:156-176 | a marked backup disappears once its cleanup has worked, and stays until then |
| Retention.BuildDeleteList | controllers/mcpserverbackup_controller.go:1418-1448 | the suffix beyond KeepLast, then the aged ones before it, without duplicates |
| Retention.DeleteListKeys | controllers/mcpserverbackup_controller.go:1418-1448 | the deletions are all backups outside the kept prefix, each once, and none inside it |
| Retention.OnlyTheOldestCompletedGo | controllers/mcpserverbackup_controller.go:1397-1448 | only completed backups are deleted, and no survivor is older than a deleted one |
| Retention.EveryDeletionHasAReason | controllers/mcpserverbackup_controller.go:1421-1448 | a position is outside the kept prefix iff the backup is past MaxAge or KeepLast newer ones come before it |
| Retention.AbortedRunInvertsIff | controllers/mcpserverbackup_controller.go:1418-1464 | after a refused deletion an older backup survives a deleted one iff the run stopped inside the KeepLast part or inside the MaxAge part of the list, and the ages in that part differ |
| Retention.TiesDoNotMatter | controllers/mcpserverbackup_controller.go:1411-1414 | any two newest-first orders keep equally many backups of equal ages |
| Retention.RunsCompose | controllers/mcpserverbackup_controller.go:1380-1471 | a run followed by a later one keeps as many, and as old ones, as the later one alone, however many of the marked backups it still finds listed |
| Retention.RerunDeletesAsManyAsAreLeft | controllers/mcpserverbackup_controller.go:1380-1471 | an immediate re-run deletes as many as are left of the marked backups, and nothing once they are gone |
| Retention.RerunDeletesTheKeptOne | controllers/mcpserverbackup_controller.go:1411-1448 | two backups of one second and KeepLast 1: a second run in the other order leaves none |
| Retention.NewerOnesNeverGo | controllers/mcpserverbackup_controller.go:1397-1448 | a run over any part of the backups, now or earlier, deletes nothing newer than the newest one that the policy does not keep |
| Retention.KeptSurviveRunsIff | controllers/mcpserverbackup_controller.go:1380-1471 | the kept backups survive every series of runs over any listings iff the last kept one is strictly newer than the next |
| Retention.OwnBackupGoesIff | controllers/mcpserverbackup_controller.go:1128-1134 | a firing deletes the backup that its schedule belongs to iff it is past MaxAge or KeepLast others come before it |
| BackupSchedule.BackupReconciler.Reconcile | controllers/mcpserverbackup_controller.go:67-177 | what one reconcile stores, whether it creates a backup and whether it fails, over any version it reads, from adding the finalizer to deletion |
| BackupSchedule.BackupReconciler.HandleFinalizer | controllers/mcpserverbackup_controller.go:107-177 | the finalizer is added first; a marked backup goes only if its cleanup worked and the update was accepted; else the reconcile fails and stores nothing |
| BackupSchedule.DeletionEndsIff | controllers/mcpserverbackup_controller.go:156-177 | a reconcile that reads the mark fails, storing nothing, unless the cleanup worked and the update of the latest version was accepted; then the backup is gone |
| BackupSchedule.FinalizerComesFirst | controllers/mcpserverbackup_controller.go:110-122 | a backup without the finalizer gets it, or the reconcile fails and nothing happens; it creates nothing either way |
| BackupSchedule.OnlyRetentionMarks | controllers/mcpserverbackup_controller.go:1125-1134 | a reconcile deletes its backup iff it created one and the retention run deletes it; a held one is thereby marked |
| BackupSchedule.GoneIffCleanedUp | controllers/mcpserverbackup_controller.go:107-177 | over any run, a backup with its finalizer is gone at the end iff some reconcile read the mark on the latest version, cleaned up and had its update accepted |
| BackupSchedule.UntouchedUntilHeld | controllers/mcpserverbackup_controller.go:110-122 | over any run, a new backup stays as it is, and creates nothing, exactly as long as no update of its latest version is accepted |
| BackupSchedule.UnservedReport | controllers/mcpserverbackup_controller.go:124-143 | Suspend comes first and shows Pending; a missing MCPServer shows Failed with its time; one that cannot be read fails and stores nothing |
| BackupSchedule.MalformedReport | controllers/mcpserverbackup_controller.go:1098-1104 | a schedule that does not parse shows Failed with reason InvalidSchedule, and creates nothing |
| BackupSchedule.ScheduledReport | controllers/mcpserverbackup_controller.go:1094-1145 | in the fields of status and environment: when a served schedule creates, fails, which phase and condition it shows, and which times it records |
| BackupSchedule.OneTimeIsLeftAlone | controllers/mcpserverbackup_controller.go:1148-1175 | a completed one-time backup is left alone; one that cannot be shown as running fails and creates nothing |
| BackupSchedule.OneTimeIsRunning | controllers/mcpserverbackup_controller.go:1148-1175 | if only the first write is accepted it shows Running and the time it first did so, although a backup was created |
| BackupSchedule.OneTimeReport | controllers/mcpserverbackup_controller.go:1148-1175 | otherwise it shows how the creation went, with both times and both conditions |
| BackupSchedule.BackupReconciler.FireIfDue | controllers/mcpserverbackup_controller.go:1112-1134 | a due schedule creates a backup and moves the working time; its retention run may mark the backup itself |
| BackupSchedule.BackupReconciler.HandleScheduledBackup | controllers/mcpserverbackup_controller.go:1094-1145 | the fire-if-due rule with its failure paths |
| BackupSchedule.BackupReconciler.HandleOneTimeBackup | controllers/mcpserverbackup_controller.go:1148-1175 | completed backups are left alone; others run, create and are completed or failed |
| BackupSchedule.BackupReconciler.UpdateBackupStatus | controllers/mcpserverbackup_controller.go:1474-1547 | the status written for a phase, stored only if the write is accepted and the version is the latest |
| BackupSchedule.FiresExactlyWhenAnInstantPassed | controllers/mcpserverbackup_controller.go:1112-1115 | for a schedule of fixed instants a reconcile creates a backup iff it can and, in the version it reads, an instant has come since the last recorded firing |
| BackupSchedule.FiresExactlyWhenDelayPassed | controllers/mcpserverbackup_controller.go:1098-1115 | for the schedule "@every d" a reconcile creates a backup iff it can and, in the version it reads, d has passed in whole seconds since the last recorded firing |
| BackupSchedule.CutTimesAreEnough | controllers/mcpserverbackup_controller.go:1112-1126 | keeping the time of the last firing in whole seconds changes no decision, for fixed whole-second instants and for delays |
| BackupSchedule.NoSlotStaysDueIff | controllers/mcpserverbackup_controller.go:1112-1134 | after a reconcile without failure no slot is due iff none was due before, or the backup could be created and the schedule has a later instant |
| BackupSchedule.FailedCreationLeavesSlotDue | controllers/mcpserverbackup_controller.go:1117-1124 | a concrete reconcile that succeeds, creates nothing and leaves the slot due |
| BackupSchedule.FiringsAreSeparated | controllers/mcpserverbackup_controller.go:1112-1128 | for every schedule, every run, whichever versions its reconciles read, and whatever was recorded before, there is a schedule time between two recorded firings |
| BackupSchedule.FiringsAreBounded | controllers/mcpserverbackup_controller.go:1112-1128 | at most as many firings as instants since the first recorded one, so missed slots coalesce |
| BackupSchedule.DelayedFiringsAreBounded | controllers/mcpserverbackup_controller.go:1112-1128 | with "@every d" the firings fit the elapsed time at one per d |
| BackupSchedule.InstantsAreCounted | controllers/mcpserverbackup_controller.go:1112-1128 | the number of instants in that bound is the number of schedule times in the interval |
| BackupSchedule.NeverMatchingAlwaysFires | controllers/mcpserverbackup_controller.go:1106-1115 | an expression that never matches makes every reconcile that can create a backup |
| BackupSchedule.CreationsAreBounded | controllers/mcpserverbackup_controller.go:1112-1140 | a run creates no more backups than instants and statuses that did not land together, and one if none was recorded before |
| BackupSchedule.UnlandedAreCounted | controllers/mcpserverbackup_controller.go:1474-1507 | the statuses that did not land in that bound are those refused, made on an older version, or overtaken by the mark |
| BackupSchedule.LaggingReadCreatesAgain | controllers/mcpserverbackup_controller.go:1112-1124 | a reconcile that still reads the version before a firing creates a second backup for the same slot |
| BackupSchedule.RetiringFiringIsTheLast | controllers/mcpserverbackup_controller.go:1125-1142 | a firing that deletes its own backup creates, fails, is not recorded, and nothing is created after it |
| BackupSchedule.CompletedIsRecreatedIff | controllers/mcpserverbackup_controller.go:125-142 | a completed one-time backup is created again along a run iff a demotion is followed by a reconcile that can create; reads of older versions do neither |
| BackupSchedule.RecreatedAfterServerReturns | controllers/mcpserverbackup_controller.go:131-142 | a concrete run that creates a completed backup a second time |
| TtlCache.CacheService.GetRegistry | pkg/services/cache_service.go:80-94 | answers from the latest Set not invalidated, cleared or expired; counts the hit or miss; touches nothing else |
| TtlCache.CacheService.SetRegistry | pkg/services/cache_service.go:97-110 | extends the registry log by a Set; the other maps are untouched |
| TtlCache.CacheService.InvalidateRegistry | pkg/services/cache_service.go:113-119 | extends the registry log by an invalidation |
| TtlCache.CacheService.GetMCPServer | pkg/services/cache_service.go:122-136 | as GetRegistry, for servers |
| TtlCache.CacheService.SetMCPServer | pkg/services/cache_service.go:139-152 | as SetRegistry, for servers |
| TtlCache.CacheService.InvalidateMCPServer | pkg/services/cache_service.go:155-161 | as InvalidateRegistry, for servers |
| TtlCache.CacheService.GetRegistryServers | pkg/services/cache_service.go:164-178 | as GetRegistry, for server lists |
| TtlCache.CacheService.SetRegistryServers | pkg/services/cache_service.go:181-197 | as SetRegistry, for server lists |
| TtlCache.CacheService.InvalidateRegistryServers | pkg/services/cache_service.go:200-206 | as InvalidateRegistry, for server lists |
| TtlCache.CacheService.ClearExpired | pkg/services/cache_service.go:209-242 | leaves all three logs alone, so no later Get sees it; nothing that had expired when it began remains; the counts add up; the clock is read for each entry |
| TtlCache.CacheService.ClearAll | pkg/services/cache_service.go:245-256 | clears all three logs and keeps the counters |
| TtlCache.CacheService.GetStats | pkg/services/cache_service.go:259-286 | hits are the successful Gets, hits and misses together all Gets, per family; entries are counted, and expired entries between the start and the end of the count |
| TtlCache.DropExpired | pkg/services/cache_service.go:215-237 | the loop drops only expired entries, and all that had expired when it began, and counts them |
| TtlCache.CountExpired | pkg/services/cache_service.go:266-283 | the count lies between the numbers of entries expired at its start and at its end |
| TtlCache.FoundIsYoungerThanTtl | pkg/services/cache_service.go:122-152 | what a Get finds was set at most one time-to-live ago and is still in force |
| TtlCache.FoundIffInForce | pkg/services/cache_service.go:17-22 | a Get finds a value iff the last call that touched its key is a Set whose own time to live is not over, and finds what that Set stored |
| TtlCache.CountersCountGets | pkg/services/cache_service.go:80-178 | hits are the Gets for which such a Set existed, and hits and misses together all Gets |
| CachedLookup.GetMCPServerByNameIndexed | controllers/mcpserver_controller.go:713-753 | the lookup on its own: cached answer, or the unique match in the index, which is then cached for five minutes |
| CachedLookup.AloneIsTheMethod | controllers/mcpserver_controller.go:713-753 | a check, a List and a Fill that nothing comes between are that method |
| CachedLookup.SweepIsInvisible | pkg/services/cache_service.go:209-242 | sweeping between lookups drops expired entries only and changes no answer |
| CachedLookup.ListedInAllNamespaces | controllers/mcpserver_controller.go:725-744 | without a namespace a name is found iff exactly one object has it |
| CachedLookup.CacheKeyIsInjective | controllers/mcpserver_controller.go:715-715 | keys of plain namespaces name one namespace and one server |
| CachedLookup.ColonsMakeKeysCollide | controllers/mcpserver_controller.go:715-715 | with a colon in the namespace two servers share a key |
| CachedLookup.HitsAreBoundedlyStale | controllers/mcpserver_controller.go:713-753 | in every interleaving a hit returns what the store held for that namespace and name when it was as the index showed it at the List of one earlier lookup, whose Fill was at most five minutes ago |
| CachedLookup.CoherenceLasts | controllers/mcpserver_controller.go:713-753 | every step but a write of the server keeps cache, flights and index in agreement with the store |
| CachedLookup.InvalidateRefreshesIff | controllers/mcpserver_controller.go:229-244 | after an invalidate all later hits are current, in every continuation, iff no lookup in flight holds an outdated result and the index neither shows nor is still to show one |
| CachedLookup.PatchedObjectIsSeen | controllers/mcpserver_controller.go:229-244 | once the index shows the patched object, with no lookup of it in flight, every lookup after an invalidate misses or sees the patch |
| CachedLookup.PatchCanBeMissed | controllers/mcpserver_controller.go:229-244 | after every patch that changes the object, invalidating at once, as Reconcile does, leaves a continuation that caches the old object |
| Conditions.Resource.SetCondition | pkg/services/status_service.go:77-150 | the loop of both service setters is one map-like update of the slice |
| Conditions.Resource.SetControllerCondition | controllers/mcpregistry_controller.go:329-354 | the registry controller's own setter produces the same slice |
| Conditions.Resource.UpdateConditions | controllers/mcpserverbackup_controller.go:1536-1547 | the backup setter replaces or appends, and always moves the transition time |
| Conditions.Resource.GetCondition | pkg/services/status_service.go:184-201 | finds the first condition of a type, if there is one |
| Conditions.UpsertRefinesMapUpdate | pkg/services/status_service.go:90-111 | the slice refines a map: the named type is set, every other lookup unchanged |
| Conditions.UpsertKeepsOrder | pkg/services/status_service.go:90-111 | types keep their places, uniqueness is kept, other entries are untouched |
| Conditions.TransitionMovesOnChange | pkg/services/status_service.go:90-111 | the transition time moves exactly when the status changes or the type is new |
| Watchdog.MCPServer.DeploymentBlock | controllers/mcpserver_controller.go:383-530 | the status at the end of the block and whether the watchdog fired |
| Watchdog.MCPServer.ObserveDeployment | controllers/mcpserver_controller.go:430-499 | phase, counts and conditions for each state of the Deployment |
| Watchdog.MCPServer.CheckDeploymentTimeout | pkg/services/status_service.go:279-320 | pending, progressing, and for longer than the timeout |
| Watchdog.MCPServer.MarkDeploymentAsTimedOut | pkg/services/status_service.go:323-340 | phase Failed and both conditions False |
| Watchdog.IsDeploymentRollingUpdate | controllers/mcpserver_controller.go:878-927 | the loop and the tests decide whether a rollout is under way |
| Watchdog.AtWorkIsRollingUpdate | controllers/mcpserver_controller.go:878-927 | in the Deployment's own fields: a newer generation than observed, too many replicas, a partial update, updated replicas not ready, or a condition that says so |
| Watchdog.ReadyCanBeTrustedIff | controllers/mcpserver_controller.go:383-517 | Ready=True on exit means Running, not progressing and all desired replicas ready, except iff apply failed on a Ready server |
| Watchdog.ReadyIff | controllers/mcpserver_controller.go:430-470 | after applying, Ready is True iff the Deployment was read, its controller is done, and all desired replicas, at least one, are ready |
| Watchdog.BlockTells | controllers/mcpserver_controller.go:383-517 | the whole report after applying, in the Deployment's own fields: phase, counts, and status and reason of Applied, Progressing and Ready for every state and for the timeout |
| Watchdog.GatewayReadyIff | controllers/mcpserver_controller.go:519-536 | GatewayReady is True iff the gateway is off or some replica is ready, with its three reasons |
| Watchdog.FailedApplyTells | controllers/mcpserver_controller.go:394-407 | a failed apply shows in phase and Applied, and leaves Ready, the gateway and the counts as they were |
| Watchdog.FiresIffOutOfTime | pkg/services/status_service.go:279-320 | the timeout fires iff resources were applied, the Deployment is left pending or could not be read, and Progressing has been True for more than ten minutes |
| Watchdog.TransitionTimeIsStreakStart | pkg/services/status_service.go:93-104 | in every run the stored transition time of Progressing=True is the whole second in which the first pass of the unbroken streak started |
| Watchdog.FiresExactlyWhenOverdue | controllers/mcpserver_controller.go:501-517 | the timeout fires iff the pass leaves the server Pending more than ten minutes after the whole second in which the streak that it reads began; firing ends the streak if its status lands |
| Watchdog.FiringsAreTenMinutesApart | controllers/mcpserver_controller.go:501-517 | two firings are more than ten minutes less a second apart if the later pass reads a version from after the end of the streak, as any version since a stored first firing is, or reads no streak |
| Watchdog.FiresAgainIff | controllers/mcpserver_controller.go:501-544 | a pass that reads a streak no younger than the one that an earlier pass fired on fires iff it leaves the server Pending |
| Watchdog.AfterFiringIff | controllers/mcpserver_controller.go:501-544 | for a firing on the latest version nothing but these two cases is possible, and the second one needs a refused write or a lagging read |
| Watchdog.FiringsMayCrowd | controllers/mcpserver_controller.go:541-544 | two runs with firings a nanosecond apart, one after a refused write and one by a lagging read |
| Watchdog.GapCanBeShort | pkg/services/status_service.go:93-104 | with all writes accepted and no lag, two firings at the least distance that the bound allows |
| Backoff.Pow | pkg/retry/github_retry.go:439-445 | the loop computes the power |
| Backoff.DelayIsBounded | pkg/retry/github_retry.go:394-457 | a delay is never negative and at most a tenth above its cap, or at most the cap without jitter |
| Backoff.DelayIsMonotone | pkg/retry/github_retry.go:394-436 | without jitter delays never shrink as attempts go on |
| Backoff.DelayIsExponential | pkg/retry/github_retry.go:394-436 | without jitter a delay is base times multiplier^n in whole nanoseconds, or the cap if that is more |
| Backoff.JitterIsATenth | pkg/retry/github_retry.go:447-457 | with jitter it is within a tenth of that either way, grows with the random number, and is a tenth below it for 0 and equal to it for one half |
| Backoff.NegativeDelays | pkg/retry/github_retry.go:447-457 | below zero delays are cut toward zero; jitter leaves a tenth in one retrier and the base delay in the other |
| Backoff.CappedRecurrence | pkg/retry/github_retry.go:394-436 | each delay is the previous one times the multiplier, up to the cap |
| Backoff.RetriersAgree | pkg/retry/retry.go:190-213 | the general retrier computes the same delay for every random number |
| Backoff.ServiceAgreesIff | pkg/services/retry_service.go:87-97 | the retry service computes the same delay iff its product fits in 64 bits or the platform's conversion reaches the cap |
| GitHubRetry.DoWithGitHubRetry | pkg/retry/github_retry.go:248-345 | the loop makes the calls up to the first attempt with a verdict, sleeping each attempt's delay; it panics behind the loop iff MaxRetries is negative |
| GitHubRetry.RetriedIff | pkg/retry/github_retry.go:348-391 | a failure is retried iff it is of the network, a 403 or 429, or of any other status but 401 and 404, and the limit of its own sort is not reached |
| GitHubRetry.DelayByKind | pkg/retry/github_retry.go:348-391 | and after this delay: for network and other errors the exponential one of their own base and cap; for a rate limit the reset if it is ahead and within the cap, else Retry-After if within the cap, else the exponential one |
| GitHubRetry.LoopEndsIff | pkg/retry/github_retry.go:248-345 | the loop goes on after an attempt iff it failed, may be retried, is not the last and nobody cancelled; which result ends it |
| GitHubRetry.ReportedErrorIsTheLast | pkg/retry/github_retry.go:166-345 | the reported error is the last one, with its status and its own or a fixed text |
| GitHubRetry.SevenWordsDecide | pkg/retry/github_retry.go:166-245 | an error text reads like a network problem iff it contains, once lower-cased, one of seven words; the other two patterns never decide |
| GitHubRetry.RetriedWithinOwnLimit | pkg/retry/github_retry.go:348-391 | every retried error was below the limit of its own kind, and neither auth nor not-found |
| GitHubRetry.CallsAreBounded | pkg/retry/github_retry.go:248-345 | at most one call more than MaxRetries and than any bound on the limits of the retried kinds |
| GitHubRetry.AuthAndNotFoundEndTheLoop | pkg/retry/github_retry.go:377-379 | an auth or not-found error is the last call and the reported one |
| GitHubRetry.RetriesBeforeResetIff | pkg/retry/github_retry.go:350-369 | a rate-limited request is retried before the announced reset only if the reset lies beyond the cap, and without jitter iff it does; a reset within the cap is waited for exactly |
| GitHubRetry.FinalStatusIsRecognisedIff | pkg/retry/github_retry.go:166-245 | a 401 or 404 is final iff the error text does not read like a network problem |
| GitHubRetry.TotalSleepIsBounded | pkg/retry/github_retry.go:248-345 | all sleeps together are at most 1.1 times the largest cap for each retry |
| GitHubRetry.DoWithRetryable | pkg/retry/retry.go:130-187 | the calls go up to the first attempt that succeeds, is fatal, is the last or is cancelled; at most MaxRetries + 1 |
| GitHubRetry.RetryWithBackoff | pkg/services/retry_service.go:34-74 | at most maxRetries calls up to the first success; with zero or less it fails without calling |
| FailureTracker.BackoffByCount | pkg/services/auto_update_service.go:463-471 | in 64-bit arithmetic the backoff is min(2^(n-1), 1440) minutes for 1 to 63 failures and zero iff fewer or more |
| FailureTracker.BackoffNeverShrinksBefore64 | pkg/services/auto_update_service.go:463-471 | up to 63 failures the backoff never shrinks |
| FailureTracker.AutoUpdateService.CheckForUpdates | pkg/services/auto_update_service.go:68-171 | every tick keeps counts, times and retry times equal to the history and attempts no server before its time |
| FailureTracker.AutoUpdateService.IsInBackoffPeriod | pkg/services/auto_update_service.go:431-438 | waiting iff the history says so |
| FailureTracker.AutoUpdateService.RecordFailure | pkg/services/auto_update_service.go:441-455 | one more failure in the row of this server, nobody else touched |
| FailureTracker.AutoUpdateService.RecordSuccess | pkg/services/auto_update_service.go:458-460 | ends the row of this server, nobody else touched |
| FailureTracker.FailedUpdateIsRecorded | pkg/services/auto_update_service.go:131-155 | a visit whose update fails adds one failure, at that time, and one error |
| FailureTracker.DoneUpdateEndsTheRow | pkg/services/auto_update_service.go:156-161 | a visit whose update is done leaves no failure and counts one update |
| FailureTracker.OtherVisitsRecordNothing | pkg/services/auto_update_service.go:82-123 | a server without registry, still waiting or up to date is left alone; a need that cannot be told counts as an error only |
| FailureTracker.VisitsAreSeparate | pkg/services/auto_update_service.go:441-460 | a visit changes no other server's failures |
| FailureTracker.ServersAreVisitedInOrder | pkg/services/auto_update_service.go:82-162 | a tick visits the listed servers one after the other |
| FailureTracker.FailuresAreSpreadOut | pkg/services/auto_update_service.go:99-155 | failures in a row are spread over at least the sum of their backoffs |
| FailureTracker.WaitedOutInMinutes | pkg/services/auto_update_service.go:463-471 | that sum is 2^(n-1) - 1 minutes for up to twelve failures, then one day more for each, and constant from 64 on |
| FailureTracker.NoBackoffAfter64 | pkg/services/auto_update_service.go:431-471 | from 64 failures on the next tick tries again at once |
| Templates.MCPServer.EnrichFromCache | pkg/services/registry_service.go:380-559 | field by field what the user set, else the template, else the default; unchanged on error |
| Templates.MCPServer.EnrichTransport | pkg/services/registry_service.go:482-527 | the nested cases come down to: own value, template value, guess from ports |
| Templates.MCPServer.EnrichRuntime | pkg/services/registry_service.go:456-480 | runtime fields filled, image only for docker, environment merged in favour of the user |
| Templates.AnnotationsAreFilledFrom | pkg/services/registry_service.go:438-458 | each of the five annotations, by its key, is the user's value or else its own field of the template; the digest is the template's if it has one; no other changes |
| Templates.GapsAreFilledFrom | pkg/services/registry_service.go:456-550 | what an empty type, image, command, arguments, environment key, transport or port list is filled with |
| Templates.MCPServer.ApplyTemplateUpdates | pkg/services/auto_update_service.go:366-398 | the template overwrites runtime and annotations and wins in the environment; what that means is `TemplatesEnvironmentWins`, `AnnotationsAreOverwrittenFrom`, `RuntimeIsOverwrittenFrom` |
| Templates.TemplatesEnvironmentWins | pkg/services/auto_update_service.go:384-389 | every environment key of the template has the template's value, every other key the server's, and there are no more |
| Templates.AnnotationsAreOverwrittenFrom | pkg/services/auto_update_service.go:366-397 | each of the five annotations, by its key, equals its own field of the template; the digest too if there is one; no other annotation changes |
| Templates.RuntimeIsOverwrittenFrom | pkg/services/auto_update_service.go:377-382 | type, image, command and arguments are the template's; port, transport and ports stay the server's |
| Templates.MCPServer.IsUpdateRequired | pkg/services/auto_update_service.go:247-323 | decides whether digest, version, image, type, command or arguments differ |
| Templates.SameStrings | pkg/services/auto_update_service.go:407-425 | the comparison loop decides equality |
| Templates.MergeMissing | pkg/services/registry_service.go:476-480 | the loop adds only missing keys |
| Templates.MergeOver | pkg/services/auto_update_service.go:387-389 | the loop overwrites with the template's keys |
| Templates.EnrichmentIsIdempotent | pkg/services/registry_service.go:433-550 | a second enrichment changes nothing |
| Templates.EnrichmentOnlyFills | pkg/services/registry_service.go:433-550 | enrichment changes no non-empty field, environment key or annotation except the digest |
| Templates.PatchOfLatestIsEnrichment | controllers/mcpserver_controller.go:187-233 | the patch of a reconcile that read the latest version is the enrichment |
| Templates.PatchOnlyFillsIff | controllers/mcpserver_controller.go:187-233 | a patch from an older version only fills iff nothing that it fills was filled otherwise in the meantime |
| Templates.PatchOfRemovedTransport | controllers/mcpserver_controller.go:187-233 | of a transport that was removed in the meantime only what enrichment changed comes back |
| Templates.UsersImageIsOverwritten | controllers/mcpserver_controller.go:187-233 | an image that the user sets while a reconcile reads the server without one is replaced by the template's |
| Templates.TransportIsChosen | pkg/services/registry_service.go:499-527 | a transport type is always set; the guess is stdio iff the template has no ports |
| Templates.ApplyingReachesAFixpoint | pkg/services/auto_update_service.go:247-398 | after applying no update is required; applying twice is applying once; other environment keys stay |
| Templates.NotRequiredStillDiffersIn | pkg/services/auto_update_service.go:247-398 | no update is required iff applying one could only change environment, descriptive annotations and a missing digest |
| Templates.EnrichmentKeepsUpToDateIff | pkg/services/registry_service.go:433-550 | enriching an up-to-date server from the cached template makes an update required iff the cached and the live template are incompatible |
| Templates.EnrichedBareServerIsUpToDateIff | pkg/services/registry_service.go:456-468 | a server left wholly to the registry needs an update after enrichment iff it is not docker and the template has an image |
| Templates.UpdatesAtMostOnceIff | pkg/services/auto_update_service.go:91-161 | with a fixed live and a fixed cached template, every run of reconciles and ticks updates at most once iff the two are compatible |
| Templates.UpdatesArePaidFor | pkg/services/auto_update_service.go:91-161 | with any cached copies, a run has at most one update more than reconciles that read an incompatible copy |
| Templates.UpdatesWithoutEnd | pkg/services/registry_service.go:548-550 | with an incompatible copy every round of reconcile and tick is one more update |
| Templates.LaggingCopyUpdatesWithoutEnd | pkg/services/registry_service.go:548-550 | two templates that differ in the digest only and a thousand updates |
| Templates.OtherTicksChangeNothing | pkg/services/auto_update_service.go:110-161 | a tick that fetches nothing, is refused or finds nothing to update changes nothing and counts nothing |
| ReconcilePath.Store.Reconcile | controllers/mcpserver_controller.go:77-290 | what a reconcile stores, including the conditions of its early exits, and where it ends, up to rendering |
| ReconcilePath.Store.EnrichAndPatch | controllers/mcpserver_controller.go:187-253 | every way through the gate ends the reconcile |
| ReconcilePath.Store.Validate | controllers/mcpserver_controller.go:255-286 | where the checks behind the gate end, and the condition that each failure stores |
| ReconcilePath.EndsWhere | controllers/mcpserver_controller.go:95-290 | where a reconcile ends, exit by exit, in the object's own fields: a deleted object leaves before the gate, a failed update before it |
| ReconcilePath.StoresWhat | controllers/mcpserver_controller.go:118-165 | the deprecated name is copied unless that update fails; the finalizer is there once its update was accepted |
| ReconcilePath.EnrichesIffRequeued | controllers/mcpserver_controller.go:187-253 | the server changes only on the way that asks for another reconcile |
| ReconcilePath.ReportsWhat | controllers/mcpserver_controller.go:199-286 | which exits report what in which condition, leaving the other one alone |
| ReconcilePath.ValidatedWhere | pkg/services/validation_service.go:184-208 | behind the gate: which registry reference is valid, and that the validator comes before the quotas |
| ReconcilePath.GateIsEnteredIff | controllers/mcpserver_controller.go:112-188 | the gate is entered iff a registry name resolves; otherwise the registry check fails |
| ReconcilePath.NeverRenders | pkg/services/validation_service.go:184-208 | no run of reconciles and edits reaches rendering |
| ReconcilePath.RequeuesForever | controllers/mcpserver_controller.go:187-253 | with everything in order the first pass enriches and every further pass changes nothing and requeues |
| ReconcilePath.MissingIsNeverCleared | controllers/mcpserver_controller.go:199-251 | no run ever stores RegistryFetched=True, and a stored CacheMissing keeps its status and transition time for ever |
| ReconcilePath.GuardedRunRenders | controllers/mcpserver_controller.go:187-290 | with an already-enriched guard the first pass enriches and requeues, if there is anything to enrich, and every later one renders and changes nothing |
| Ports.CollectContainerPorts | pkg/services/resource_builder_service.go:504-556 | the loop and the fallbacks give the collected ports |
| Ports.BuildServicePorts | pkg/services/resource_builder_service.go:85-143 | the gateway port, or one service port for each collected port with equal target and protocol |
| Ports.BuildContainer | pkg/services/resource_builder_service.go:559-840 | probes connect to the number of a declared port, and exist iff there are ports |
| Ports.CollectedFromFields | pkg/services/resource_builder_service.go:504-556 | a positive target port wins over the port, UDP only by its name, then the runtime's port, then 8080; none for stdio without gateway |
| Ports.ContainerFromFields | pkg/services/resource_builder_service.go:559-840 | declared ports and probe of the gateway, binary and plain container, with the defaults 8000 and 8080 |
| Ports.ServiceFromFields | pkg/services/resource_builder_service.go:85-143 | what the Service targets and where the VirtualService goes, in the fields of the spec |
| Ports.ServiceReachesContainerIff | pkg/services/resource_builder_service.go:85-840 | for every spec, all targets of the rendered Service, ports with their protocols, are declared by the container iff the stated condition on the spec holds |
| Ports.VirtualServiceReachesServiceIff | pkg/services/resource_builder_service.go:1627-1639 | for every spec, the VirtualService routes to a port that is served over TCP iff a Service is rendered and the chosen port is the gateway default or the first port is served over TCP |
| Ports.PlainServersAgreeIff | pkg/services/resource_builder_service.go:504-637 | without gateway, binary and stdio the Service targets exactly what the container declares, and probe and route reach it iff the first port is served over TCP |
| Ports.UdpPortIsProbedOverTcp | pkg/services/resource_builder_service.go:559-637 | a single UDP port is probed over TCP, which the container does not declare |
| Ports.DefaultGatewayIsUnreachable | pkg/services/resource_builder_service.go:741-757 | a stdio gateway with no port serves 8080 on a container declaring 8000 |
| Naming.SanitisedShape | pkg/registry/cache/cache_manager.go:23-40 | the sanitiser yields 1 to 253 allowed characters with an alphanumeric start, and a host name unless the cut ends on a separator |
| Naming.MappedCharByChar | pkg/registry/cache/cache_manager.go:23-40 | a name with alphanumeric ends is lower-cased and hyphenated character by character |
| Naming.MappedLetterByLetter | pkg/registry/cache/cache_manager.go:20-28 | which characters are kept, lower-cased or replaced, letter by letter |
| Naming.SanitisedForm | pkg/registry/cache/cache_manager.go:23-40 | any name is mapped character by character, loses its outer hyphens and dots and is cut to 253; if nothing is left it becomes "server" |
| Naming.FixpointIff | pkg/registry/cache/cache_manager.go:23-40 | fixpoints are exactly the host names (section 2.1 of RFC 1123) of up to 253 characters |
| Naming.IdempotentIff | pkg/registry/cache/cache_manager.go:23-40 | sanitising twice is sanitising once iff the cut does not end on a separator |
| Naming.FindMCPServersForConfigMap | controllers/mcpserver_controller.go:646-710 | every requeued server reads exactly this ConfigMap, and every server that resolves to its pair is requeued |
| Naming.WatchMatchesWriter | pkg/registry/cache/cache_manager.go:50-84 | for a written ConfigMap the users are the servers resolving to its registry and sanitised directory |
| Naming.RequeuedIff | controllers/mcpserver_controller.go:646-710 | in the fields of the reference: the current registry field before the deprecated one, the server's own name for a missing directory |
| Naming.ReaderIsWatchedIff | pkg/services/registry_service.go:393-420 | a server that reads a written ConfigMap is requeued for it iff its registry name has the writer's length |
| Naming.ForeignConfigMapIsRead | pkg/services/registry_service.go:400-400 | a concrete server that reads another registry's ConfigMap |
| Naming.ReadableUnderItselfIff | pkg/services/registry_service.go:393-420 | a directory is readable under its own spelling iff that is a host name |
| Naming.SharedConfigMapIff | pkg/registry/cache/cache_manager.go:60-117 | two directories, or a directory and the index, share a ConfigMap iff they sanitise alike, or to "index" |
| RegistryUrl.UnescapeUndoesEscape | pkg/registry/client.go:305-307 | query unescaping undoes query escaping on all byte strings |
| RegistryUrl.EscapesOfBytes | pkg/registry/client.go:305-307 | percent encoding as in sections 2.1 and 2.3 of RFC 3986, with a plus for a space |
| RegistryUrl.CleanRoundTrip | pkg/registry/github/github_client.go:88-126 | for clean names parsing returns owner, name, the listed path and branch, with defaults |
| RegistryUrl.RoundTripIff | pkg/registry/client.go:636-655 | parsing the list URL returns what it was built for iff owner, name and the listed path are clean |
| RegistryUrl.BasePathIsConfigured | pkg/registry/client.go:637-641 | what is listed is the configured path without its outer slashes, or "servers" if it has nothing else |
| RegistryUrl.ListUrlText | pkg/registry/client.go:643-654 | the list URL, part by part |
| RegistryUrl.TidyRoundTripIff | pkg/registry/client.go:636-655 | a path without outer slashes and a named branch come back as configured iff owner, name and path are clean |
| RegistryUrl.DefaultsComeBack | pkg/registry/client.go:637-647 | without path and branch, "servers" and "main" come back iff owner and name are clean |
| RegistryUrl.ParsedIff | pkg/registry/github/github_client.go:88-126 | which URLs the parser accepts, and what it returns for them |
| RegistryUrl.FirstRefCounts | pkg/registry/github/github_client.go:113-117 | the branch is the first query piece that gives a ref |
| RegistrySync.ListServers | pkg/registry/client.go:298-373 | on success the directories of the one page that arrived, so retries never duplicate; nothing otherwise |
| RegistrySync.PagesAreClassified | pkg/registry/client.go:321-349 | how the retrier sees a page: a failed request or an unreadable answer is a network error only by its text, and any status but 404 counts as itself |
| RegistrySync.DirectoriesItemByItem | pkg/registry/client.go:351-361 | exactly the directories of a page are listed, in its order |
| RegistrySync.MissingPathIsFinalIff | pkg/registry/client.go:331-334 | a 404 on the listing is final iff the URL does not read like a network problem |
| RegistrySync.SpelledProblemIsRetried | pkg/registry/client.go:331-334 | a 404 is taken for a network error if any part of the URL, once lower-cased, spells a network problem |
| RegistrySync.MissingRegistryTakenForNetwork | pkg/registry/client.go:331-334 | two concrete list URLs whose 404 is retried, one of them only because of a non-ASCII letter |
| RegistrySync.SyncRepository | pkg/registry/client.go:664-704 | specifications, errors in order, first digest and count of one synchronisation |
| RegistrySync.RevisionIsTheFirstDigest | pkg/registry/client.go:687-693 | the revision is the first digest that is not empty, or empty |
| RegistrySync.LastFetchCounts | pkg/registry/client.go:686-686 | of a name fetched more than once the last specification counts |
| RegistrySync.NamesStandInOrder | pkg/registry/client.go:672-681 | errors come in listing order |
| RegistrySync.PopulateStatus | controllers/mcpregistry_controller.go:184-218 | the status lists the servers with a specification and the first ten errors |
| RegistrySync.StatusStandsInOrder | controllers/mcpregistry_controller.go:184-211 | the servers in the status come in listing order |
| RegistrySync.StatusCountsAgreeIff | controllers/mcpregistry_controller.go:184-211 | the discovered count equals the length of the listed servers iff no fetched server shares its name with another listed one |
| RegistrySync.EveryServerIsCountedOnce | pkg/registry/client.go:670-704 | for distinct names every server is exactly one of specification, error and skipped, and the status shows the specifications |

## Left out

- Kubernetes, GitHub, S3 and file-system calls: their outcomes are parameters; YAML, JSON and hashing are not part of this model.
- Metrics, logs, events, command-line tools, webhooks, tenant quotas and the remaining field validation: one-branch checks or no state.
- Message texts of conditions and statuses, the Istio condition and the GCS, Azure and S3 storage stubs: they carry no further state.
- Breaker and cache calls are atomic and sequential, as their locks make them; a panic or a nested call inside the protected function, and counter increments lost under the read lock, are not modelled.
- BackupSchedule.FiringsAreBounded: counts instants for schedules that have fixed ones, and `BackupSchedule.DelayedFiringsAreBounded` elapsed time for delays, since those have none.
- BackupSchedule.BackupReconciler.Reconcile: of the retention run after a creation only its effect on the backup itself is part of it, since its result is ignored; the cleanup of a deleted backup is one outcome.
- Watchdog.TransitionTimeIsStreakStart: covers reconciles that run the block; deletion and early exits are not part of these runs.
- Watchdog.MCPServer.DeploymentBlock: has its own entry point, since the shipped reconcile never reaches the block.
- Backoff.RetriersAgree: rounding of floating-point delays is not modelled; zero settings that the constructor replaces are taken as replaced.
- Templates: a nil map or slice and an empty one are the same value, since the stored object cannot tell them apart.
- The files and indexes that the cleanup of a backup removes, and the Kubernetes objects besides Deployment, Service and VirtualService that the renderer emits: no further state.
- ReconcilePath.Store.Reconcile: reads the latest version of the object; what the patch of an older one does is `Templates.PatchOnlyFillsIff`.
- Ports: ports are unbounded integers; gateway arguments, environment variables and the separate Istio controller are left out.
- RegistryUrl.RoundTripIff: of net/url only https URLs without user information, on byte strings; the parser of plain repository URLs has no builder to match.
- Cleaning up orphaned ConfigMaps, fetching single files and local registries: easier variants of what is modelled.
