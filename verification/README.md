# AxisML: verified core

A Dafny model of the parts of AxisML whose correctness is not visible from any single function:
protocols that interleave, caches over changing tables, and transformations of graphs of schemas.
Everything is stated over all inputs, all runs or all reachable states.

| area | modules | main results |
|---|---|---|
| ElasticQuota accounting | `Resources`, `QuotaCache`, `ElasticQuota`, `Chains`, `ElasticProgress` | the incremental cache equals the from-scratch sum for every call sequence; a level-triggered controller never leaves a stale status without a pending key, a drained queue means exact statuses, and from every reachable state an undisturbed stretch publishes the exact one |
| Login rate limiter | `RateLimit` | pruning is unobservable, and the rate bound holds, exactly when a bucket refills before it may be dropped |
| Session allowlist and identity cache | `Sessions`, `IdentityCache`, `IdentityEffects`, `IdentityRaces` | an ended session fades within ttl + lag under every interleaving and Redis failure; the cached identity equals the tables in every serial run, and its parts are at most ttl + lag old in every interleaving |
| Tenant membership | `Roles`, `RoleLocks` | the last-admin guard under row locks, and the exact condition under which it is enough |
| Run names, configuration expansion | `Decimal`, `Runner`, `EnvExpand` | every name conflict is charged to a distinct creation; the substitution buffer refines a recursive specification |
| OpenAPI generation, folding, scoping | `Graphs`, `MarkedWalks`, `Strings`, `ApiGen`, `ApiFields`, `ApiShapes`, `ApiDocs`, `ApiRender`, `ApiFold`, `ApiScope`, `ApiAssembly` | generation terminates with every reference resolved; the worklist is the least closure; from the component documents to what is served nothing dangles and every path keeps its meaning |
| Standalone stores | `VersionedStore`, `Stores`, `PoolSpecs`, `Base64Url`, `Paging` | no lost update, tombstones survive restarts, cursor paging is exact while the table changes |

## How the source is represented

- Objects whose methods update fields (`Cache`, `RateLimiter`, `SessionCache`, `RoleRepo`, `Platform`,
  `Generator`, `Document`, `Store`) are classes; each method is tied to a specification function and the
  results are lemmas about that function. Loops stay loops. Go map iteration is a loop that picks any
  remaining key.
- Concurrency is a state machine whose steps are the database, Redis, API-server and queue calls; a run is
  any sequence of them, and a step that is not enabled is not taken. Remote failures are part of the step
  (`dbOk`, `setOk`, `applied`, ...).
- Clocks, uids, listings, label selectors and remote outcomes are parameters.
- 64-bit integers are explicit where the wrap-around can be reached by a caller (`Decimal`, `Runner`).
- The work queue, the informers and PostgreSQL row locks appear through their contracts: a dirty key is queued
  once it is not in process; the watch delivers some version of a quota; a locking read returns
  some part of the current admin rows, which nobody else can lock or replace until commit.

## Where the code and its promises differ

- `store/roles.go` locks the admin rows so that concurrent changes cannot lose the last tenant-admin. A
  statement that waits for a row which is deleted and re-inserted goes on without it, and the member's own row
  is read without a lock. `RoleLocks.UnsightedRunLosesAdmin` and `RoleLocks.SplitPairLosesAdmin` are such runs;
  `RoleLocks.CommitSafeIffSighted` is the exact condition.
- `store/identity.go` reads the account and the bindings in two queries, so an identity can be returned and
  cached that the tables never gave: `IdentityRaces.TornIdentity`, with the exact condition in
  `IdentityRaces.WholeRecentIff`.
- `generator.go` (13-16) wants one canonical shape per type. Registering a struct for input under its own
  component name breaks it unless every always-present field is bound as required: `ApiShapes.CanonicalIff`.
- `openapi.go` (86-93) promises a scoped document free of dangling references. The folded document that is
  served keeps the promise (`ApiAssembly.ServedNeverDangles`), because it refers from paths and schemas only.
  For documents in general `ApiScope.ScopedDanglesIff` is the exact condition and
  `ApiScope.SharedResponseDangles` an example that fails.
- `ratelimit.go` calls dropped buckets full. With `full` truncated to seconds that is true exactly under
  `RateLimit.RefilledWhenPruned`, which the deployed limits meet.
- A folded component may have a dangling reference captured by another component:
  `ApiFold.FoldPreservesMeaningIff`.
- `elasticquota.go` enqueues only the new object's quota key: `ElasticQuota.UpdateSafeIffQuiet`.
- A run's number can wrap around at 64 bits: `Runner.NextNameIsFreeIff`.
- The tenant store does not validate patches: `PoolSpecs.TenantPatchValidIff`.
- A re-created name restarts at version 1, so a base from an earlier incarnation can match:
  `VersionedStore.BaseStaysGoodIff`.
- The guards and member counts keep every tenant an admin except against the deletion of the only admin's
  account: `IdentityCache.RunKeepsAdminIff`, `IdentityCache.DeletionOpensTenantIff`.
- The generator ends only on type graphs whose cycles pass through named structs:
  `ApiGen.ComesBackIff`, with `ApiGen.SelfSliceNeverComesBack` and `ApiGen.HiddenSliceNeverComesBack`.

## Model

| member | source | states |
|---|---|---|
| `Resources.Add` | axisml-infra/axisml-scheduler/internal/quota/cache.go:103-109 | the loop accumulates a request into a total name by name; a requested name is present afterwards even at quantity zero |
| `Resources.Sub` | axisml-infra/axisml-scheduler/internal/quota/cache.go:111-121 | the loop takes a request out of a total; a requested name that reaches zero disappears, an unrequested one keeps even a zero |
| `Resources.SumWithout` | axisml-infra/axisml-scheduler/internal/quota/cache.go:103-121 | the from-scratch sum over a collection of requests does not depend on which request is taken out first |
| `Resources.SumUnmentioned` | axisml-infra/axisml-scheduler/internal/quota/cache.go:93-101 | a resource no recorded request names sums to zero (missing reads as zero) |
| `QuotaCache.ReplayRecordsLatest` | axisml-infra/axisml-scheduler/internal/quota/cache.go:59-90 | after any call sequence exactly the pods whose last call was AddPod are recorded, each with that call's request; calls about other pods or quotas have no effect; no empty entry is left behind |
| `QuotaCache.OrderIndependent` | axisml-infra/axisml-scheduler/internal/quota/cache.go:59-90 | two call sequences that agree on the last call per pod and quota leave identical cache contents |
| `QuotaCache.MinusAgrees` | axisml-infra/axisml-scheduler/internal/quota/cache.go:111-121 | subtracting a recorded request leaves a total that agrees with the sum of the others, entry names included |
| `QuotaCache.PlusAgrees` | axisml-infra/axisml-scheduler/internal/quota/cache.go:103-109 | adding a new request leaves a total that agrees with the sum over the extended collection |
| `QuotaCache.Without` | axisml-infra/axisml-scheduler/internal/quota/cache.go:67-86 | un-recording a pod keeps the running total in agreement with what is left |
| `QuotaCache.Cache.AddPod` | axisml-infra/axisml-scheduler/internal/quota/cache.go:59-73 | records a copy of the request, replacing an earlier one; every running total still agrees with the recorded requests |
| `QuotaCache.Cache.RemovePod` | axisml-infra/axisml-scheduler/internal/quota/cache.go:76-90 | forgets the pod, drops the entry when it was the last pod, does nothing for an unknown pod or quota |
| `QuotaCache.Cache.Used` | axisml-infra/axisml-scheduler/internal/quota/cache.go:93-101 | returns a fresh list that equals the from-scratch sum resource by resource |
| `QuotaCache.RunAll` | axisml-infra/axisml-scheduler/internal/quota/cache.go:59-101 | every call sequence ends in the contents its history determines, although callers overwrite the lists they passed in and were handed |
| `ElasticQuota.SplitKeyInverts` | axisml-infra/axisml-scheduler/internal/controllers/elasticquota.go:139-143 | splitting a namespace/name key gives both parts back for every pair of valid names |
| `ElasticQuota.TotalExtends` | axisml-infra/axisml-scheduler/internal/controllers/elasticquota.go:160-176 | the from-scratch usage of one more pod is the old usage plus its request, including which names are present |
| `ElasticQuota.ComputeUsed` | axisml-infra/axisml-scheduler/internal/controllers/elasticquota.go:154-176 | the accumulation loop returns the exact total over the bound, non-terminal, labelled pods of the namespace, in any listing order |
| `ElasticQuota.ChargedIff` | axisml-infra/axisml-scheduler/internal/controllers/elasticquota.go:154-176 | exactly the bound pods of the namespace that carry the label and have neither succeeded nor failed are charged, each with its request |
| `ElasticQuota.CacheMatchesController` | axisml-infra/axisml-scheduler/internal/controllers/elasticquota.go:160-176 | the scheduler's incremental cache and the controller's fold agree resource by resource; the cache only omits zero entries |
| `ElasticQuota.PodStepKeepsInv` | axisml-infra/axisml-scheduler/internal/controllers/elasticquota.go:73-77 | a pod notification whose quota stays the same (or whose old version was not charged) keeps the controller invariant |
| `ElasticQuota.HandleKeepsInv` | axisml-infra/axisml-scheduler/internal/controllers/elasticquota.go:82-99 | an event handler's queue.Add keeps the invariant |
| `ElasticQuota.DelayElapsedKeepsInv` | axisml-infra/axisml-scheduler/internal/controllers/elasticquota.go:123-137 | a rate-limited key coming back to the queue keeps the invariant |
| `ElasticQuota.GetKeepsInv` | axisml-infra/axisml-scheduler/internal/controllers/elasticquota.go:123-127 | a worker taking a key off the queue keeps the invariant |
| `ElasticQuota.DoneKeepsInv` | axisml-infra/axisml-scheduler/internal/controllers/elasticquota.go:123-137 | queue.Done keeps the invariant, re-queueing a key that became dirty while in process |
| `ElasticQuota.ApiKeepsInv` | axisml-infra/axisml-scheduler/internal/controllers/elasticquota.go:177-187 | foreign writes to a quota at the API server keep the invariant |
| `ElasticQuota.WatchKeepsInv` | axisml-infra/axisml-scheduler/internal/controllers/elasticquota.go:68-72 | the delivery of any quota version, or of its deletion, keeps the invariant |
| `ElasticQuota.ReadKeepsInv` | axisml-infra/axisml-scheduler/internal/controllers/elasticquota.go:139-176 | reading the quota, reading the pods, and failing at either keep the invariant |
| `ElasticQuota.WriteKeepsInv` | axisml-infra/axisml-scheduler/internal/controllers/elasticquota.go:177-187 | skipping an equal status, writing it, and failing with or without effect keep the invariant |
| `ElasticQuota.WritePublishes` | axisml-infra/axisml-scheduler/internal/controllers/elasticquota.go:177-187 | unless its key was signalled since the reads, a reconcile writes exactly the usage of the pods, or writes nothing because the status it read is exact; other quotas are untouched |
| `ElasticQuota.StepKeepsInv` | axisml-infra/axisml-scheduler/internal/controllers/elasticquota.go:68-188 | every enabled step of the controller, its queue and its environment keeps the invariant |
| `ElasticQuota.RunKeepsInv` | axisml-infra/axisml-scheduler/internal/controllers/elasticquota.go:68-188 | the invariant holds after every admissible run from an empty controller |
| `ElasticQuota.StaleStatusIsPending` | axisml-infra/axisml-scheduler/internal/controllers/elasticquota.go:68-188 | in every run, a quota whose informer copy differs from the sum over its pods is queued, dirty, in process, delayed or about to be announced |
| `ElasticQuota.DrainedMeansExact` | axisml-infra/axisml-scheduler/internal/controllers/elasticquota.go:68-188 | once nothing is pending and the informer store is in sync, every status.used is exact |
| `ElasticQuota.UpdateSafeIffQuiet` | axisml-infra/axisml-scheduler/internal/controllers/elasticquota.go:73-77 | enqueueing only the new object's key never strands a quota exactly when the pod stays in its quota or its old version contributed nothing |
| `ElasticProgress.ComesToRest` | axisml-infra/axisml-scheduler/internal/controllers/elasticquota.go:123-188 | from every state the controller can be in, whatever is wrong with the status and wherever its key is, an undisturbed stretch publishes the exact usage and leaves nothing pending on the key; pods and other quotas stay |
| `ElasticProgress.EveryRunCanSettle` | axisml-infra/axisml-scheduler/internal/controllers/elasticquota.go:68-188 | in particular after every run from an empty controller |
| `ElasticProgress.Pass` | axisml-infra/axisml-scheduler/internal/controllers/elasticquota.go:123-188 | one pass of a worker over a current key publishes the exact usage, and writes nothing when it is exact already |
| `ElasticQuota.ReachesQuiesced` | axisml-infra/axisml-scheduler/internal/controllers/elasticquota.go:68-188 | a controller that starts empty reaches the quiet, exact state of one charged pod and its quota |
| `ElasticQuota.StrandedQuota` | axisml-infra/axisml-scheduler/internal/controllers/elasticquota.go:73-77 | from that reachable state, moving the charged pod to another quota leaves a stale status that nothing will revisit |
| `RateLimit.RateLimiter.Allow` | axisml-platform/backend/internal/auth/ratelimit.go:43-69 | answers by, and updates, the refilled and clamped bucket; on a new key above the size threshold it prunes first |
| `RateLimit.RateLimiter.PruneLocked` | axisml-platform/backend/internal/auth/ratelimit.go:73-83 | drops exactly the buckets idle for longer than the truncated refill time |
| `RateLimit.FullIsWholeSeconds` | axisml-platform/backend/internal/auth/ratelimit.go:74-77 | the idle time before pruning is the refill time less any fraction of a second |
| `RateLimit.NothingDropped` | axisml-platform/backend/internal/auth/ratelimit.go:47-53 | with at most ten thousand buckets, or for a known key, no bucket is dropped |
| `RateLimit.WholeSecondsSuffice` | axisml-platform/backend/internal/auth/ratelimit.go:73-77 | a positive refill with capacity/refill a whole number of seconds refills a bucket before it may be pruned |
| `RateLimit.DeployedLimitsSuffice` | axisml-platform/backend/internal/identity/handler.go:24 | the deployed 10 tokens at 0.2 per second satisfy that condition |
| `RateLimit.RunSimulates` | axisml-platform/backend/internal/auth/ratelimit.go:43-83 | over every ordered run the pruning limiter holds a subset of the never-pruning one's buckets, and every missing bucket has had time to fill |
| `RateLimit.SameAnswer` | axisml-platform/backend/internal/auth/ratelimit.go:43-83 | under the condition each call gets the same answer with and without pruning |
| `RateLimit.EarlyPruningShows` | axisml-platform/backend/internal/auth/ratelimit.go:73-83 | when a bucket can be dropped before it is full, a concrete run is answered differently |
| `RateLimit.TransparentIff` | axisml-platform/backend/internal/auth/ratelimit.go:43-83 | pruning is unobservable on all ordered runs if and only if capacity is below one or a bucket is full again at the first instant it may be dropped |
| `RateLimit.StateInRange` | axisml-platform/backend/internal/auth/ratelimit.go:43-83 | with and without pruning, tokens stay between zero and capacity |
| `RateLimit.TokensPayForCalls` | axisml-platform/backend/internal/auth/ratelimit.go:43-69 | over any stretch of a run, allowed calls plus tokens left never exceed capacity plus the refill of the stretch |
| `RateLimit.TwoFullBuckets` | axisml-platform/backend/internal/auth/ratelimit.go:73-83 | one key can get two full buckets around a prune |
| `RateLimit.RateBoundedIff` | axisml-platform/backend/internal/auth/ratelimit.go:43-83 | every key is held to capacity + refill*(t-s) over every interval if and only if buckets refill before they may be pruned (for a capacity below one: if and only if that bound is never negative) |
| `Sessions.SessionCache.Create` | axisml-platform/backend/internal/cache/session.go:34-42 | row first, then a best-effort entry; no revoked session becomes cached |
| `Sessions.SessionCache.IsActive` | axisml-platform/backend/internal/cache/session.go:46-62 | serially, a session that was revoked or deleted never reads active, whichever Redis reads and writes fail; an active one always does |
| `Sessions.SessionCache.Revoke` | axisml-platform/backend/internal/cache/session.go:66-74 | revokes the row and drops the entry; coherence is kept if and only if the row is not revoked, the Del works or nothing was cached |
| `Sessions.SessionCache.RevokeAllForUser` | axisml-platform/backend/internal/cache/session.go:78-89 | a database error changes nothing; otherwise no open session of the user is left, and coherence is kept if and only if no lost Del was of a cached one |
| `Sessions.SessionCache.DeleteSessionsOf` | axisml-platform/backend/internal/identity/service.go:183-199 | revocation must succeed before the rows go; then only lost Dels leave entries of the user, and the others are left alone |
| `Sessions.FlightsStayBacked` | axisml-platform/backend/internal/cache/session.go:34-62 | a request about to write the cache still goes back to an instant at which the table had the session active |
| `Sessions.EntriesStayBacked` | axisml-platform/backend/internal/cache/session.go:34-89 | every entry goes back to such an instant at most lag before it was written |
| `Sessions.AlwaysBacked` | axisml-platform/backend/internal/cache/session.go:34-89 | both hold at every point of every interleaving with failures, crashes, purges, evictions and user deletions |
| `Sessions.TrueMeansRecentlyActive` | axisml-platform/backend/internal/cache/session.go:46-62 | whenever IsActive answers true, the table had the session active within the last ttl + lag |
| `Sessions.EndedForGood` | axisml-platform/backend/internal/store/sessions.go:18-76 | an issued session that is revoked, deleted, purged or expired never becomes active again |
| `Sessions.StaysActiveIff` | axisml-platform/backend/internal/store/sessions.go:28-76 | an active session stays active over a step if and only if the step does not revoke it, its user's sessions or its user, and its time has not run out |
| `Sessions.RevocationEnds` | axisml-platform/backend/internal/store/sessions.go:44-68 | a revocation, the update of a bulk revocation, for every session of the user whether plucked or created since, and the deletion of the user end the session at once |
| `Sessions.EndedSessionsFade` | axisml-platform/backend/internal/cache/session.go:34-89 | no IsActive answers true later than ttl + lag after the session ended |
| `Sessions.RevokedFades` | axisml-platform/backend/internal/cache/session.go:66-89 | hence not later than ttl + lag after such a step, including sessions created between the pluck and the update of RevokeAllForUser |
| `Sessions.SilentForGood` | axisml-platform/backend/internal/cache/session.go:66-89 | once the entry is dropped after the end and no request is still to write it, IsActive never answers true again, ttl or not |
| `Sessions.StepEffects` | axisml-platform/backend/internal/cache/session.go:34-89 | creation makes an active row, a working Del drops the entry, a read goes on to answer true exactly for an active row, and a working Set caches it |
| `Sessions.NoExpiryNeverFades` | axisml-platform/backend/internal/cache/cache.go:80-84 | with a non-positive ttl one lost Del makes a revoked session read active after any wait |
| `Sessions.FadesIffTtlPositive` | axisml-platform/backend/internal/cache/session.go:34-89 | staleness is bounded if and only if the ttl is positive |
| `Roles.RoleRepo.Set` | axisml-platform/backend/internal/store/roles.go:49-61 | afterwards the pair holds exactly the given role |
| `Roles.RoleRepo.GuardLastAdmin` | axisml-platform/backend/internal/store/roles.go:99-118 | the decision, on whichever row of the pair is read, is the guard of a pair with one role |
| `Roles.RoleRepo.GuardedSet` | axisml-platform/backend/internal/store/roles.go:67-93 | refuses exactly the missing member and the change that would leave the tenant without an admin; a refusal changes nothing; a pair keeps one role |
| `Roles.RebindAdmins` | axisml-platform/backend/internal/store/roles.go:67-93 | the effect of replacing or removing a binding on every tenant's admin set |
| `Roles.SerialGuard` | axisml-platform/backend/internal/store/roles.go:99-118 | run alone, the guard refuses exactly the change that empties the admin set |
| `RoleLocks.StepKeepsInv` | axisml-platform/backend/internal/store/roles.go:67-118 | in every interleaving of the single statements locked admin rows stay admin rows and locks are disjoint |
| `RoleLocks.GuardGivesSight` | axisml-platform/backend/internal/store/roles.go:99-118 | on a pair with one role, a transaction that saw some admin row and passes the guard saw another user's, or promotes |
| `RoleLocks.SightedCommitIsSafe` | axisml-platform/backend/internal/store/roles.go:67-118 | committing a transaction whose locking read saw another user's admin row, or that promotes, leaves an admin, whatever its DELETE hits |
| `RoleLocks.InterleavingKeepsAdmin` | axisml-platform/backend/internal/store/roles.go:67-118 | every interleaving of such transactions, aborts and first-time inserts keeps an admin in every tenant that had one |
| `RoleLocks.UnsightedRunLosesAdmin` | axisml-platform/backend/internal/store/roles.go:99-118 | a concrete interleaving, with a locking read that comes back empty, in which the guard lets the last admin go |
| `RoleLocks.CommitSafeIffSighted` | axisml-platform/backend/internal/store/roles.go:67-118 | a passed transaction is safe to commit in every state its locks allow if and only if it saw another user's admin row or promotes |
| `RoleLocks.SplitPairLosesAdmin` | axisml-platform/backend/internal/store/roles.go:67-118 | a concrete interleaving that gives a pair two rows by sighted transactions, after which the guard reads the wrong one and lets the last admin go |
| `IdentityCache.SameBindings` | axisml-platform/backend/internal/store/identity.go:25-48 | a user's binding map depends on that user's rows only |
| `IdentityCache.OthersUnaffected` | axisml-platform/backend/internal/cache/identity.go:60-66 | busting one user after a change to that user's account and rows keeps every other cached identity exact |
| `IdentityCache.ApplyKeepsCoherence` | axisml-platform/backend/internal/identity/service.go:161-227 | every user, password, member and tenant operation keeps every cached identity equal to the freshly loaded one, whichever of its remote calls fail |
| `IdentityCache.Exec` | axisml-platform/backend/internal/cache/identity.go:38-66 | coherence holds after every serial run |
| `IdentityCache.CachedLoadIsFresh` | axisml-platform/backend/internal/cache/identity.go:38-58 | in every serial run a cached load returns exactly what the tables give, errors included |
| `IdentityRaces.AlwaysBacked` | axisml-platform/backend/internal/cache/identity.go:38-66 | in every interleaving with failures, what is cached or in flight goes back to instants at which the tables held its parts |
| `IdentityRaces.AnswersAreRecent` | axisml-platform/backend/internal/cache/identity.go:38-58 | whatever LoadIdentity returns, its account and its bindings were each true at some instant of the last ttl + lag; with snapshot reads, both at the same one |
| `IdentityRaces.TornIdentity` | axisml-platform/backend/internal/store/identity.go:25-48 | the two reads can straddle a change: a load returns an identity that nobody ever had |
| `IdentityRaces.WholeRecentIff` | axisml-platform/backend/internal/cache/identity.go:38-66 | the age of returned identities is bounded if and only if the ttl is positive and the two reads see the same tables |
| `IdentityRaces.DropEffect` | axisml-platform/backend/internal/cache/identity.go:62-66 | a working invalidation drops the entry and nobody else's |
| `IdentityRaces.NothingOlderIsReturned` | axisml-platform/backend/internal/cache/identity.go:60-66 | once an invalidation has worked and no load of the user is under way, no load ever again returns an account or bindings from before |
| `IdentityEffects.OthersAnswerTheSame` | axisml-platform/backend/internal/identity/service.go:120-227 | no operation changes what loading anybody else answers |
| `IdentityEffects.FailureChangesNothing` | axisml-platform/backend/internal/identity/service.go:120-227 | a refused or failed operation changes no answer, except a password change whose sessions could not be revoked |
| `IdentityEffects.AddedMember` | axisml-platform/backend/internal/tenant/member.go:37-59 | exactly an account that is no member yet can be added, with a valid role; its loads then show exactly that role in addition |
| `IdentityEffects.ChangedMember` | axisml-platform/backend/internal/tenant/member.go:63-92 | a done update or removal changes exactly that binding, to the requested role or away |
| `IdentityEffects.ChangeRefusedIff` | axisml-platform/backend/internal/tenant/member.go:63-104 | a change is refused exactly for a non-member or the only admin |
| `IdentityEffects.CreatedUser` | axisml-platform/backend/internal/identity/service.go:120-143 | succeeds exactly for a free username; the account then loads as given |
| `IdentityEffects.UpdatedUser` | axisml-platform/backend/internal/identity/service.go:161-180 | disabling makes loads fail, enabling makes them succeed, leaving it alone changes nothing; only given names and mail change |
| `IdentityEffects.DeletedUser` | axisml-platform/backend/internal/identity/service.go:183-199 | after revocation the account is missing and has no bindings |
| `IdentityEffects.ChangedPassword` | axisml-platform/backend/internal/identity/service.go:203-227 | the new hash is stored, and all a load notices is that the password need not be changed |
| `IdentityEffects.CreatedTenant` | axisml-platform/backend/internal/tenant/service.go:82-134 | succeeds exactly for a free identifier and an existing owner, whose loads then show it as admin; a failure that could be undone leaves nothing |
| `IdentityEffects.DeletedTenant` | axisml-platform/backend/internal/tenant/service.go:263-287 | succeeds exactly for a tenant without members and active workloads; only the tenant goes |
| `IdentityCache.ClearingSafeIff` | axisml-platform/backend/internal/tenant/service.go:263-287 | clearing a tenant's bindings without invalidating keeps the cache exact if and only if no cached user is a member |
| `IdentityCache.StepKeepsAdminIff` | axisml-platform/backend/internal/tenant/member.go:37-92 | no operation takes away a tenant that has an admin; its admins are lost if and only if the operation successfully deletes the account of the only one |
| `IdentityCache.RunKeepsAdminIff` | axisml-platform/backend/internal/tenant/member.go:37-92 | over every serial run a tenant with an admin stays and has one at every point, if and only if no step deletes the account of its only admin |
| `IdentityCache.CreatedTenantCannotBeDeleted` | axisml-platform/backend/internal/tenant/service.go:82-134 | after a successful Create and any run that strands no tenant so, account deletions included, Delete answers in-use and changes nothing |
| `IdentityCache.DeletionOpensTenantIff` | axisml-platform/backend/internal/store/users.go:93-96 | after an account is deleted, Delete can remove a tenant if and only if the tenant has no member besides that account |
| `IdentityCache.CascadeAdmins` | axisml-platform/backend/internal/store/users.go:93-96 | the cascade takes exactly that user out of every admin set |
| `IdentityCache.Platform.LoadFresh` | axisml-platform/backend/internal/store/identity.go:25-48 | the row-by-row loop builds the reference identity; missing and disabled accounts are errors |
| `IdentityCache.Platform.LoadIdentity` | axisml-platform/backend/internal/cache/identity.go:38-58 | cache first, fill on a successful miss; the answer equals the uncached one |
| `IdentityCache.Platform.OpenAccount` | axisml-platform/backend/internal/identity/service.go:120-143 | CreateUser: conflict on a taken username, no bust needed |
| `IdentityCache.Platform.UpdateAccount` | axisml-platform/backend/internal/identity/service.go:161-180 | empty fields and a nil disabled leave the stored values; the identity is busted |
| `IdentityCache.Platform.DeleteAccount` | axisml-platform/backend/internal/identity/service.go:183-199 | revocation must succeed before the row and its bindings go; then the bust |
| `IdentityCache.Platform.ChangePassword` | axisml-platform/backend/internal/identity/service.go:203-227 | sets the hash, clears must-change, busts, and only then revokes |
| `IdentityCache.Platform.Join` | axisml-platform/backend/internal/tenant/member.go:37-59 | AddMember: every refusal in order, then the binding and the bust |
| `IdentityCache.Platform.ChangeMember` | axisml-platform/backend/internal/tenant/member.go:63-92 | UpdateMember and RemoveMember through the guard; the bust comes even when the later user lookup fails |
| `IdentityCache.Platform.OpenTenant` | axisml-platform/backend/internal/tenant/service.go:82-134 | Create with compensation: a failed cluster or binding step rolls the row back, unless that fails too |
| `IdentityCache.Platform.CloseTenant` | axisml-platform/backend/internal/tenant/service.go:263-287 | Delete: refuses while there are members or active workloads, clears bindings, then removes the row |
| `Decimal.ParseFormat` | axisml-platform/backend/internal/rundef/runner.go:163-179 | printing and parsing a 64-bit integer is the identity |
| `Decimal.FormatInjective` | axisml-platform/backend/internal/rundef/runner.go:51 | different numbers give different names |
| `Decimal.FormatDigit` | axisml-platform/backend/internal/rundef/runner.go:51 | a digit prints as itself, a negative one behind a minus sign |
| `Decimal.FormatTenfold` | axisml-platform/backend/internal/rundef/runner.go:51 | a further digit prints behind the number |
| `Decimal.ParseAccepts` | axisml-platform/backend/internal/rundef/runner.go:163-179 | only an optional sign and digits within 64 bits parse |
| `Runner.NextRunNumber` | axisml-platform/backend/internal/rundef/runner.go:163-179 | the loop returns one more than the highest number among the listed names, with 64-bit wrap-around |
| `Runner.NextNameIsFreeIff` | axisml-platform/backend/internal/rundef/runner.go:163-179 | when every numbered run carries the label, the derived name is free at the listing if and only if the numbers have not wrapped onto an existing run |
| `Runner.TakenMeansCreated` | axisml-platform/backend/internal/rundef/runner.go:42-75 | a name free at one point and taken at a later one was created in between |
| `Runner.TryOnce` | axisml-platform/backend/internal/rundef/runner.go:46-73 | one attempt asks for a retry exactly on a conflict, fails exactly on an unanswered call, and otherwise starts the run; overrides win over the grouping label |
| `Runner.Trigger` | axisml-platform/backend/internal/rundef/runner.go:42-75 | gives up if and only if all five attempts conflict; starts the run if and only if the first attempt without a conflict is answered, under the name that was free and with the requested labels; fails if and only if that attempt is not answered |
| `Runner.SerialFirstAttempt` | axisml-platform/backend/internal/rundef/runner.go:42-75 | serially, the first attempt goes through if and only if the numbers have not run out |
| `Runner.TriggerAlone` | axisml-platform/backend/internal/rundef/runner.go:42-75 | a serial Trigger with room starts <def>-<highest + 1> on its first attempt |
| `Runner.Charge` | axisml-platform/backend/internal/rundef/runner.go:42-75 | each conflict points at another client's creation of that very name after the attempt's listing |
| `Runner.ConflictsAreCharged` | axisml-platform/backend/internal/rundef/runner.go:42-75 | the conflicts of successive attempts are charged to different creations, so giving up means at least five of them |
| `Runner.GivingUpIsCharged` | axisml-platform/backend/internal/rundef/runner.go:42-75 | when Trigger gives up, its five conflicts are charged to five different creations by others, in order, between its first listing and its last creation call |
| `Runner.OverrideBlocksTheName` | axisml-platform/backend/internal/rundef/runner.go:53-55 | after any run started with an override of the grouping label, as long as it exists and the labelled runs stay the same, all five attempts of every Trigger conflict although nobody else creates anything |
| `Runner.OverrideStarts` | axisml-platform/backend/internal/rundef/runner.go:53-55 | the first run of a definition, started with an override, is such a run |
| `EnvExpand.CopyUpToMatch` | axisml-standalone/loader.go:142-162 | up to the first match nothing is a reference and the bytes are copied |
| `EnvExpand.RoundIsOneReference` | axisml-standalone/loader.go:150-159 | one loop round emits the gap and the value as it is; the value is not scanned again |
| `EnvExpand.Expand` | axisml-standalone/loader.go:142-162 | match list plus buffer compute the one-pass recursive expansion, the error included |
| `EnvExpand.RefsDoNotNest` | axisml-standalone/loader.go:137 | no reference starts inside another |
| `EnvExpand.FindAllIsExact` | axisml-standalone/loader.go:137-143 | matching finds every reference of the text exactly once, in order and without overlap |
| `EnvExpand.FailsOnFirstUnset` | axisml-standalone/loader.go:150-159 | expansion fails if and only if some reference names an unset or empty variable, and names the first such one |
| `EnvExpand.OtherDollarsStay` | axisml-standalone/loader.go:137-141 | a text without braced references, bare $VAR included, comes back unchanged |
| `EnvExpand.BracedIsRef` | axisml-standalone/loader.go:137 | a braced name of the regular expression's form is a reference wherever it stands |
| `EnvExpand.RefIsBraced` | axisml-standalone/loader.go:137 | and nothing else is |
| `EnvExpand.ReplacedInPlace` | axisml-standalone/loader.go:142-162 | between any two texts a braced name is replaced by its value while the texts expand each on its own; an unset or empty variable is the failure, unless the text before has one |
| `ApiDocs.CollectRefs` | axisml-standalone/openapi.go:226-240 | adds exactly the references at any depth of a JSON tree |
| `ApiScope.SchemaRefFound` | axisml-standalone/openapi.go:226-240 | a reference to a component schema is found under exactly its name |
| `ApiDocs.ReachableSchemaNames` | axisml-standalone/openapi.go:193-222 | the worklist ends on cyclic and dangling references with the least set that holds the kept paths' references and is closed under the definitions |
| `ApiDocs.ReachAgrees` | axisml-standalone/openapi.go:193-222 | documents that agree on everything reachable have the same closure |
| `ApiScope.MatchesAnyPrefix` | axisml-standalone/openapi.go:181-188 | true exactly for a path equal to a prefix or below it on a segment boundary |
| `ApiScope.Document.ScopeToPrefixes` | axisml-standalone/openapi.go:159-179 | in place: exactly the matching paths, the schemas their closure reaches, and the tags they use; everything else as before |
| `ApiScope.Document.PruneTags` | axisml-standalone/openapi.go:243-269 | keeps, in order, exactly the tag definitions named by a surviving operation |
| `ApiScope.FilterTags` | axisml-standalone/openapi.go:259-268 | the filtering loop keeps order and duplicates |
| `ApiScope.TagsInUse` | axisml-standalone/openapi.go:248-258 | the tag names the kept operations list |
| `ApiScope.KeepMatching` | axisml-standalone/openapi.go:160-166 | the path loop keeps exactly the matching paths |
| `ApiScope.PruneSchemas` | axisml-standalone/openapi.go:169-176 | keeps exactly the definitions in the closure of the kept paths |
| `ApiScope.DropUnreachable` | axisml-standalone/openapi.go:171-175 | deletes exactly the unreachable definitions |
| `ApiScope.PrunedReach` | axisml-standalone/openapi.go:159-179 | pruning changes no closure that starts at the kept paths |
| `ApiScope.UnderIff` | axisml-standalone/openapi.go:181-188 | under a prefix means equal to it or going on with a slash after it |
| `ApiScope.ScopedPathsIff` | axisml-standalone/openapi.go:159-166 | exactly the paths under a prefix are kept, as they are |
| `ApiScope.KeepTagsIff` | axisml-standalone/openapi.go:259-268 | exactly the tag definitions with a used name are kept |
| `ApiScope.UsedTagsIff` | axisml-standalone/openapi.go:248-258 | exactly the names are used that a get, post, put, patch or delete operation lists |
| `ApiScope.ScopedTagsIff` | axisml-standalone/openapi.go:243-269 | a scoped document keeps exactly the tag definitions that a kept operation names |
| `ApiScope.ScopedClosure` | axisml-standalone/openapi.go:159-179 | no reference from kept paths or schemas breaks, and the surviving schemas are exactly the ones the kept paths reach |
| `ApiScope.ElsewhereAfterScoping` | axisml-standalone/openapi.go:159-179 | what the rest of a scoped document refers to, from the original document |
| `ApiScope.ScopedDanglesIff` | axisml-standalone/openapi.go:86-93 | a document without dangling references stays so if and only if what its other members still refer to is reachable from the kept paths |
| `ApiScope.SharedResponseDangles` | axisml-standalone/openapi.go:226-240 | a document outside the served family: a path that answers with a shared response keeps it while its schema is pruned, even with every path kept |
| `ApiScope.ScopingAddsNoDangling` | axisml-standalone/openapi.go:86-93 | a document that refers from paths and schemas only is scoped without a new dangling reference, whether or not it had any |
| `ApiScope.ScopeTwice` | axisml-standalone/openapi.go:159-179 | scoping twice equals scoping once to the intersection, for the whole document |
| `ApiScope.ScopePrefixesTwice` | axisml-standalone/openapi.go:159-188 | scoping by P then Q keeps exactly the paths matching both; scoping again by P changes nothing |
| `ApiFold.MergeTags` | axisml-standalone/cmd/openapi-gen/main.go:138-157 | appends the source tags whose name is new |
| `ApiFold.NewTagsComplete` | axisml-standalone/cmd/openapi-gen/main.go:138-157 | the appended tags have distinct, non-empty, new names and miss no named tag |
| `ApiFold.FoldSchemas` | axisml-standalone/cmd/openapi-gen/main.go:101-110 | fails exactly on a divergent definition; otherwise the union |
| `ApiFold.FoldPaths` | axisml-standalone/cmd/openapi-gen/main.go:111-120 | fails exactly on a path already present, assembly paths excepted; otherwise the union |
| `ApiFold.FoldOne` | axisml-standalone/cmd/openapi-gen/main.go:100-123 | succeeds exactly when schemas agree and paths are disjoint, with the merged document |
| `ApiFold.FoldSources` | axisml-standalone/cmd/openapi-gen/main.go:32-40 | the loop over the component documents stops at the first failure |
| `ApiFold.TwoInEitherOrder` | axisml-standalone/cmd/openapi-gen/main.go:100-123 | two sources fold in either order with the same success, paths and schemas |
| `ApiFold.OrderIndependent` | axisml-standalone/cmd/openapi-gen/main.go:32-40 | success, paths and schemas are the same for every permutation of the sources |
| `ApiFold.FoldSucceedsIff` | axisml-standalone/cmd/openapi-gen/main.go:100-123 | folding succeeds if and only if all documents agree on common schemas and share no path but the probes |
| `ApiFold.FoldKeeps` | axisml-standalone/cmd/openapi-gen/main.go:100-123 | every non-assembly path and every schema of every source survives unchanged |
| `ApiFold.FoldAddsOnly` | axisml-standalone/cmd/openapi-gen/main.go:111-120 | it has no path but those of the assembled document and the components' own, probes excepted |
| `ApiFold.FoldDefines` | axisml-standalone/cmd/openapi-gen/main.go:100-123 | the folded document defines exactly the schemas some document defines |
| `ApiFold.FoldPreservesMeaningIff` | axisml-standalone/cmd/openapi-gen/main.go:100-123 | a path's reference closure means what it meant in its source if and only if no dangling reference of it is defined by another document |
| `ApiAssembly.BaseRefs` | axisml-standalone/cmd/openapi-gen/main.go:65-98 | the probe paths and tags the fold starts from hold no reference |
| `ApiAssembly.FoldAllKeeps` | axisml-standalone/cmd/openapi-gen/main.go:100-123 | folding self-contained documents gives a self-contained document |
| `ApiAssembly.RenderedElsewhere` | axisml-standalone/cmd/openapi-gen/main.go:65-86 | outside its paths and schemas the folded standalone document refers to nothing |
| `ApiAssembly.ServedAddsNoDangling` | axisml-standalone/openapi.go:159-179 | serving any part of the folded document introduces no dangling reference |
| `ApiAssembly.ServedNeverDangles` | axisml-standalone/openapi.go:86-93 | from self-contained components to what is served under any prefixes nothing dangles |
| `ApiAssembly.ServedMeansTheSame` | axisml-standalone/openapi.go:159-179 | every kept path of a component is served with its item, and its transitive references have the definitions they have in the component |
| `ApiGen.RankDrops` | pkg/openapigen/generator.go:119-170 | when every type cycle passes through a named struct, a rank drops on each unguarded descent |
| `ApiGen.SchemaSound` | pkg/openapigen/generator.go:123-170 | every required list at every depth of a type's schema names existing properties |
| `ApiGen.StructSound` | pkg/openapigen/generator.go:178-229 | the same for an expanded struct, embedded structs flattened |
| `ApiGen.ModesAgree` | pkg/openapigen/generator.go:241-259 | the input schema of a struct has the same properties as its response schema and requires no more, embedded structs included |
| `ApiFields.ScalarSchemas` | pkg/openapigen/generator.go:130-141 | strings, booleans and numbers have exactly their type and format; unknown kinds are free-form |
| `ApiFields.ElementSchemas` | pkg/openapigen/generator.go:142-148 | bytes are a base64 string, other slices arrays of their element, maps objects of their element, a pointer what it points to |
| `ApiFields.StructSchemas` | pkg/openapigen/generator.go:149-165 | a well-known type has its given schema; a named struct is exactly a reference; an unnamed one is written out |
| `ApiFields.FieldContributes` | pkg/openapigen/generator.go:181-223 | a field says one property that keeps the schema of its type beside description and nullability, or wraps a reference, and is required exactly when it must be there |
| `ApiFields.StructReads` | pkg/openapigen/generator.go:178-229 | the properties of a struct without embedded ones are exactly the names under which its fields appear, each presenting the schema of its type; a name is required exactly without omitempty, not for a pointer, and as mode and binding ask |
| `ApiFields.RegisteredReads` | pkg/openapigen/generator.go:101-117 | and so is what Register stores for it |
| `ApiFields.EmbeddedContributes` | pkg/openapigen/generator.go:186-193 | an embedded struct contributes its own properties and required names |
| `Strings.SplitInverts` | pkg/openapigen/generator.go:231-237 | splitting a tag takes it apart at exactly its commas |
| `ApiGen.DecoratedShows` | pkg/openapigen/generator.go:206-218 | no key stands beside a $ref, and the field's description and nullability show |
| `ApiGen.DecoratedRefs` | pkg/openapigen/generator.go:206-218 | wrapping a described or nullable reference introduces no new reference |
| `ApiGen.UseNamed` | pkg/openapigen/generator.go:149-165 | a named struct becomes a reference and is defined once; marks are restored and definitions grow only by struct schemas |
| `ApiGen.Strip` | pkg/openapigen/generator.go:123-126 | stripping pointers ends and does not change the schema |
| `ApiGen.SchemaForType` | pkg/openapigen/generator.go:123-170 | the stateful walk terminates and returns the pure schema of the type; every reference is defined, in progress or well known |
| `ApiGen.ElemSchema` | pkg/openapigen/generator.go:142-148 | slices, arrays and maps, byte slices as base64 strings |
| `ApiGen.StructSchema` | pkg/openapigen/generator.go:178-229 | the field loop computes the pure struct schema for both modes |
| `ApiGen.FieldSchema` | pkg/openapigen/generator.go:181-223 | one field: skipped, flattened, or one decorated property that is required by the mode's rule |
| `ApiGen.BuildRoot` | pkg/openapigen/generator.go:101-117 | the three ways a root is built |
| `ApiGen.RootResolves` | pkg/openapigen/generator.go:101-117 | storing the root resolves the references its mark stood for |
| `ApiGen.RegisterEnds` | pkg/openapigen/generator.go:101-117 | after the root is stored every reference resolves, every required list is sound and the mark is gone |
| `ApiGen.Generator.Register` | pkg/openapigen/generator.go:101-117 | terminates, restores the in-progress map, stores the root under its name, and leaves every reference resolved and every required list within its properties |
| `MarkedWalks.ReturnsIff` | pkg/openapigen/generator.go:119-170 | a recursion that follows open edges freely and guarded edges to unmarked nodes only comes back within some depth if and only if nothing it can reach lies on a cycle of open edges |
| `ApiGen.ComesBackIff` | pkg/openapigen/generator.go:123-170 | the walk that expands a type, and every undefined named struct it meets under a mark, comes back if and only if nothing it can reach lies on a cycle without named structs |
| `ApiGen.RegisterReturnsIff` | pkg/openapigen/generator.go:101-117 | the same for Register, which marks its type first and does not expand a well-known one |
| `ApiGen.GuardedIff` | pkg/openapigen/generator.go:123-170 | the hypothesis of Register holds if and only if the walk comes back from every type |
| `ApiGen.SelfSliceNeverComesBack` | pkg/openapigen/generator.go:142-146 | on a named slice of itself the walk comes back within no depth |
| `ApiGen.HiddenSliceNeverComesBack` | pkg/openapigen/generator.go:149-165 | nor on a slice of a named struct with such a field: the mark of the struct does not help |
| `ApiShapes.RegisterKeepsOwn` | pkg/openapigen/generator.go:101-117 | with distinct component names and fitting registered names, every registered name and every component keeps holding a schema of its own type |
| `ApiShapes.ReferenceLeadsToItsType` | pkg/openapigen/generator.go:149-164 | the reference that a use of a named struct becomes leads to a schema of that struct |
| `ApiShapes.OneShapeIff` | pkg/openapigen/generator.go:8-25 | input and response mode give one shape if and only if every field that is always present is bound as required, embedded structs included |
| `ApiShapes.CanonicalIff` | pkg/openapigen/generator.go:13-16 | a struct registered under its own component name has its canonical shape there if and only if it is registered for responses or the modes agree on it |
| `ApiShapes.LooseHasTwoShapes` | pkg/openapigen/generator.go:241-259 | a struct with an unbound field has two shapes |
| `ApiRender.NodeRefs` | pkg/openapigen/generator.go:366-381 | a schema rendered as a document node has exactly the references of the schema |
| `ApiRender.GeneratedIsSelfContained` | pkg/openapigen/generator.go:101-117 | a document whose components come from the generator is self-contained when its paths and well-known schemas refer to components it defines |
| `Strings.SortSorted` | pkg/openapigen/generator.go:224-227 | sort.Strings gives an ordered list |
| `Base64Url.RoundTrip` | axisml-standalone/resourcepool_store.go:90-97 | decoding an encoded token gives the name back, for every byte string |
| `Base64Url.Vectors` | axisml-standalone/resourcepool_store.go:123-127 | the unpadded vectors of section 10 of RFC 4648 |
| `Base64Url.UrlSafeSymbols` | axisml-standalone/resourcepool_store.go:123-127 | the two symbols of the URL-safe alphabet |
| `Strings.LeIff` | axisml-standalone/resourcepool_store.go:108 | the order of names is Go's: a prefix first, otherwise the first difference decides |
| `VersionedStore.RowsStay` | axisml-standalone/resourcepool_store.go:215-230 | over every run rows never vanish |
| `VersionedStore.SeedLeavesRows` | axisml-standalone/resourcepool_store.go:58-70 | seeding never changes an existing row, tombstones included |
| `VersionedStore.OnlyCreateRevives` | axisml-standalone/resourcepool_store.go:133-167 | a deleted name is live again only if a Create revived it in between, however many restarts seed it |
| `VersionedStore.PublishedIsRead` | axisml-standalone/resourcepool_store.go:275-305 | what Create and Patch hand back is what a read returns afterwards; defaults fill only what the object did not bring |
| `VersionedStore.PatchIsRead` | axisml-standalone/resourcepool_store.go:178-205 | a read after a successful patch returns the patch's name, labels, uid and spec under the next version |
| `VersionedStore.StatementEffects` | axisml-standalone/resourcepool_store.go:58-230 | every statement leaves other names alone; an insert fills a name that never existed, a revival a tombstone, and a delete makes a tombstone of the next version |
| `VersionedStore.BaseIsCurrent` | axisml-standalone/resourcepool_store.go:169-213 | the base of a successful patch that was read in this incarnation is the object being replaced |
| `VersionedStore.CreationTimeStays` | axisml-standalone/resourcepool_store.go:188-190 | the creation time survives patches that carry none or the same one |
| `VersionedStore.LifeStep` | axisml-standalone/resourcepool_store.go:169-213 | within one incarnation a statement changes the row exactly when it is a successful patch; a stale patch leaves it unchanged |
| `VersionedStore.VersionCountsPatches` | axisml-standalone/resourcepool_store.go:169-213 | the version rises by exactly the number of successful patches |
| `VersionedStore.OnePatchPerBase` | axisml-standalone/resourcepool_store.go:169-213 | of two successful patches the later one expects a higher base version |
| `VersionedStore.NoLostUpdate` | axisml-standalone/resourcepool_store.go:169-213 | a successful patch replaces exactly the row its base was read from |
| `VersionedStore.GenerationCountsSpecChanges` | axisml-standalone/resourcepool_store.go:182-187 | with bases that were read, the generation counts exactly the changes of the spec |
| `VersionedStore.SucceedsIff` | axisml-standalone/resourcepool_store.go:194-200 | in one incarnation exactly the patches succeed that expect its first version plus the successes since |
| `VersionedStore.RebuiltFoolsPatch` | axisml-standalone/resourcepool_store.go:149-157 | for every live row of every version: deletion, re-creation and enough patches let a base from before overwrite another object |
| `VersionedStore.BaseStaysGoodIff` | axisml-standalone/resourcepool_store.go:169-213 | a base read from any live row can only ever replace that very row, whatever else happens, if and only if the name may not be deleted meanwhile |
| `Stores.Store.Seed` | axisml-standalone/tenant_store.go:66-78 | imports only names that never existed, as new; stops at the first unacceptable object with its error, and imports nothing after it |
| `Stores.Store.Create` | axisml-standalone/tenant_store.go:150-189 | every error in order; publishes version one, on a new name or a tombstone, only after provisioning |
| `Stores.Store.Patch` | axisml-standalone/tenant_store.go:194-240 | an exact condition for each of bad-request, invalid, not-provisioned, not-found, conflict and success; replaces the row the base was read from, or changes nothing |
| `Stores.Store.Delete` | axisml-standalone/resourcepool_store.go:215-230 | tombstones a live row and raises its version, or reports not-found |
| `Stores.RequestsSendStatements` | axisml-standalone/resourcepool_store.go:58-230 | any interleaving of the steps of Seed, Create, Patch and Delete requests, with any payloads and restarts, is a run of statements that write accepted rows only |
| `Stores.AlwaysValid` | axisml-standalone/resourcepool_store.go:307-316 | over every such interleaving every object ever stored by a store that checks its patches is valid |
| `Stores.ServedAlone` | axisml-standalone/resourcepool_store.go:58-230 | served alone, an import, a patch and a delete take effect exactly when the store lets them |
| `Stores.CreatedAlone` | axisml-standalone/resourcepool_store.go:133-167 | a creation served alone publishes the new row exactly when the object is acceptable, its name not in use and provisioning succeeds |
| `Stores.AcceptsIff` | axisml-standalone/resourcepool_store.go:275-316 | exactly objects with a name and a valid spec are accepted |
| `PoolSpecs.FineListIff` | axisml-standalone/resource_validation.go:20-43 | exactly lists of CPU, memory and whole GPUs without negative amounts are acceptable |
| `PoolSpecs.CheckUnits` | axisml-standalone/loader.go:225-244 | true exactly for fine units with distinct names |
| `PoolSpecs.ValidatePools` | axisml-standalone/loader.go:204-247 | true exactly for present, valid, distinctly named pools |
| `PoolSpecs.ResolveUnit` | axisml-standalone/resourcepool_store.go:243-259 | finds a unit exactly when the pool has one of that name |
| `PoolSpecs.UnitNamesAreUnambiguous` | axisml-standalone/resourcepool_store.go:243-259 | over every interleaving of requests to the pool store, whatever they carry and with any number of restarts, a unit name means at most one unit of a stored pool |
| `PoolSpecs.CheckQuotas` | axisml-standalone/tenant_store.go:330-349 | finds the first quota with an unacceptable minimum or maximum, or none exactly when the tenant is valid |
| `PoolSpecs.ResolveQuota` | axisml-standalone/tenant_store.go:265-282 | the hard maximum of the live tenant's first quota for the pool, with an exact condition for each refusal |
| `PoolSpecs.TenantPatchValidIff` | axisml-standalone/tenant_store.go:194-240 | a tenant patch keeps every stored tenant valid if and only if the patch itself is |
| `PoolSpecs.TenantPatchCanBeInvalid` | axisml-standalone/tenant_store.go:194-240 | a successful patch can store a quota that Create would refuse |
| `Paging.Filter` | axisml-standalone/resourcepool_store.go:107-119 | the filtering loop keeps, in order, the matching names after the cursor |
| `Paging.List` | axisml-standalone/resourcepool_store.go:80-131 | fails exactly on a selector that does not parse or a bad token; otherwise the filtered page cut at the limit, its token and its decoded items |
| `Paging.SelectedShape` | axisml-standalone/resourcepool_store.go:107-119 | exactly the matching names after the cursor, ascending |
| `Paging.PageShape` | axisml-standalone/resourcepool_store.go:80-131 | a page holds exactly the shown names after its cursor, and up to its last name when cut; its token continues there |
| `Paging.PageSize` | axisml-standalone/resourcepool_store.go:121-129 | a positive limit is never exceeded and is used up before the listing is cut; a token is given exactly when more names are shown after the cursor |
| `Paging.UnlimitedListsAll` | axisml-standalone/resourcepool_store.go:121-129 | without a limit the first page is the last and lists exactly the shown names |
| `Paging.SeenAscends` | axisml-standalone/resourcepool_store.go:80-131 | what has been seen when the next page is asked for is strictly ascending and nothing lies past the cursor |
| `Paging.Unrolled` | axisml-standalone/resourcepool_store.go:90-97 | following the tokens is a journey of decoded cursors that sees what the client collects; every issued token is accepted |
| `Paging.NothingSkipped` | axisml-standalone/resourcepool_store.go:80-131 | a name no page loses is collected unless it is beyond the cursor |
| `Paging.PagingIsExact` | axisml-standalone/tenant_store.go:94-145 | following tokens while the table changes: strictly ascending, no repeat, every name shown at all reads is listed, and nothing is listed that was not shown |
## Left out

- HTTP handlers, routers, middleware, DTOs, views, the frontend, process entry points, migrations and configuration loading: field copying and I/O.
- JWT, bcrypt, JWKS, JSON and YAML codecs, the Docker and Kubernetes clients, compute-service and the operators: behaviour of code outside the model; a row's stored object is the value itself.
- The ElasticScheduling plugin's admission decisions, traffic percentages, null compaction, RBAC ranks, and offset pagination of artifact definitions: not modelled.
- ElasticProgress.ComesToRest: an undisturbed stretch exists from every state; that workers, timers and the watch are fair enough to take it is not modelled, and pods reach the controller through its informer store only.
- ElasticQuota.RunKeepsInv: assumes that a pod's quota label and namespace do not change while its request is charged; `UpdateSafeIffQuiet` shows what happens otherwise, and the periodic resync is not modelled.
- ElasticQuota.WriteKeepsInv: a nil and an empty usage map are the same value, as the normalisation in `reconcile` makes them; a status read back as an empty, non-nil map would cost one extra write.
- RateLimit.TransparentIff: token counts are exact reals, not float64, and the conversion of the refill time to a Duration does not overflow; the clock does not run backwards.
- Sessions.EndedSessionsFade: assumes that session ids are never reused, that a session is created with an expiry that has not passed, and that a request writes the cache at most `lag` after its database step; a request that is slower never reaches its write.
- IdentityCache.ApplyKeepsCoherence: serial operations with a Redis that does not fail; interleavings and failures are in `IdentityRaces`.
- IdentityRaces.AnswersAreRecent: a load writes the cache at most `lag` after its first read; one that is slower never reaches its write. Any committed operation may change the tables in any way.
- IdentityCache.Platform.Join: the account lookup by id, name or email is a parameter; so are the uid of a new user and the password check.
- IdentityCache.Platform.OpenTenant: quotas, labels and the tenant's display fields are left out; undoing the cluster-side tenant is part of the compensation outcome.
- Roles.RoleRepo.GuardedSet: one transaction at a time on pairs with one role; pairs with two rows arise from interleaved writes, which `RoleLocks` models.
- RoleLocks.InterleavingKeepsAdmin: AddMember's bare Set appears as an insert for a pair without a row; concurrent AddMember calls for one pair and the cascade of an account deletion are outside the guard.
- Runner.Trigger: annotations and the run input are left out; an error while building the input counts as a failed creation call.
- ApiGen.Generator.Register: validation keywords (applyValidators), example values, component-name heuristics and the package namer are left out; a component name is a field of the type. The well-known hook is assumed to return a new schema each time, so decorating one does not change another.
- ApiGen.SchemaForType: the walk passes the generator's two maps as a value and returns them; only Register updates the object, so aliasing between schemas is not modelled.
- ApiGen.ComesBackIff: a struct that the same walk has defined is expanded again where the generator only refers to it; two structs of one walk with the same component name are not told apart by the generator and are here.
- ApiShapes.ReferenceLeadsToItsType: which of a type's possible schemas the name holds depends on the registration that defined it first and is left open.
- ApiScope.Document.ScopeToPrefixes: nested maps are values, so sharing between a document and its sub-maps is not modelled; the info, version and header options are left out.
- ApiFold.FoldOne: reads and writes the paths, schemas and tags of a document; on failure the half-folded destination is not described, because the generator exits. The resulting tag order does depend on the order of the sources.
- ApiAssembly.ServedMeansTheSame: that each embedded component document is self-contained is a hypothesis; `ApiRender.GeneratedIsSelfContained` reduces it to what the document's paths and well-known schemas refer to.
- VersionedStore.VersionCountsPatches: versions are unbounded; a row patched 2^63 times is not modelled.
- Paging.PagingIsExact: the database's ascending name order is assumed to be Go's byte order, and names are non-empty.
- ApiFields.StructReads: structs with embedded ones are covered by `EmbeddedContributes` one field at a time; of fields with the same JSON name the last wins, which is left unstated.
- Stores.Store.Create: two requests that race between the existence check and the insert are covered by the interleaved requests of `RequestsSendStatements`, not by this method; `materialize` is a parameter that succeeds or fails.
- PoolSpecs.ValidatePools: the error text is not modelled; tenant volumes, namespaces and credential checks of the loader are left out.
- Base64Url.RoundTrip: the decoder is the lenient one of Go (line breaks are skipped, trailing bits are ignored), without its error offsets.
