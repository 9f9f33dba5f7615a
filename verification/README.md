# Snowflake resource pool operator: model and proofs

The operator shares a pool of Snowflake accounts between users of a Kubernetes cluster. A user
creates a `ResourceClaim`; the reconciler takes a free Kubernetes `Lease` for it with a
compare-and-swap write, provisions an app user with a fresh key pair on the account behind the
lease, and binds the claim. When the claim is deleted or its deadline passes, the account is
scrubbed, the lease freed and the claim removed. At every start the operator cleans up whatever
the previous run left behind.

The project models that program call by call and proves what it keeps over every run: arbitrary
interleavings of users, reconciliations, clock ticks, crashes and restarts, with every single
API, Snowflake and Secret call able to fail.

## How it is built

- `Text`, `Pem`, `Names`, `Objects`, `LeaseRules`: strings, derived names, objects, the lease rules.
- `Stores`: everything outside the process (leases, claims, Secrets, app users) as a value
  `Store`, and as the class `Cluster` whose methods are the client calls.
- `Registry`, `Accounts`, `Leasing`, `Snowflake`, `Provider`, `Reconciling`, `Controller`,
  `Starting`: the program. The Go objects are classes whose methods work step by step on the
  cluster; each is proved to compute a function of the store and of the outcomes of its calls.
  `Leasing`, `Snowflake`, `Reconciling` and `Starting` hold those functions.
- `Steps`: every way a reconciliation can end, as relations between the store before and after.
- `Runs`: states, events, runs. `Lifecycle` is the invariant of every run.
- One module for each guarantee: `OneShot`, `NoLostLease`, `Exclusivity`, `Credentials`,
  `Scrubbing`, `Conservation`, `Recovery`, `Convergence`, `UserSecrets`, `Waking`, and
  `LeaseProtocol` for the lease manager under any number of concurrent workers. `Versions` shows
  that the stale reads allowed include every state of the past.
- `Terms`: what a claim, a lease and a resource hold after each operation, written out in the
  source's formats, constants and units without the functions that compute it.
- `Limits`: for each condition a possible reconciliation or start that violates it and breaks the
  guarantee.

## What is assumed

- Every object has a version. An update succeeds only against the version that was read, a
  refused write changes nothing, and writing back identical content is not a new version. A
  status update writes the status only, an update of the main resource the finalizer only.
- Outcomes of calls are flags and scripts in environment records (`Env`, `StartEnv`). A crash
  between two calls is a reconciliation all of whose later calls are refused, after which the
  operator is down until it is started again. A start can go down part way in the same manner.
- A cached lease read returns any past version (`PossibleRead`; `LeaseProtocol.RunSound` and
  `Versions.RunPastIsPossible` prove that every past version is one). A cached claim read may be any old claim, except where a
  module asks for a current one (`CurrentRead`).
- Clock readings are parameters, one for each reading in the program, and never go back; a search
  reads the clock again for every listed lease. Times are in nanoseconds; the stored acquire
  time is cut to microseconds and the stored claim times to seconds, as their API types are.
- A claim's spec is not edited after creation (the resource definition allows it, and the recorded
  deadline would then disagree with the duration). Only the operator writes leases, claim statuses
  and per-claim Secrets, finalizers are not removed by hand, namespaces and names contain no slash,
  and the only finalizer is the operator's. One operator process reconciles sequentially.
- Secrets are read through the cache while the operator runs. A Secret read returns the current
  Secret or fails; a cached copy of a Secret that was changed meanwhile is not modelled.
- `ValidConfig`: account names, URLs and Secret names are not empty, no admin Secret has the
  prefix `sf-appuser-`, labels avoid the three reserved keys, and accounts of different names are
  different Snowflake accounts, that is, their URLs differ after scheme and domain are stripped as
  the client does it. Upper and lower case are taken as written. Duplicate account names are allowed.
- The informer's periodic resync, which reconciles every claim again, is one more reconciliation at
  any time; `Waking` speaks of the work queue and of writes only.
- Key pairs are numbered: private key `n` pairs with public key `n`.

## Runs the theorems speak of

- Every run: any outcome of any call, any stale read, crashes anywhere (`Lifecycle`, `OneShot`,
  `NoLostLease`, `Recovery`, `UserSecrets`).
- Disciplined runs (`Exclusivity.Disciplined`): the reconciler's own claim read is current, no
  reconciliation overtakes a recorded lease or frees a lease and then loses its last claim write,
  and a start after which the operator is up completed its lease and claim writes. Reconciliations
  cut short by a crash are unrestricted.
- Careful runs (`Credentials.Careful`): no reconciliation takes a key, a role or a Secret from a
  claim that stays bound, each reads some version of the claim (whose lease, if it records one,
  exists, since leases are never removed), and a start after which the operator is up resets the
  bound claims.
  Disciplined runs whose deletions mark their bound claims Releasing or remove them are careful.
- Conserving runs (`Conservation.Conserving`): disciplined, and a reconciliation that takes a lease
  binds its claim or releases the lease again. Provider calls and status writes may fail.
- Runs that scrub first (`Scrubbing.ScrubsFirst`): whatever lease a step frees, the calls before
  have scrubbed its account. Overtaking and stale reads are allowed. Runs of an operator that fails
  only by dying between two calls (`Scrubbing.Orderly`) are such runs.
- Fault-free traces (`Convergence.Trace`): no call fails, reads are current, the clock stands still
  and no user interferes.

## What was found

- Two provider types can produce the same lease name exactly when one is the other followed by a
  dash, with or without more text after it (`Names.LeaseNamesCollideIff`).
- The stored deadline of a claim can fall up to a second before its lease expires; the exact
  condition is `LeaseRules.StoredDeadlineCoversLease`. In the other direction a lease can read as
  free while its claim has not expired, and then it can be overtaken (`Limits`).
- From an exclusive state, exclusivity survives a reconciliation if and only if it does not
  overtake a recorded lease and does not free a lease and then lose its last claim write
  (`Exclusivity.ReconcileExclusiveIff`).
- "Scrubbed before free" is not kept by the code on every run: provisioning that fails after it has
  granted a role or set the key gives the lease back as it is, a deletion frees the lease although
  its cleanup failed, and a start frees the leases of accounts it skipped. `Scrubbing.ReconcileScrubsIff`
  and `Scrubbing.StartScrubsIff` give the exact conditions, `Limits` an input for each exit. The exit
  after missing connection details is never reached (`Credentials.AcquiredIsConnectable`).
- Working credentials are lost exactly when a step takes a key, a role or a Secret from a claim that
  stays bound (`Credentials.ReconcileCredentialedIff`), which an old claim read or a half-done deletion
  can do.
- A bound claim is left without a wake-up exactly when its deadline falls between the two clock
  readings of one reconciliation (`Waking.CurrentLeftAloneIff`).
- The comments speak of rotating admin credentials (`internal/provider/interface.go:72`), of a wake-up
  just before the deadline (`internal/controller/resourceclaim_controller.go:137`) and of reading the
  latest version of a lease (`internal/lease/manager.go:208`). The code never touches admin Secrets, wakes
  up at the deadline, and reads through a cache; the model follows the code.
- The check for an unknown provider type comes before the deletion path, so a claim of an unknown
  type never gets a finalizer and is never cleaned up by the operator.
- The startup cleanup deletes per-claim Secrets in the operator's namespace only, although they are
  created in the namespaces of the claims: none is left exactly when all of them were in the
  operator's namespace (`Recovery.AppSecretsGoneIff`).
- An expired claim is deleted by name, so an old read of it can delete a newer claim of that name,
  and nothing else can (`Limits.HitsAnotherIff`).
- A restart comes up only if the API server answers every lease creation with success or with
  "already exists", also when all leases exist (`Recovery.SecondStartIdle`).

## Model

| member | source | states |
|---|---|---|
| Pem.StripUndoesEncode | internal/provider/snowflake/crypto.go:66-85 | stripping returns exactly the base64 body, for every body, every line width and both line endings |
| Pem.StripIdempotent | internal/provider/snowflake/crypto.go:66-85 | stripping twice is stripping once, on every string |
| Names.SliceUndoesLeaseName | internal/controller/resourceclaim_controller.go:313-316 | the slice taken on deletion recovers the resource name from every lease name |
| Names.LeaseNamesCollideIff | internal/lease/manager.go:74 | resources of two provider types can share a lease name iff one type is the other followed by a dash |
| Names.HolderIdentityInjective | internal/controller/resourceclaim_controller.go:192 | two claims have the same holder identity iff they are the same claim |
| Names.AppSecretInjective | internal/provider/snowflake/provider.go:245-252 | two claims have the same per-claim Secret iff they are the same claim; it lies in the claim's namespace and is prefixed |
| Names.AppSecretNameAloneCollides | internal/provider/snowflake/provider.go:326-329 | the Secret's name without its namespace does not tell claims apart |
| LeaseRules.MatchesLabels | internal/lease/manager.go:189-202 | the loop, in any order of keys, decides inclusion of the required labels in the lease's labels |
| LeaseRules.FreeIsMonotone | internal/lease/manager.go:168-186 | a lease version that reads as free keeps reading as free |
| LeaseRules.DeadlineGap | internal/controller/resourceclaim_controller.go:240-241 | before serialization the deadline is later than the lease expiry by the provisioning time plus the sub-second part of the duration, for negative durations too |
| LeaseRules.StoredDeadlineCoversLease | internal/lease/manager.go:174-182 | exactly when every instant after the stored deadline finds the lease free; one second of provisioning is enough for durations that are not negative |
| LeaseRules.StoredDeadlineCanPrecedeLease | internal/controller/resourceclaim_controller.go:240-246 | concrete times for which the stored deadline precedes the lease expiry |
| Registry.Registry.Register | internal/provider/registry.go:42-49 | registers unless the name is taken, and then changes nothing |
| Registry.Registry.Get | internal/provider/registry.go:53-59 | finds a provider iff the type is registered |
| Registry.Registry.List | internal/provider/registry.go:62-69 | lists every registered name once, in ascending order |
| Registry.Registry.SetResources | internal/provider/registry.go:73-75 | replaces the cached resources of one provider only |
| Registry.Registry.GetResource | internal/provider/registry.go:85-93 | finds the first cached resource of that name |
| Accounts.FindAccount | internal/provider/snowflake/provider.go:133-139 | finds the first account of that name, None iff there is none |
| Accounts.LookupsAgree | internal/provider/snowflake/provider.go:179-189 | registry and provider resolve every name to the same position, duplicates included |
| Accounts.LeaseLabelsIff | internal/lease/manager.go:77-84 | a lease carries the three managed labels with their own values iff the resource's labels override none of them |
| Stores.Cluster.WriteLease | internal/lease/manager.go:227-230 | a lease update is refused unless it is against the current version, and changes the spec only |
| Stores.Cluster.AddLease | internal/lease/manager.go:98-105 | creation never overwrites an existing lease; only "already exists" passes as success |
| Stores.Cluster.WriteStatus | internal/controller/resourceclaim_controller.go:264 | a status write is refused unless it is against the current version |
| Stores.Cluster.WriteFinalizer | internal/controller/resourceclaim_controller.go:341-344 | dropping the finalizer of a deleting claim removes it |
| Stores.Cluster.MarkDeleted | internal/controller/resourceclaim_controller.go:129 | deletion marks a claim that has a finalizer and removes one that has none |
| Leasing.FindFreeIsExact | internal/lease/manager.go:115-165 | the search returns the first listed lease that is free, of the provider and carries the labels, and nothing iff there is none |
| Leasing.Manager.FindFreeLease | internal/lease/manager.go:115-165 | the search loop computes that result and the resource name on its label |
| Leasing.Manager.InitializeLeasesForProvider | internal/lease/manager.go:69-111 | creates the missing leases in order, stopping at the first real failure |
| Leasing.Manager.AcquireLease | internal/lease/manager.go:205-238 | refuses a lease that reads as held, otherwise writes holder, time and duration against the version read |
| Leasing.Manager.ReleaseLease | internal/lease/manager.go:241-265 | clears holder, time and duration against the version read, whoever the holder is |
| Leasing.Manager.ReleaseAllLeases | internal/lease/manager.go:270-302 | in any order of visits frees exactly the managed held leases whose update is accepted |
| Leasing.TakeEffect | internal/lease/manager.go:205-238 | a successful acquisition from any past version took the current lease, which was free, and no other |
| Leasing.ReleaseEffect | internal/lease/manager.go:241-265 | a successful release frees that lease only; a current accepted one succeeds |
| Provider.Client.EnsureUser | internal/provider/snowflake/client.go:165-179 | creates the app user if missing and keeps an existing one |
| Provider.Client.SetPublicKey | internal/provider/snowflake/client.go:182-199 | sets slot 1 or fails, then clears slot 2 if that statement is accepted |
| Provider.Client.GrantRole | internal/provider/snowflake/client.go:202-213 | grants one role of an existing user |
| Provider.Client.RevokeRole | internal/provider/snowflake/client.go:217-228 | revokes one role, passing over a refusal |
| Provider.Client.ClearPublicKeys | internal/provider/snowflake/client.go:233-247 | clears each slot whose statement is accepted, whatever happens to the other |
| Provider.Client.RevokeRoles | internal/provider/snowflake/provider.go:358-360 | revokes every configured role whose statement is accepted |
| Provider.SnowflakeProvider.Initialize | internal/provider/snowflake/provider.go:65-128 | accepts exactly the non-empty configurations with complete accounts, reports the first fault otherwise, and gives each resource its account's name, labels, Secret and metadata |
| Provider.SnowflakeProvider.FindAccountByName | internal/provider/snowflake/provider.go:289-295 | finds the first account of that name |
| Provider.SnowflakeProvider.GetConnectionDetails | internal/provider/snowflake/provider.go:131-156 | the details of the account the name resolves to, account identifier included |
| Provider.SnowflakeProvider.AcquireResource | internal/provider/snowflake/provider.go:175-276 | the whole store after each of its failure exits and after success |
| Provider.SnowflakeProvider.ReleaseResource | internal/provider/snowflake/provider.go:285-374 | the whole store after each exit |
| Provider.SnowflakeProvider.CleanupAllClaims | internal/provider/snowflake/provider.go:382-453 | scrubs every account it reaches, skipping the others, then deletes the per-claim Secrets of the namespace |
| Provider.SnowflakeProvider.DeleteAppSecrets | internal/provider/snowflake/provider.go:439-449 | deletes exactly the prefixed Secrets of the namespace whose deletion is accepted |
| Snowflake.GrantRolesEffect | internal/provider/snowflake/provider.go:226-230 | granting adds exactly the roles before the first refusal, and succeeds iff no grant is refused |
| Snowflake.RevokeRolesEffect | internal/provider/snowflake/provider.go:358-360 | revoking removes exactly the roles with an accepted statement and changes no key slot |
| Snowflake.ScrubEffect | internal/provider/snowflake/provider.go:357-361 | exactly what a cleanup with given outcomes leaves of its app user; it touches no other |
| Snowflake.CleanedIsScrubbedIff | internal/provider/snowflake/provider.go:357-361 | a cleanup leaves the account scrubbed iff it clears every slot in use and revokes every configured role that is granted |
| Snowflake.AcquireFrame | internal/provider/snowflake/provider.go:175-276 | an acquisition stays on one account and writes the claim's Secret only on success |
| Snowflake.AcquireProvisions | internal/provider/snowflake/provider.go:225-273 | after success the key in the Secret pairs with slot 1 and all configured roles are granted |
| Snowflake.AcquireExact | internal/provider/snowflake/provider.go:191-273 | from its guards: success, both key slots, exactly which roles are added, and that the account stays scrubbed iff it was and neither a role was granted nor the key set |
| Snowflake.OnlyOwnKeyLogsIn | internal/provider/snowflake/client.go:182-199 | after a successful acquisition that cleared slot 2, the key in the claim's Secret and no other logs in |
| Snowflake.AcquireSucceeds | internal/provider/snowflake/provider.go:194-206 | without failures it succeeds iff the admin Secret is complete in the claim's namespace; without that Secret it changes nothing |
| Snowflake.ReleaseEffect | internal/provider/snowflake/provider.go:285-374 | exactly what a release with given outcomes leaves of its account and its Secret; without an admin connection it changes nothing |
| Snowflake.ScrubAccountsExact | internal/provider/snowflake/provider.go:387-429 | exactly what the startup loop leaves of each app user, also where accounts share one |
| Controller.ClaimReconciler.Reconcile | internal/controller/resourceclaim_controller.go:69-150 | the whole store and the requeue decision after every branch |
| Controller.ClaimReconciler.WritePhase | internal/controller/resourceclaim_controller.go:159-165 | writes one phase and keeps the rest of the status |
| Controller.ClaimReconciler.AcquireLease | internal/controller/resourceclaim_controller.go:153-183 | search and registry lookup with their failure exits |
| Controller.ClaimReconciler.LockAndProvision | internal/controller/resourceclaim_controller.go:185-203 | default duration, holder identity, the lock and its failure exit |
| Controller.ClaimReconciler.ProvisionAndBind | internal/controller/resourceclaim_controller.go:205-280 | provisioning and binding; every failure exit gives the lease back |
| Controller.ClaimReconciler.HandleDeletion | internal/controller/resourceclaim_controller.go:283-306 | marks the claim, passing over a failed write, and drops the finalizer when no lease is recorded |
| Controller.ClaimReconciler.FreeAndRemove | internal/controller/resourceclaim_controller.go:308-348 | cleans up, frees the recorded lease, drops the finalizer |
| Controller.ClaimReconciler.ReleaseNamedResource | internal/controller/resourceclaim_controller.go:319-330 | the provider's cleanup of the resource named by the slice |
| Starting.ResetClaimStatuses | cmd/main.go:286-309 | resets exactly the Bound and Releasing claims whose write is accepted |
| Starting.RunStartupCleanup | cmd/main.go:269-312 | provider cleanup, lease release and claim reset, each going on after failures |
| Starting.StartOperator | cmd/main.go:188-256 | comes up iff the configuration is valid and no lease creation is refused, with registry and provider agreeing |
| Steps.AcquireEnds | internal/controller/resourceclaim_controller.go:153-280 | an acquisition either takes no lease and writes one phase, or took a free lease of the pool and ends as provisioning does |
| Steps.DeletionEnds | internal/controller/resourceclaim_controller.go:283-348 | every deletion marks, cleans up and frees what is recorded, and drops the finalizer only if the lease was freed |
| Steps.ReconcileEnds | internal/controller/resourceclaim_controller.go:69-150 | a reconciliation has no ends but those of its branches |
| Lifecycle.StepSound | internal/controller/resourceclaim_controller.go:112-145 | every event keeps the invariant: lease records complete or empty; a claim records a lease, times, connection and Secret together while Bound or Releasing, or nothing; Bound implies finalizer and deadline = start + requested duration |
| Lifecycle.RunSound | internal/controller/resourceclaim_controller.go:69-348 | that invariant holds in every state of every run, whatever fails and however stale reads are |
| Lifecycle.InitializeSound | internal/lease/manager.go:72-108 | creation, also interrupted or repeated, leaves every lease sound, and when it completes each account name has its lease |
| Lifecycle.InitializeExact | internal/lease/manager.go:72-108 | exactly which leases exist after creation: the old ones and those before the first refusal, under their formatted names |
| OneShot.BoundOnce | internal/controller/resourceclaim_controller.go:122-145 | between two starts a bound claim's lease, deadline, connection and Secret never change, even when reconciled from stale reads |
| NoLostLease.EveryLeaseComesBack | internal/lease/manager.go:174-182 | from any reachable state every lease reads as free once its recorded duration has passed, unless acquired again |
| Exclusivity.ExclusiveMeansUnshared | internal/controller/resourceclaim_controller.go:192-193 | no two claims record the same lease |
| Exclusivity.AcquireExclusive | internal/controller/resourceclaim_controller.go:193-271 | an acquisition, with any failures, keeps exclusivity iff the lease it takes is not recorded by a claim |
| Exclusivity.DeletionExclusiveIff | internal/controller/resourceclaim_controller.go:332-344 | a deletion keeps exclusivity iff it does not free the lease and then lose the finalizer write |
| Exclusivity.DeletionLeaves | internal/controller/resourceclaim_controller.go:283-348 | exactly when the claim is gone afterwards, what its status is otherwise, and that only its lease can be freed |
| Exclusivity.ReconcileExclusiveIff | internal/controller/resourceclaim_controller.go:69-348 | one reconciliation keeps exclusivity iff it neither overtakes nor strands its claim |
| Exclusivity.CleanStartExclusive | cmd/main.go:286-309 | after a start whose lease and claim writes succeed no claim records a lease |
| Exclusivity.RunExclusive | internal/controller/resourceclaim_controller.go:153-348 | over every disciplined run, crashes included, each recording claim is its lease's holder |
| Credentials.CleanupHitsWhatWasAcquired | internal/controller/resourceclaim_controller.go:308-330 | the deletion path finds the registry entry and account the acquisition used, with its admin Secret name |
| Credentials.AccountsDiffer | internal/provider/snowflake/provider.go:109-124 | different leases stand for different Snowflake accounts |
| Credentials.DeletionDoes | internal/controller/resourceclaim_controller.go:319-330 | exactly what a deletion with given outcomes does to the recorded lease's account and the claim's own Secret |
| Credentials.DeletionCredentialedIff | internal/controller/resourceclaim_controller.go:292-344 | with any failures and old reads, working credentials survive a deletion iff every bound claim it takes a key, role or Secret from is the one it marks or removes |
| Credentials.AcquireCredentialedIff | internal/controller/resourceclaim_controller.go:205-271 | with any failures and old reads, they survive an acquisition iff no bound claim loses its key or its Secret, or only for the same key |
| Credentials.ReconcileCredentialedIff | internal/controller/resourceclaim_controller.go:69-348 | one reconciliation keeps working credentials iff it spares every claim that stays bound |
| Credentials.RunCredentialed | internal/provider/snowflake/provider.go:175-276 | over every careful run, each bound claim's Secret, key slot, roles and connection agree |
| Credentials.RunDisciplinedCredentialed | internal/controller/resourceclaim_controller.go:153-348 | over every disciplined run whose deletions mark or remove their bound claims, exclusivity and working credentials hold together |
| Credentials.SecretsStayApart | internal/provider/snowflake/provider.go:364-371 | acquiring or releasing for one claim never touches another claim's Secret |
| Credentials.AcquiredIsConnectable | internal/controller/resourceclaim_controller.go:219-237 | connection details cannot fail after a successful acquisition, and lead to the provisioned account |
| Scrubbing.DeletionScrubsIff | internal/controller/resourceclaim_controller.go:319-336 | a deletion keeps the guarantee iff its lease release does not land, or the account was scrubbed, or its revokes and clears reach all there is |
| Scrubbing.AcquireScrubsIff | internal/controller/resourceclaim_controller.go:205-271 | an acquisition keeps it iff it does not give its lease back, or the account was scrubbed and no role was granted and no key set |
| Scrubbing.ReconcileScrubsIff | internal/controller/resourceclaim_controller.go:69-348 | the two together, for every reconciliation with any failures and stale reads |
| Scrubbing.StartScrubsIff | cmd/main.go:275-284 | a start, also one that stops anywhere, keeps it iff its loop scrubs every account whose held lease it frees |
| Scrubbing.RunScrubbedIff | internal/controller/resourceclaim_controller.go:319-336 | of a run from scrubbed accounts, all states have the guarantee iff every step scrubs first |
| Scrubbing.RunScrubbed | internal/controller/resourceclaim_controller.go:319-336 | over such runs each lease without holder has empty key slots and no configured role |
| Scrubbing.OrderlyScrubsFirst | internal/controller/resourceclaim_controller.go:319-336 | an operator that fails only by dying between two calls always scrubs first |
| Conservation.TakingConservesIff | internal/controller/resourceclaim_controller.go:205-271 | whatever fails in provisioning or binding, no hold is left behind iff the claim is bound or the lease release lands |
| Conservation.ReconcileConservesIff | internal/controller/resourceclaim_controller.go:69-348 | the same for every reconciliation of the current claim; deletions never leave one |
| Conservation.CleanStartFrees | internal/lease/manager.go:270-302 | a clean start frees every lease of the pool |
| Conservation.Balance | internal/lease/manager.go:69-111 | free leases plus recording claims equal the pool size |
| Conservation.NoOrphanHold | internal/lease/manager.go:223 | no lease names a holder that does not record it |
| Conservation.RunConserved | internal/controller/resourceclaim_controller.go:205-271 | both, in every state of every conserving run in which the operator is up |
| Recovery.StartRecovers | cmd/main.go:269-312 | from any reachable state a successful start frees every lease, unbinds every claim, scrubs every account, deletes every prefixed Secret of its namespace, and restores all pool invariants |
| Recovery.SecondStartIdle | cmd/main.go:206-256 | starting a pool at rest changes nothing, whatever fails, and comes up iff no lease creation is refused |
| Recovery.RunRecovers | cmd/main.go:206-256 | both, over runs with any crashes before |
| Recovery.RecordsGoneIff | cmd/main.go:290-294 | a clean start removes every record iff every recording claim was Bound or Releasing |
| Recovery.StartKeepsClaims | cmd/main.go:290-302 | a start removes no claim and touches only the status of Bound and Releasing ones |
| Recovery.ResetTerms | cmd/main.go:290-302 | exactly what a start leaves of each claim: Pending without lease, times, connection and Secret if it was Bound or Releasing and its write succeeds, otherwise untouched |
| Recovery.StartLeasesTerms | internal/lease/manager.go:270-302 | exactly which leases a start frees |
| Recovery.RunUnbound | cmd/main.go:295-301 | in every reachable state a claim that is neither Bound nor Releasing offers no connection and no Secret |
| Recovery.StartSecretsTerms | internal/provider/snowflake/provider.go:431-449 | exactly which Secrets a start deletes |
| Recovery.AppSecretsGoneIff | internal/provider/snowflake/provider.go:431-449 | a start whose Secret calls succeed leaves no per-claim Secret iff all lay in the operator's namespace |
| Recovery.OtherNamespaceSecretSurvives | internal/provider/snowflake/provider.go:431-449 | the Secret of a bound claim in another namespace survives every start |
| Convergence.FindsCandidate | internal/lease/manager.go:125-164 | over a current listing the search finds a lease iff the pool has a matching free one |
| Convergence.FaultFreeTakes | internal/controller/resourceclaim_controller.go:153-203 | without faults an acquisition takes a lease iff one is to be had, and otherwise waits |
| Convergence.ReconcileProgress | internal/controller/resourceclaim_controller.go:69-280 | a fault-free reconciliation lowers its claim's rank or changes nothing, and then the claim is settled |
| Convergence.EffectiveStepsBounded | internal/controller/resourceclaim_controller.go:69-280 | the number of steps with an effect is bounded by the measure at the start |
| Convergence.Stabilises | internal/controller/resourceclaim_controller.go:69-280 | every unbounded fault-free trace stops changing |
| Convergence.FairTracesSettle | internal/controller/resourceclaim_controller.go:69-280 | under a fair schedule every deleting or expired claim is gone and no claim waits for a lease it could have |
| LeaseProtocol.RunSound | internal/lease/manager.go:205-265 | in every interleaving each past version is a possible read and each worker acts on one that was free when checked |
| LeaseProtocol.StepRefines | internal/lease/manager.go:205-238 | a successful stale-read acquisition is one atomic take-if-free at its write instant; a failed one changes nothing |
| LeaseProtocol.RunRefines | internal/lease/manager.go:205-265 | the successful writes of any interleaving replay on the atomic lock and give the same leases |
| LeaseProtocol.RunHistorySafe | internal/lease/manager.go:168-265 | between two acquisitions of a lease there is a release, or the first one's window has passed |
| Versions.RunPastIsPossible | internal/lease/manager.go:208-227 | over every run each lease and claim of an earlier state is a possible read later on: every effective write makes a new version |
| UserSecrets.RunKeepsUserSecrets | internal/provider/snowflake/provider.go:283-284 | admin and other user Secrets never change except by a user, over every run |
| Waking.BoundLeftAlone | internal/controller/resourceclaim_controller.go:122-145 | a bound claim is deleted, retried or woken at its deadline, unless the deadline falls between the two clock readings |
| Waking.DeletionNotLeftAlone | internal/controller/resourceclaim_controller.go:283-348 | a deletion reports success iff the claim is gone |
| Waking.AcquireNotLeftAlone | internal/controller/resourceclaim_controller.go:153-280 | an acquisition ends without retry iff the claim is bound |
| Waking.Outcomes | internal/controller/resourceclaim_controller.go:69-348 | exactly when each reconciliation, from any read and with any failures, succeeds, repeats at once, repeats after which delay, or errs; a failed Get and a lost write never succeed |
| Waking.LeftAloneIff | internal/controller/resourceclaim_controller.go:69-150 | exactly when a reconciliation from any read succeeds without writing a claim |
| Waking.CurrentLeftAloneIff | internal/controller/resourceclaim_controller.go:122-145 | for the stored claim: iff its unknown type is already reported, or its deadline lies between the two clock readings |
| Terms.TakingTerms | internal/controller/resourceclaim_controller.go:185-193 | the lease taken ends up free, or held by "namespace/name" from the lock instant for the requested duration, one hour by default |
| Terms.TakenSuits | internal/lease/manager.go:140-186 | the lease taken is the provider's, carries every required label, and at the check had no holder or was past its window |
| Terms.BindingTerms | internal/controller/resourceclaim_controller.go:239-250 | a claim that gets bound holds its lease for the requested duration and records the lease, both times, the account's connection field by field and its Secret, and nothing else of it changes |
| Terms.PhaseWritten | internal/controller/resourceclaim_controller.go:85-236 | which phase is written when nothing is bound: Pending iff the listing held nothing for the claim, otherwise Failed; only the phase changes |
| Terms.LeaseLabelsAreConfigured | internal/provider/snowflake/provider.go:112-115 | a lease carries exactly its account's configured labels and the three managed ones |
| Terms.MatchingAccountFound | internal/lease/manager.go:115-165 | for required labels other than the managed ones, a lease is found iff some account with a free lease is configured with all of them |
| Terms.AcquisitionNeedsAdminSecret | internal/provider/snowflake/provider.go:191-206 | without a complete admin Secret in the claim's namespace an acquisition changes nothing; with one it succeeds unless a call fails |
| Terms.CleanupNeedsAdminSecret | internal/provider/snowflake/provider.go:301-311 | a release works iff the admin Secret in the operator's namespace is complete and the calls before are accepted, and otherwise changes nothing, like the startup scrub |
| Terms.UrlForms | internal/provider/snowflake/client.go:104-113 | every spelling of a URL, with or without scheme and domain, leads to the same account |
| Terms.IdentifierForms | internal/provider/snowflake/provider.go:457-472 | the account identifier is the part before the first dot, whatever the spelling |
| Limits.OvertakingWindowIff | internal/controller/resourceclaim_controller.go:240-241 | exactly when some instant finds the lease free and its claim not expired |
| Limits.OvertakingHappens | internal/controller/resourceclaim_controller.go:156-193 | in that window a waiting claim can take the recorded lease and end exclusivity |
| Limits.StaleReadBreaksCredentials | internal/controller/resourceclaim_controller.go:205-271 | a possible reconciliation from an old read that leaves a bound claim with a key that does not work |
| Limits.UnmarkedDeletionBreaksCredentials | internal/controller/resourceclaim_controller.go:292-336 | a possible half-done deletion that leaves its bound claim without a key |
| Limits.FailedProvisioningEscapes | internal/controller/resourceclaim_controller.go:206-218 | a possible failed provisioning that frees the lease of an account with a key |
| Limits.LostBindingEscapes | internal/controller/resourceclaim_controller.go:264-271 | a possible lost binding that frees the lease of a provisioned account |
| Limits.FailedReleaseEscapes | internal/controller/resourceclaim_controller.go:325-336 | a possible deletion that frees the lease of an account it could not clean |
| Limits.SkippedAccountEscapes | cmd/main.go:275-284 | a start that skips one account and frees its lease |
| Limits.HitsAnotherIff | internal/controller/resourceclaim_controller.go:124-136 | exactly when a reconciliation marks or removes another incarnation of its claim |
| Limits.OldReadDeletesNewerClaim | internal/controller/resourceclaim_controller.go:124-136 | a possible reconciliation from an old read that deletes a newer claim of the same name |

## Left out

- `ResetState` (`internal/provider/snowflake/client.go:117-142`): arbitrary user SQL at best effort; what it may do to roles or keys is not modelled.
- Conditions, messages and events of a claim. A status write that changes only the message is a new version of the real object and none of the model's.
- `Spec.Priority`: read nowhere in the program, so no order of claims is decided by it.
- Lease durations are unbounded integers: the conversion of the duration to 32 bits is taken as exact, which holds below 2^31 seconds.
- ConfigMap and YAML reading is one outcome. SQL text, the Snowflake driver, RSA key generation, and x509 parsing are foreign calls whose outcome is a flag.
- A resource returned by the registry is a position in the cached list; that the Go code returns a pointer into it, and copies before changing it, is modelled by values.
- Exclusivity.RunExclusive: nothing is claimed after an overtaking step, nor for several operator processes, because a release does not compare holders.
- Listing order, watches and the work queue: a listing is any sequence of possible reads, and any claim may be reconciled at any time.
- `GetCredentialSecret` on its own, `RotateCredentials`, `ExecuteQuery`, `GetResourceNameFromLease`: unused by the flows above or covered by them.
- Leader election, transport, RBAC, metrics, flags, generated code, manifests and end-to-end tests.
- Leases of accounts removed from the configuration, edits to a claim's spec, labels that override the reserved keys, and Secrets of the operator edited by hand: excluded by the assumptions.
