# Verified model of semaphore-service-mirror

The operator watches services, Endpoints and EndpointSlices in several clusters and drives one local
namespace toward what it sees. Watch caches feed deduplicating work queues; a reconcile function per
resource reads the cache and makes a few API calls; one store shared by all runners aggregates the
clusters of each global service. This project models that machinery in Dafny and proves the
level-triggered properties it exists for, for any number of clusters, keys and steps.

## How the model is laid out

| file | what it holds |
|---|---|
| `naming.dfy` | generated names, their decoders, when names and prefixes clash |
| `lists.dfy` | slice search and in-place removal, joining and splitting |
| `globalstore.dfy` | the store as an object of mutable entries, the functions it refines, traces of calls |
| `workqueue.dfy` | the client-go work queue rules, the queue object, which keys are reported as failing |
| `controller.dfy` | the step system every watched kind goes through, its invariant, convergence, start-up sync |
| `kube.dfy` | the local API and the service helpers |
| `mirror.dfy`, `mirrorfleet.dfy` | services and Endpoints of one remote cluster; all mirror runners side by side |
| `fleet.dfy` | several runners of one kind writing into one namespace |
| `aggregation.dfy` | all global runners over one store and one set of local services |
| `headless.dfy` | headless flags: when an entry and its local service differ |
| `draining.dfy` | when the pending keys of all global runners can be worked off, and in which orders |
| `split.dfy` | reconciles split into their store half and their local half, and what then goes wrong |
| `queued.dfy` | the same runners with their N work queues, matched by runs of `aggregation.dfy` |
| `queuedrain.dfy` | when and how fast the N queues themselves are emptied |
| `globalrunner.dfy` | one cluster's runner for global services and EndpointSlices |
| `conservation.dfy` | a global service ends up with the endpoints of all clusters |
| `backoff.dfy` | the backoff curve and the retry loop |

Code that changes objects in place is a class whose methods are proved equal to a function of the old
state; the theorems are about those functions and about the step systems made of them. The step system
of `controller.dfy` takes a reconcile apart into its cache read, its lookup, its one write, the requeue
or forget and the Done, with cache changes, event deliveries and delayed re-adds in between;
`Controller.ReconcileOnceIsARun` and `Controller.SyncIsARun` show that the sequential methods are the
runs of that system without interruptions. `aggregation.dfy` keeps, per runner, the set of keys that are
pending; `QueuedRunners.QueuesRefinePending` shows that event backlogs and work queues refine that set.
An API call can be done, be turned down, or be done with its reply lost.

## Assumptions

- A watch cache changes first and its event handler runs some time later, once per change, with the key
  of the changed object. Deletes deliver a real object.
- One worker per queue (the source starts one `Run` loop per queue).
- Nobody but the runner itself writes objects under the names it owns; others do not use its labels.
- In `aggregation.dfy` one `reconcileGlobalService` call is one atomic step. The store has no lock, and
  `split.dfy` says what the source loses without that. A retracting reconcile that is split in two keeps the
  invariant exactly when the entry is still absent or its key pending (`SplitReconciles.SplitRetractExact`,
  with a run that breaks it in `SplitReconciles.InterleavedDeleteLosesService`); a publishing one always
  keeps it (`SplitReconciles.SplitPublishKeepsInvariant`), but other runners can crash in between.
- The configured clusters, local and remote, have distinct names, which the configuration does not check;
  there are at least two, which it does (config.go:118-121).
- Where names matter the hypothesis is that the generated names of the keys in play do not clash;
  `Naming.UniquelyNamedExact` and `Naming.CleanNamespacesCollisionFree` say when that is so.

## Where the code does less than one might expect

- Distinct namespaces and names can generate the same mirror name, even among valid DNS labels
  (`Naming.DnsLabelsCanCollide`); the exact condition is `Naming.UniquelyNamedExact`.
- The create branch of `reconcileGlobalService` dereferences a nil service exactly under the condition of
  `Aggregation.CrashesExactly`. While reconciles are atomic, such a crash can come next exactly when some
  entry lacks its local service (`Aggregation.CrashLoomsExactly`), and that happens exactly when a create, or
  just as well a lookup, of a missing local service fails (`Aggregation.CoveredExactly`). When they
  interleave no failed call is needed: another runner crashes between the halves of a publishing reconcile
  (`SplitReconciles.CrashWithoutFailure`, `SplitReconciles.SplitPublishCrashesExactly`), and a withdrawing
  reconcile crashes when the last other cluster leaves between its halves
  (`SplitReconciles.WithdrawCrashesWithoutFailure`).
- A service whose kind (headless or not) differs from that of the entry is an error that is retried for
  ever. If its cluster is listed in the entry, the key stays pending whatever else happens
  (`Draining.StuckForEver`). Once caches stop changing, the queues can be emptied exactly when, for each
  key, the clusters that have the service have it in one kind, which is also the kind of the entry if one
  of them is listed there (`QueueDraining.QueuesDrainExactly`).
- An entry and its local service can differ in kind, at rest too (`HeadlessFlags.HeadlessCanDrift`): exactly
  when the entry was made over a local service of the other kind and both have been there since
  (`HeadlessFlags.DriftsExactly`). Where all definitions of a key are of one kind that never happens
  (`HeadlessFlags.OneKindNeverDrifts`).
- A cached EndpointSlice without the service-name label is retried for ever: a runner comes to rest
  exactly when every cached object is acceptable (`Controller.DrainsExactlyWhenValid`), and any such slice
  keeps it from doing so (`GlobalRunners.UnlabelledSliceNeverRests`).
- The slice sync of a remote cluster's runner lists that cluster, so it clears no leftover mirrors from the
  local namespace. A global service then has exactly its clusters' endpoints if and only if the leftovers
  aimed at it hold no address (`Conservation.EndpointsConservedExactly`).

## Model

| member | source | states |
|---|---|---|
| Naming.NamesSpelledOut | utils.go:15-43 | the documented forms of mirror names, global names and slice names |
| Naming.FirstDecodingExact | utils.go:35-37 | splitting a global service name at the first separator gives back its key if and only if the namespace followed by a dash is free of the separator |
| Naming.LastDecodingExact | utils.go:35-37 | splitting at the last separator (the greedy README rewrite) gives back the key if and only if a dash followed by the name is free of it |
| Naming.UniquelyNamedExact | utils.go:15-37 | no other key generates the same name if and only if both of those conditions hold |
| Naming.CleanNamespacesCollisionFree | utils.go:29-37 | namespaces free of the separator make every set of keys clash-free |
| Naming.DnsLabelsCanCollide | utils.go:15-37 | two different pairs of valid DNS labels with the same generated name |
| Naming.PrefixIsolationExact | utils.go:29-31 | two prefixes can produce the same mirror name if and only if one extended with a dash is a prefix of the other extended alike |
| Lists.InSlice | utils.go:58-65 | finds the first match, or reports -1 and no match when there is none |
| Lists.RemoveFromSlice | utils.go:67-70 | in place, the element goes last and the returned slice is the rest with the former last element in its position |
| Lists.SwapRemovedMultiset | utils.go:67-70 | exactly one occurrence of the removed element is gone |
| Lists.SwapRemovedElements | utils.go:67-70 | on a list without duplicates exactly that element is gone and no duplicates appear |
| Lists.SplitJoin | globalservice.go:75 | splitting undoes the comma join of a nonempty list if and only if no part holds the separator |
| GlobalStore.GlobalServiceStore.AddOrUpdateClusterServiceTarget | globalservice.go:46-79 | the mutated store equals the add function of the old one, and is untouched on a headless mismatch |
| GlobalStore.GlobalServiceStore.DeleteClusterServiceTarget | globalservice.go:84-100 | the mutated store equals the delete function of the old one; an entry is returned exactly when one is left |
| GlobalStore.GlobalServiceStore.Get | globalservice.go:103-110 | returns the stored entry, or nothing when there is none |
| GlobalStore.AddExact | globalservice.go:46-79 | an add fails exactly on a service of the other kind; otherwise ports, hints, clusters list and its annotation are as asked, a new entry is headless exactly if its service has no cluster IP, an old one keeps its kind, and no other entry changes |
| GlobalStore.DeleteExact | globalservice.go:84-100 | a delete takes the cluster off the list, an entry goes exactly with its last cluster, any other keeps all but the list and its annotation |
| GlobalStore.ApplyWellFormed | globalservice.go:46-100 | every call keeps clusters lists nonempty and duplicate-free and the annotation equal to their comma join |
| GlobalStore.ApplyMembership | globalservice.go:46-100 | a call changes the membership of its own key and cluster only, and only when it succeeds |
| GlobalStore.StoreRefinesMembership | globalservice.go:46-100 | over any trace a cluster is listed if and only if its last successful call for the key was an add |
| GlobalStore.EntryExistsExactly | globalservice.go:46-110 | an entry exists if and only if some cluster's last successful call was an add |
| GlobalStore.HeadlessConstantOverLifetime | globalservice.go:69-71 | the headless flag and the key never change while an entry stays in the store |
| GlobalStore.EntryIsOfItsMakersKind | globalservice.go:52-63 | over any trace an entry is headless exactly if the service is whose add made it |
| GlobalStore.ApplyCarries | globalservice.go:46-100 | an add leaves its own ports and hints in the entry, every other call leaves them as they are |
| GlobalStore.LastAddWins | globalservice.go:48-51 | ports and the topology hints annotation with its value are those of the last successful add, whatever clusters came and went since |
| GlobalStore.AnnotationRoundTrip | globalservice.go:75 | over any trace, splitting the clusters annotation gives the clusters list if and only if no listed name holds a comma |
| GlobalStore.AnnotationsDistinguishLists | globalservice.go:90-98 | for comma-free cluster names equal annotations mean equal lists |
| WorkQueue.OperationsKeepKeys | queue.go:33-118 | no queue operation loses a key, and a key leaves only when its processing ends unmarked |
| WorkQueue.QueueKeyRoundTrip | queue.go:33-70 | a queue key decodes to its object if and only if neither part holds a slash |
| WorkQueue.QueueKeyDecodes | queue.go:62-74 | any queue key is an error exactly if it has two slashes, and otherwise splits at its slash |
| WorkQueue.TurnExact | queue.go:43-108 | after a turn the other keys are held that were held or arrived, its own key exactly if it failed, arrived meanwhile or was delayed already; only a failed key is delayed; new arrivals queue up in order |
| WorkQueue.RequeuedExact | queue.go:110-136 | after any sequence of outcomes the list is duplicate-free and holds exactly the keys whose latest processing failed |
| WorkQueue.RequeuedCount | queue.go:138-140 | the reported count is the number of failing keys |
| WorkQueue.Queue.Add | queue.go:33-40 | the object's key is queued under the deduplicating rules |
| WorkQueue.Queue.HandleEvent | mirror_runner.go:252-266 | additions and changes queue the new object, deletions the old one, other events nothing |
| WorkQueue.Queue.ProcessItem | queue.go:56-108 | does exactly such a turn, and lists the key as failing exactly if it failed |
| WorkQueue.Queue.Requeue | queue.go:110-113 | the key is delayed and its failure recorded |
| WorkQueue.Queue.Forget | queue.go:115-118 | the key is taken off the list, the queue unchanged |
| WorkQueue.Queue.AddRequeued | queue.go:120-127 | appends unless present |
| WorkQueue.Queue.RemoveRequeued | queue.go:129-136 | removes the first match only |
| Controller.StepStaysInOwnNames | mirror_runner.go:165-249 | a step of a runner, sync included, touches only names it owns and leaves its labels on what it writes |
| Controller.InvStep | mirror_runner.go:165-266 | every single step, in any interleaving, keeps the invariant |
| Controller.NoLostUpdate | mirror_runner.go:165-266 | over every fine-grained run each key ever seen is pending or its mirror agrees with the cache |
| Controller.RequeuedKeysAreFailingAndQueued | queue.go:56-136 | over every run the listed keys are exactly those whose latest reconcile failed, and all are still queued |
| Controller.QuietStepDecreases | queue.go:43-108 | once surroundings are quiet every step decreases an explicit measure |
| Controller.QuietStepExists | queue.go:43-108 | a quiet step is possible if and only if the runner is not at rest |
| Controller.QuiescentAgrees | mirror_runner.go:165-200 | at rest the mirrors of all keys ever seen are the image of the cache and no key is listed as failing |
| Controller.DrainsExactlyWhenValid | global_runner.go:375-378 | a quiet runner can come to rest if and only if every cached object is acceptable |
| Controller.Converges | mirror_runner.go:165-200 | from every reachable state quiet runs are bounded, get stuck only at rest, and there every mirror agrees |
| Controller.StartupExact | mirror_runner.go:114-148 | after a completed sync, at rest, the labelled local objects are exactly the image of the cache |
| Controller.SyncDeletesOnlyStaleOrPending | mirror_runner.go:208-249 | a mirror the sync deletes although its key was seen belongs to a key still to be processed |
| Controller.ReconcileOnceIsARun | mirror_runner.go:165-200 | the sequential reconcile is the uninterrupted run of the step system with the same faults |
| Controller.TurnIsARun | queue.go:56-108 | a whole turn of the worker, queue and bookkeeping included, is an uninterrupted run of it |
| Controller.ReconcileSettles | mirror_runner.go:165-200 | a reconcile succeeds if and only if the object is acceptable and no call fails; one that gets to its write leaves agreement, made or updated, any other leaves all as it was; other names are untouched |
| Controller.SyncDeletesExactlyStale | global_runner.go:242-281 | a sync succeeds if and only if every listed stale name is there in its turn and its delete succeeds; the stale names before the first that fails are gone, and no others |
| Controller.SyncExact | global_runner.go:256-279 | with the runner's own objects listed, those are exactly its stale ones |
| Controller.SyncIsARun | mirror_runner.go:208-249 | the sequential sync is the run of the sync steps with the same faults in order, and completes exactly when it reports success |
| Controller.FaultFreeSyncEndsTidy | mirror_runner.go:208-249 | without faults, with its own labelled objects listed, a runner ends its sync tidy with exactly those deleted that mirror no cached key |
| Controller.CacheChanges | mirror_runner.go:252-266 | a change of the cache puts its key, and no other, on the way to the queue |
| Kube.Api.Update | kube/common.go:46-55 | replaces an existing object; a missing one is an error |
| Kube.Api.Delete | kube/common.go:58-64 | removes the object; a missing one is reported as not found |
| Mirror.MirrorKindsLawful | mirror_runner.go:165-301 | services and Endpoints meet the laws of the step system on clash-free keys |
| Mirror.AgreementNeedsDistinctNames | utils.go:29-31 | that condition cannot be dropped: two keys can both agree with every possible cache if and only if their mirror names differ |
| Mirror.MirroredServicesExact | mirror_runner.go:114-200 | for one prefix and clash-free keys: no lost update, and exact services, ports and selectors at rest |
| Mirror.MirroredEndpointsExact | mirror_runner.go:268-301 | likewise for Endpoints: no lost update, and exact objects and subsets at rest |
| Mirror.OneKindMirrors | mirror_runner.go:183-190 | over every run where definitions and leftovers of each key are of one kind, a mirror is headless exactly if its remote service is |
| Mirror.ServiceReconcileExact | mirror_runner.go:165-200 | in plain terms: the service under the documented name is deleted, made like its source, headless exactly if it is and with the mirror labels, or updated in ports and selector only |
| Mirror.EndpointsReconcileExact | mirror_runner.go:268-301 | in plain terms: the Endpoints under the documented name are deleted or get the subsets of their source and the mirror labels |
| Mirror.MirrorRunner.ReconcileService | mirror_runner.go:165-200 | the local services and the result equal the uninterrupted reconcile, and are as just said |
| Mirror.MirrorRunner.ReconcileEndpoints | mirror_runner.go:268-301 | likewise for Endpoints |
| Mirror.MirrorRunner.ServiceSync | mirror_runner.go:208-249 | the start-up sync, for any order of the listed objects: up to the first failure exactly the listed services are deleted that mirror no cached key |
| Fleets.RunnersStayApart | mirror_runner.go:165-301 | no step of one runner changes an object under a name of another |
| Fleets.FleetIsolation | mirror_runner.go:165-301 | over every run of all runners together: no lost update for any, and isolation at every next step |
| Fleets.FleetDrains | mirror_runner.go:165-200 | with acceptable caches steps of the runners bring all of them to rest |
| MirrorFleet.MirrorRunnersApartExactly | mirror_runner.go:39-108 | service runners, and Endpoints runners, are apart if and only if no prefix with a dash is a prefix of another |
| MirrorFleet.GlobalServicesUntouched | mirror_runner.go:165-249 | no step of a mirror runner, sync included, changes a global service when no prefix clashes with `gl` |
| Aggregation.StoreSideExact | global_runner.go:155-190 | a reconcile calls the store unless the cache read fails, with the hints exactly if the service carries every label of the routing selector; a service of the other kind changes nothing |
| Aggregation.LocalSideExact | global_runner.go:169-206 | the local service goes with its entry; is updated in ports, annotations and selector only; or is made from the entry, headless exactly if it is; failing calls change nothing, and success, failure and crash are told apart exactly |
| Aggregation.HintsFollowSelector | global_runner.go:178-182 | over any trace an entry has the hints annotation exactly if the service of the last successful add carries every label of the routing selector |
| Aggregation.SuccessAgrees | global_runner.go:155-207 | a successful reconcile leaves the local service in agreement with the store |
| Aggregation.MembershipEffect | global_runner.go:155-187 | a reconcile changes the membership of its own cluster and key only, to whether the cluster has the service |
| Aggregation.GlobalInvariant | global_runner.go:155-207 | in every reachable state each seen key is pending in its cluster or listed there exactly when cached, and unless pending somewhere its local service exists exactly when the entry does and carries it |
| Aggregation.AtRest | global_runner.go:155-207 | at rest a global service exists if and only if some cluster has the service, and lists exactly those clusters |
| Aggregation.CrashesExactly | global_runner.go:192-197 | the nil dereference happens if and only if the own service is gone, another cluster is listed and the local service is found missing |
| Aggregation.CoveredExactly | global_runner.go:178-198 | over every run of atomic reconciles: each entry has a local service all along if and only if no lookup or create of a missing local service fails |
| Aggregation.CrashLoomsExactly | global_runner.go:192-197 | in every state of the invariant, with at least two configured clusters: some changes of the caches lead to a crashing reconcile if and only if an entry lacks its local service |
| Aggregation.CreateBranchSafe | global_runner.go:178-198 | in runs without such a failure no reconcile can crash, whatever its calls come to |
| Aggregation.OneFailureCrashes | global_runner.go:192-197 | any such failure, in any state of the invariant in which every entry still has its local service, followed by a service of any other configured cluster that comes and goes, crashes that cluster's runner |
| Aggregation.Confluence | global_runner.go:155-207 | when definitions agree, any two runs that rest with equal caches end with equal stores and local services up to the order of clusters lists |
| SplitReconciles.RetractHalvesMakeAReconcile | global_runner.go:164-173 | without interruption the two halves of a retracting reconcile make up the atomic one |
| SplitReconciles.SplitRetractExact | global_runner.go:164-173 | whatever runs between the two halves of a retracting reconcile, the invariant holds afterwards if and only if the entry is still absent or its key pending, and every entry keeps its local service if and only if it is absent |
| SplitReconciles.InterleavedDeleteLosesService | global_runner.go:164-173 | with a retracting reconcile split, an entry can lose its local service with nothing pending |
| SplitReconciles.PublishHalvesMakeAReconcile | global_runner.go:178-206 | without interruption the two halves of a publishing reconcile make up the atomic one |
| SplitReconciles.SplitPublishKeepsInvariant | global_runner.go:178-206 | whatever runs between the two halves of a publishing reconcile, the invariant holds afterwards |
| SplitReconciles.SplitPublishCrashesExactly | global_runner.go:192-197 | in between, with no failure for other keys, a reconcile can crash if and only if its cluster lost the same service and the local service is still missing |
| SplitReconciles.CrashWithoutFailure | global_runner.go:192-197 | between the halves of a publishing reconcile another runner crashes although no call failed |
| SplitReconciles.SplitWithdrawCrashes | global_runner.go:164-197 | with no failure in between, a withdrawing reconcile split in two crashes only if the entry was retracted in between |
| SplitReconciles.WithdrawCrashesWithoutFailure | global_runner.go:164-197 | which happens when the last other cluster leaves in between, although no call failed |
| HeadlessFlags.DriftStep | kube/common.go:44-55 | a step leaves an entry and its local service of different kinds if and only if it makes the entry over a service of the other kind, or they differed before and it removes neither |
| HeadlessFlags.DriftsExactly | kube/common.go:44-55 | after every run they differ if and only if some step made the entry over a service of the other kind and both lasted since |
| HeadlessFlags.AgreeThroughoutExactly | global_runner.go:178-207 | all entries agree with their local services in every state of a run if and only if no step makes an entry over a service of the other kind |
| HeadlessFlags.OneKindNeverDrifts | globalservice.go:69-71 | where all definitions of a key, leftovers included, are of one kind, entries and local services agree in every state |
| HeadlessFlags.OneKindThroughout | globalservice.go:59 | and then entries and local services are headless exactly if the definitions are |
| HeadlessFlags.HeadlessCanDrift | kube/common.go:44-55 | at rest a headless entry can stand over a local service that is not headless |
| Draining.FaultFreeSucceedsExactly | global_runner.go:155-207 | without faults a reconcile succeeds if and only if, the service cached, it is of the kind of the entry, if any; and, the service gone, the local service is there or no other cluster is listed |
| Draining.StuckForEver | globalservice.go:69-71 | a listed cluster whose service changed its kind has the key pending in every later state, whatever the faults and the other clusters, unless its own definition changes |
| Draining.ChangedKindIsStuck | globalservice.go:69-71 | publishing a service and then changing its kind leads there |
| Draining.DrainsExactlyWhenKindsAgree | global_runner.go:155-207 | from every reachable state all pending keys can be worked off if and only if the cached definitions of each key are of one kind, which is the kind of the entry if one of those clusters is listed; and without failing calls if and only if moreover each entry without a local service lists one cluster only or has a cached service of its kind |
| Draining.DrainsInAnyOrder | global_runner.go:155-207 | where cached definitions and entry of each key are of one kind, every fault-free order of reconciles takes one step per pending key, and if withdrawals from entries that others keep find the local service, no order crashes |
| Draining.EveryOrderSucceedsExactly | global_runner.go:155-207 | from every reachable state no fault-free order meets an error or the nil dereference if and only if both of these conditions hold |
| QueuedRunners.QueuesRefinePending | queue.go:43-118 | every run with event backlogs and work queues is matched by a run with the pending set: same store, caches and local services |
| QueuedRunners.QueuedGlobalInvariant | global_runner.go:155-234 | in every run with queues each seen key waits in its cluster's queue or is listed exactly when cached, and unless it waits somewhere its local service exists exactly when the entry does and carries it |
| QueuedRunners.EmptyQueuesExact | global_runner.go:155-207 | once all queues are empty a global service exists if and only if some cluster has the service, and lists exactly those clusters |
| QueueDraining.QueuesDrainExactly | queue.go:43-108 | from every state reached with backlogs, delays and FIFO queues, and without further cache changes: some run empties all of them if and only if the cached definitions of each key are of one kind, which is the kind of the entry if one of those clusters is listed |
| QueueDraining.QuietStepDecreases | queue.go:43-108 | where no reconcile can fail for its own sake, every fault-free delivery, delayed add and turn decreases an explicit load over all queues |
| QueueDraining.QueuesConverge | global_runner.go:155-207 | then quiet runs are bounded by the load, no turn fails or crashes, they get stuck only with all queues empty, and there a global service exists if and only if some cluster has the service |
| GlobalRunners.AllHinted | global_runner.go:292-315 | endpoints of remote clusters get a zone and a hint no node is in, local ones keep their zone and get the configured hints; addresses and readiness stay |
| GlobalRunners.SliceKindLawful | global_runner.go:359-398 | slices meet the laws of the step system if and only if slice names are distinct |
| GlobalRunners.SliceReconcileExact | global_runner.go:359-398 | in plain terms: the slice under the prefixed name is deleted or gets ports, address type, endpoints one by one and exactly the four labels; a source without the service-name label is an error that changes nothing |
| GlobalRunners.MirroredSlicesExact | global_runner.go:359-398 | over every run each key is pending or its slice is just that, and at a tidy rest the labelled slices are exactly the mirrors of the cached ones |
| GlobalRunners.UnlabelledSliceNeverRests | global_runner.go:375-378 | in any state a runner reaches, a slice without the service-name label that comes into its cache keeps it from coming to rest |
| GlobalRunners.SliceLabelsCarryBoth | utils.go:45-50 | a mirrored slice carries both labels its watcher selects on and its own target |
| GlobalRunners.GlobalRunner.GenerateEndpointSliceLabels | utils.go:45-50 | although the shared base map is written to, the labels are the base ones with the given target |
| GlobalRunners.GlobalRunner.EnsureEndpointSliceZones | global_runner.go:292-315 | the loops compute the hinted endpoints |
| GlobalRunners.GlobalRunner.ReconcileGlobalService | global_runner.go:155-207 | store, local services and result equal the reconcile function of the old state |
| GlobalRunners.GlobalRunner.ReconcileEndpointSlice | global_runner.go:359-398 | the local slices and the result equal the uninterrupted reconcile, and are as said in plain terms |
| GlobalRunners.GlobalRunner.EndpointSliceSync | global_runner.go:242-281 | whatever the watcher lists, in any order: up to the first failure exactly the listed slices are deleted that mirror no cached key |
| Conservation.HintsKeepAddresses | global_runner.go:292-315 | setting zones and hints keeps the multiset of addresses |
| Conservation.SliceRunnersApartExactly | utils.go:39-43 | slice runners are apart if and only if slice names are distinct across clusters and namespaces |
| Conservation.EndpointsBalance | global_runner.go:359-398 | at rest the local slices of a global service hold exactly the addresses of its slices in all clusters and those of leftover mirrors |
| Conservation.EndpointsConservedExactly | global_runner.go:359-398 | so they hold just the former if and only if the leftovers hold no address; and there are none where every runner is tidy |
| Conservation.CleanStartEndsTidy | global_runner.go:359-398 | a start without leftover mirrors ends without them |
| Conservation.ConservationOverRuns | global_runner.go:359-398 | the same over every run of all slice runners that comes to rest |
| Conservation.RestIsReachable | global_runner.go:359-398 | and from every reachable state with labelled slices only, steps of the runners lead to such a rest |
| Conservation.GlobalServiceComplete | README.md:175-193 | the README's promise, with every queue empty: existence, clusters and endpoints of a global service, exactly but for leftover mirrors, and exactly where every runner is tidy |
| Backoffs.Settings.ForAttempt | backoff/backoff.go:42-80 | with or without jitter the result lies within the effective bounds, or is the maximum |
| Backoffs.DefaultsSpelledOut | backoff/backoff.go:42-61 | unset bounds are 100 milliseconds and 10 seconds, an unset factor doubles |
| Backoffs.GuardIsTight | backoff/backoff.go:34 | a float64 past the guard is past every 64-bit duration |
| Backoffs.FloatShape | backoff/backoff.go:61-79 | without jitter the result is the capped whole part of the curve, for every maximum, whenever the curve is a value a float64 holds |
| Backoffs.Shape | backoff/backoff.go:61-79 | likewise over all reals when the maximum or the curve is not past the guard |
| Backoffs.NeverShrinks | backoff/backoff.go:17-20 | without jitter durations never shrink and stay at the maximum |
| Backoffs.JitterStaysBelowCurve | backoff/backoff.go:64-66 | jitter never lengthens a duration on a growing curve |
| Backoffs.JitterGrowsWithDraw | backoff/backoff.go:64-66 | a draw of zero gives the minimum, and larger draws never give shorter durations |
| Backoffs.JitterReaches | backoff/backoff.go:64-66 | every duration between the bounds and below the curve comes up for some draw |
| Backoffs.Backoff.Duration | backoff/backoff.go:29-32 | returns the duration of the current attempt and advances the wrapping counter |
| Backoffs.Backoff.Reset | backoff/backoff.go:83-85 | the counter is zero |
| Backoffs.RetryWithBackoff | backoff/retry.go:29-44 | one call more than failures, and sleeps of exactly the scheduled durations |
| Backoffs.TotalSleepBounds | backoff/retry.go:29-44 | total sleep lies between the failures times the minimum and times the maximum |
| Backoffs.DoublingSum | backoff/retry.go:29-44 | with factor two and no jitter the unsaturated total is the minimum times one less than the next power of two |

## Left out

- The informers, clients, TLS and token handling, flags, configuration checks, metrics, logging and the
  HTTP server: library plumbing or one-branch checks.
- Shutdown, `Stop` and the `initialised` flag: runs are those before shutdown.
- Rate-limiting delays: a delayed key is added some time later.
- Kubernetes server behaviour beyond success, not found, already exists and other errors: immutable
  fields, garbage collection of Endpoints with their service, assigned cluster IPs.
- Update requests carry a snapshot of the object only for services; the step system compares the snapshot
  for every kind, which makes no difference because no one else writes under those names.
- Set-based label selectors: the routing strategy selector is a conjunction of label=value requirements.
- The slice sync of a runner for a remote cluster lists that cluster's mirror namespace:
  `GlobalRunners.GlobalRunner.EndpointSliceSync` covers any listing, and `Controller.InvStep` any listing of
  the runner's own names; `Controller.StartupExact` needs the local listing.
- Floating-point rounding and NaN in the backoff: the curve is an exact product over the reals.
- SplitReconciles.SplitWithdrawCrashes: covers the crash of a split withdrawing reconcile, not what its local
  half writes from an entry that has left the store by then.
- The backing array of a clusters list: the entry holds the list as a value, cut by the in-place removal.
- Aliasing of label and annotation maps after they were handed to the API: a request carries their value.
- An operation that never succeeds, in the retry loop.
