# A verified model of kwok

kwok simulates Kubernetes nodes and pods; kwokctl manages clusters of such nodes and can save,
record and replay their contents. This project models the parts of both whose correctness
depends on more than one operation, and proves what they keep:

- `NodeLease.dfy`, `NodeLeaseProgress.dfy`, `NodeLeaseRenewal.dfy`: several kwok instances competing
  for the Lease of a node through stale caches, what a sync stores, and when a holder comes back;
- `DelayQueue.dfy`, `QueueLoop.dfy`, `HoldQueue.dfy`, `HoldDelay.dfy`, `Starvation.dfy`: the weighted
  delaying queue with its indexed heaps and its loop worker, the queue of held nodes with any number
  of workers and callers, when a node in it is ready again, and when it starves;
- `StageJobs.dfy`: the stage controller's job queue and its map from object to job;
- `VersionedCache.dfy`: the double-checked cache over a resource getter, stacked to any height;
- `Keys.dfy`, `EtcdRead.dfy`: reading an etcd prefix in pages while others write;
- `BinaryHeap.dfy`, `ReorderBuffer.dfy`, `RecordReplay.dfy`, `Recording.dfy`, `ReplayClock.dfy`:
  saving, recording, loading and replaying a cluster;
- `StartOrder.dfy`: the order in which components are started;
- `IPPool.dfy`, `Histogram.dfy`, `ReplaySpeed.dfy`: the pod address allocator, the histogram metric
  and the ladder of replay speeds;
- `Options.dfy`, `Units.dfy`: optional values, and the constants that several modules use.

`dafny verify dfyconfig.toml` checks everything.

Objects that the code updates in place are classes whose methods are tied to functions of the old
state; protocols with several threads (the lease protocol, the hold queue, the cache stack) are
step systems over values, in which a run is a sequence of actions and a theorem speaks of every
run. Clocks, failures, other clients' writes and thread scheduling are inputs: actions of a run or
parameters of a method.

## Where the code does less than one would expect

These are stated as lemmas, with the exact condition under which the expected property holds.

- A stored renew time has microsecond precision, so a lease taken over within the microsecond after
  its expiry carries a renew time equal to that expiry (`StoredGapIsStrict`, `GapCanVanish`).
- `Cancel` of the delaying queue reaches only items that are still delayed. A node that is released
  and held again while its name is ready gets a second copy (`CarriedOnceExactly`); the second copy
  leaves an entry in a heap that the heap's index has lost. Nothing ever removes that entry, and a
  node that waits in the heap is never synced again exactly if such an entry of another node comes
  before all of its own (`StarvesExactly`, `StarvationReachable`). With one copy per node no
  delay is cut short (`NotReadyBeforeDue`, `ReadyWhenDue`); a lost entry can wake its own node early
  (`LostEntryWakesEarly`).
- For the same reason a stage job that is already ready is not replaced by a newer job for the same
  object, and the newer job can then escape cancellation (`NextExact`, `MissLeavesJobBehind`,
  `DeletedObjectKeepsJob`).
- A cache over a getter with the empty version, as the static getter has, never fetches; in general
  a `Get` returns the zero value exactly if it observed the empty version (`FetchedUnderAVersion`,
  `ZeroExactly`).
- The saver tracks objects by namespace and name without the resource, so creating an object while
  another resource has the same name is recorded as a patch of nothing and lost on replay
  (`PutReplaysExactly`, `SharedNameLosesObject`, `SecondOfANameIsLost`).
- The heap of a reorder buffer lets records of equal duration out in an order of its own: of three
  records in order whose last two tie, those two come out swapped (`TieComesOutSwapped`). An input is
  sure to be kept in order exactly if only equal records tie (`OrderKeptExactly`); ties between
  different objects do no harm (`SaveRecordLoadReplay`), but a tie between the creation and the update
  of one object can lose the update (`TiedUpdateIsLost`).
- Histogram buckets after the one where the largest stored bound lands stay at zero, so they are
  cumulative only if nothing was counted (`HistogramMetric.Write`).
- `Use` of an address that is still usable does not keep `Get` from handing it out
  (`UseProtects`, `ReservedAddressIsHandedOut`).
- `Get` of a single key or without a page limit ignores the revision it was asked for
  (`EtcdRead.Get`).
- Below the base speed of 0.0001 `Down` after `Up` gives 0, and off the ladder it does not undo a step
  past a power of ten (`DownUndoesUpExactly`).

## Model

| member | source | states |
|---|---|---|
| NodeLease.Int32 | pkg/kwok/controllers/node_lease_controller.go:233 | the 32-bit conversion of the lease duration: in range, congruent, identity on values that fit |
| NodeLease.Micro | pkg/kwok/controllers/node_lease_controller.go:261 | a stored MicroTime is the latest whole microsecond not after the clock reading |
| NodeLease.ExtendPair | pkg/kwok/controllers/node_lease_controller.go:252-275 | an update of the newest version comes after the expiry of every earlier version of another holder, and expires no earlier than, or comes after the expiry of, every earlier version of its own holder |
| NodeLease.ExtendLife | pkg/kwok/controllers/node_lease_controller.go:252-275 | an accepted Update keeps stamps in order, fields set, tenures exclusive and handovers counted |
| NodeLease.ServedInv | pkg/kwok/controllers/node_lease_controller.go:244-270 | a Create or Update that reaches the API server keeps the protocol invariant, whether it is accepted or refused; what is accepted is in StoredExactly |
| NodeLease.NextInv | pkg/kwok/controllers/node_lease_controller.go:174-214 | every step of every instance, the clock and a deleter keeps the protocol invariant |
| NodeLease.RunInv | pkg/kwok/controllers/node_lease_controller.go:174-214 | the protocol invariant holds in every reachable state, with any number of instances and stale caches |
| NodeLease.TenuresNeverOverlap | pkg/kwok/controllers/node_lease_controller.go:293-306 | over every run, a version with another holder was written after the expiry of each earlier version, by the clock and by the stored renew time |
| NodeLease.StoredGapIsStrict | pkg/kwok/controllers/node_lease_controller.go:252-275 | in every run, the renew time stored by a takeover exceeds the expiry of each earlier version of another holder iff a whole microsecond lies between that expiry and the clock reading |
| NodeLease.GapCanVanish | pkg/kwok/controllers/node_lease_controller.go:252-275 | a run in which the stored renew time of a takeover equals the expiry of the version taken over |
| NodeLease.AtMostOneTenure | pkg/kwok/controllers/node_lease_controller.go:293-306 | at no instant do two stored versions of one object grant a tenure to different holders |
| NodeLease.TransitionsCountHandovers | pkg/kwok/controllers/node_lease_controller.go:255-260 | in every run leaseTransitions of each version is the first version's value plus the number of holder changes, in 32 bits |
| NodeLeaseProgress.AbsentIsCreated | pkg/kwok/controllers/node_lease_controller.go:225-249 | an undisturbed sync of an absent lease stores exactly one version, with the instance as holder, its duration and the clock as renew time |
| NodeLeaseProgress.NewestIsRenewed | pkg/kwok/controllers/node_lease_controller.go:252-275 | an undisturbed sync that sees the newest version and may have it stores one more and changes nothing else |
| NodeLeaseProgress.RenewedExactly | pkg/kwok/controllers/node_lease_controller.go:252-275 | a renewal changes the renew time only, a takeover also holder, duration and count of transitions |
| NodeLeaseProgress.RetriedCreateIsStamped | pkg/kwok/controllers/node_lease_controller.go:225-249 | after a missing namespace the lease is stamped again, at the later time, and stored |
| NodeLeaseProgress.FailedRequestIsForgotten | pkg/kwok/controllers/node_lease_controller.go:174-214 | a failed request changes nothing and leaves the instance free for the next sync |
| NodeLeaseProgress.CheckExactly | pkg/kwok/controllers/node_lease_controller.go:293-306 | a lease may be had exactly by its holder, or if it has no expiry or has expired |
| NodeLeaseProgress.HeldIsLeftAlone | pkg/kwok/controllers/node_lease_controller.go:174-214 | an instance that sees an unexpired lease of another holder does not go on |
| NodeLeaseProgress.StoredExactly | pkg/kwok/controllers/node_lease_controller.go:225-275 | a request is stored iff it is a Create while the object is absent or an Update of the newest version; a refused one changes nothing |
| NodeLeaseProgress.DeletedIsNotUpdated | pkg/kwok/controllers/node_lease_controller.go:252-275 | an Update prepared for an object that was deleted since is not stored |
| NodeLeaseProgress.RunGrows | pkg/kwok/controllers/node_lease_controller.go:174-214 | over every run stored versions are never changed or lost, and deleted objects get no more |
| NodeLeaseRenewal.SyncedIsHeld | pkg/kwok/controllers/node_lease_controller.go:120-141 | whatever lease sync starts from, the one it returns passes the worker's check, and names this instance as holder unless there was no holder and the identity is empty |
| NodeLeaseRenewal.GrantedTenure | pkg/kwok/controllers/node_lease_controller.go:225-275 | creation and takeover, also of a lease without a holder, grant the controller's own duration from now on, a renewal the duration the lease had, each up to one microsecond; and exactly when there is no expiry |
| NodeLeaseRenewal.JitterInRange | pkg/kwok/controllers/node_lease_controller.go:145-147 | a jittered interval is the interval and at most 4% more |
| NodeLeaseRenewal.DueExactly | pkg/kwok/controllers/node_lease_controller.go:322-338 | a held lease is due again after the interval or at its expiry, whichever is first, but after a second if less is left and the interval does not fit |
| NodeLeaseRenewal.RequeuedExactly | pkg/kwok/controllers/node_lease_controller.go:120-141 | weight 2 iff sync returned a lease with an expiry; otherwise, and for a lease not held, the interval; never sooner than the interval or a second |
| NodeLeaseRenewal.DueBeforeExpiry | pkg/kwok/controllers/node_lease_controller.go:322-338 | the next try falls within the lease iff the interval fits into the remaining validity or a second of it is left |
| NodeLeaseRenewal.ClosedToOthers | pkg/kwok/controllers/node_lease_controller.go:293-306 | another instance's check of a held lease passes iff the lease has expired |
| NodeLeaseRenewal.HeldOnceMore | pkg/kwok/controllers/node_lease_controller.go:252-306 | in every run, a version stamped no later than the expiry of the one before it has the same holder and duration |
| NodeLeaseRenewal.TimelyKeepsLease | pkg/kwok/controllers/node_lease_controller.go:252-306 | in every run, if each version of an instance is followed by one not stamped after its expiry, every later version is that instance's |
| NodeLeaseRenewal.OnTimeKeepsLease | pkg/kwok/controllers/node_lease_controller.go:120-141 | in every run, an instance whose worker comes back on time and has a second of validity left after each reply keeps the lease for good, and no version of it expires before the next is stamped |
| NodeLeaseRenewal.DueWithinTenure | pkg/kwok/controllers/controller.go:245-249 | with the quarter interval and 4% jitter the worker is due back, delays of up to 74% of the duration included, before the lease expires |
| NodeLeaseRenewal.BoundedDelayKeepsLease | pkg/kwok/controllers/controller.go:245-249 | in every run, an instance whose delays stay within 74% of the duration keeps the lease for good, whatever the other instances try, and no version of it expires before the next is stamped |
| DelayQueue.PushOrphans | pkg/utils/heap/heap.go:38-42 | a heap loses track of an entry iff an item is pushed that it already holds |
| DelayQueue.CancelCopies | pkg/utils/queue/weight_delaying_queue.go:163-174 | Cancel removes the delayed copies of an item and leaves ready copies and other items alone |
| DelayQueue.MoveCopies | pkg/utils/queue/weight_delaying_queue.go:97-161 | the loop worker neither makes nor loses findable copies; when it moves one is in NotDueStays and ServedDue |
| DelayQueue.NotDueStays | pkg/utils/queue/weight_delaying_queue.go:116-161 | an entry that is not due stays where it is |
| DelayQueue.AddedAfter | pkg/utils/queue/weight_delaying_queue.go:73-95 | an item added with a delay is due at the clock reading plus the delay, in the heap of its weight and nowhere else, and without a delay it is ready |
| QueueLoop.ServedDue | pkg/utils/queue/weight_delaying_queue.go:97-161 | a due and findable item leaves its heap and is ready, and nothing else changes |
| QueueLoop.FirstComesFirst | pkg/utils/queue/weight_delaying_queue.go:116-161 | as long as the heap that comes first has a due item and no lost entries, only it is served |
| QueueLoop.ServeDue | pkg/utils/queue/weight_delaying_queue.go:97-161 | the loop worker alone makes a due item ready that no lost entry comes before |
| DelayQueue.BehindDeliversNot | pkg/utils/queue/weight_delaying_queue.go:116-161 | an item all of whose entries come after a lost entry of another is not delivered, at any time |
| DelayQueue.BehindStays | pkg/utils/heap/heap.go:38-71 | removals, and pushes of other items at any due time, leave it behind that entry |
| DelayQueue.BehindOrAhead | pkg/utils/heap/heap.go:38-71 | an item that a heap can find is behind a lost entry of another item, or has an entry that no lost one comes before, and never both |
| HoldQueue.NextNoneLost | pkg/kwok/controllers/node_lease_controller.go:108-161 | each map or queue operation of each thread keeps for every held name a copy that can be found or delivered, or a release about to delete it |
| HoldQueue.HeldNeverLost | pkg/kwok/controllers/node_lease_controller.go:108-161 | under every interleaving a held name has an entry that the heaps can find, is ready or in delivery, is with a worker or a TryHold, or with a ReleaseHold about to delete it; lost entries do not count |
| HoldQueue.CarriedOnceExactly | pkg/kwok/controllers/node_lease_controller.go:150-155 | a step keeps every name to one copy and the heaps free of lost entries iff it is not a TryHold of a name of which a copy is still under way |
| HoldQueue.RunCarriedOnce | pkg/kwok/controllers/node_lease_controller.go:108-161 | a run without such a TryHold keeps one copy per name throughout |
| HoldDelay.NotReadyBeforeDue | pkg/utils/queue/weight_delaying_queue.go:73-161 | with one copy per node, a node put back is through every run neither in delivery nor ready before the clock reading plus the delay, unless it is added again |
| HoldDelay.ReadyWhenDue | pkg/utils/queue/weight_delaying_queue.go:73-161 | at that very time, or at once without a delay, the loop worker can make it ready |
| HoldDelay.LatePutBack | pkg/utils/queue/weight_delaying_queue.go:73-95 | a run in which a node is put back with a clock reading so old that it is due already |
| HoldDelay.LostEntryWakesEarly | pkg/utils/queue/weight_delaying_queue.go:116-161 | a run in which a node with two copies is ready at half of the delay it was last put back with |
| Starvation.BehindNext | pkg/utils/queue/weight_delaying_queue.go:73-174 | no step of any thread, also one that pushes with an old clock reading, gets a waiting node out from behind a lost entry but its release |
| Starvation.BehindStarves | pkg/utils/queue/weight_delaying_queue.go:73-174 | through every run, a node whose one copy is behind a lost entry of another is never ready, taken or synced again unless it is released, whether or not the other is still held |
| Starvation.AheadIsDelivered | pkg/utils/queue/weight_delaying_queue.go:97-161 | a node that no lost entry comes before is made ready by the passing of time and the loop worker alone, which serves the heavier heap first |
| Starvation.StarvesExactly | pkg/utils/queue/weight_delaying_queue.go:73-174 | a waiting node is never ready again in any run that does not release it iff a lost entry of another node comes before all of its own entries |
| Starvation.ReholdReachable | pkg/kwok/controllers/node_lease_controller.go:150-161 | hold, release and hold again leave two ready copies of a node |
| Starvation.OrphanReachable | pkg/kwok/controllers/node_lease_controller.go:108-143 | putting both copies back leaves an entry that the heap's index has lost |
| Starvation.StarvationReachable | pkg/kwok/controllers/node_lease_controller.go:108-161 | a run after which an overdue held node is never synced again by any continuation that does not release it |
| StageJobs.StageController.AddStageJob | pkg/kwok/controllers/stage_controller.go:438-449 | map and queue become those of Schedule: the job is mapped and pending, the job swapped out is cancelled |
| StageJobs.StageController.Preprocess | pkg/kwok/controllers/stage_controller.go:174-232 | an object with a job for the same version changes nothing, any other gets one new job of weight 0 |
| StageJobs.StageController.StartJob | pkg/kwok/controllers/stage_controller.go:239-243 | the started job leaves the queue and its key the map |
| StageJobs.StageController.OnDeleted | pkg/kwok/controllers/stage_controller.go:419-428 | the mapped job of a deleted object is unmapped and cancelled, an unmapped key changes nothing |
| StageJobs.ScheduleCopies | pkg/kwok/controllers/stage_controller.go:438-449 | scheduling makes one copy of the new job and removes the replaced one iff that one is still delayed |
| StageJobs.RunInv | pkg/kwok/controllers/stage_controller.go:230-263 | in every run each job is in one place only and every mapped job is pending |
| StageJobs.SkippedIsPending | pkg/kwok/controllers/stage_controller.go:182-191 | preprocess skips an object only if a job for that very version is pending |
| StageJobs.QueuedAsAsked | pkg/kwok/controllers/stage_controller.go:438-449 | a new job is in the heap of weight 0 and a retried one in that of weight 1, due after exactly the delay asked for |
| StageJobs.NeverPlayedEarly | pkg/kwok/controllers/stage_controller.go:226-243 | in every run a new job is neither ready nor played before its delay has passed |
| StageJobs.NeverRetriedEarly | pkg/kwok/controllers/stage_controller.go:245-263 | the same for a retried job and its backoff |
| StageJobs.ReadyWhenDue | pkg/utils/queue/weight_delaying_queue.go:97-161 | a delayed job can be ready at the very time it is due |
| StageJobs.PendingCanBePlayed | pkg/kwok/controllers/stage_controller.go:234-263 | after every run the loop worker alone can bring each pending job to a worker |
| StageJobs.AtMostOnePending | pkg/kwok/controllers/stage_controller.go:438-449 | under the correspondence an object has at most one pending job |
| StageJobs.ScheduleExact | pkg/kwok/controllers/stage_controller.go:438-449 | scheduling keeps queue and map in one-to-one correspondence iff the replaced job is still delayed |
| StageJobs.ForgetExact | pkg/kwok/controllers/stage_controller.go:419-428 | a deletion keeps the correspondence iff the mapped job is still delayed |
| StageJobs.StartExact | pkg/kwok/controllers/stage_controller.go:239-243 | a started job is the one its key is mapped to, and starting it keeps the correspondence |
| StageJobs.NextExact | pkg/kwok/controllers/stage_controller.go:182-263 | of all steps exactly those that miss a job no longer delayed break the correspondence |
| StageJobs.RunRefines | pkg/kwok/controllers/stage_controller.go:182-263 | step by step, a run without a miss is a run of a machine that has only a map from object to pending job |
| StageJobs.RunIsPlain | pkg/kwok/controllers/stage_controller.go:182-263 | after every run without a miss the queue holds exactly the jobs of that map, each once, and workers only ever got the job it had for the object |
| StageJobs.MissLeavesJobBehind | pkg/kwok/controllers/stage_controller.go:438-449 | after a miss two jobs of one object are pending, and once the old one starts the new one cannot be cancelled by a deletion |
| StageJobs.MissReachable | pkg/kwok/controllers/stage_controller.go:438-449 | a run from the start to a miss: two updates in a row leave two jobs of one object pending |
| StageJobs.DeletedObjectKeepsJob | pkg/kwok/controllers/stage_controller.go:419-428 | the same run continued: the object is deleted and its newer job is still ready |
| StageJobs.SplitStartLeavesJobBehind | pkg/kwok/controllers/stage_controller.go:239-243 | a job scheduled between a worker's take and its delete stays pending without being mapped |
| VersionedCache.CacheGetter.Lookup | pkg/config/resources/cache.go:36-51 | a lookup answers with the stored value iff it was stored under the version asked for |
| VersionedCache.CacheGetter.GetLocked | pkg/config/resources/cache.go:45-57 | the write section takes the lock, answers a hit with the stored value, stores a fetched value under the version observed before the fetch, and frees the lock |
| VersionedCache.LockedIsHit | pkg/config/resources/cache.go:45-57 | what the write section returned is what the next lookup under that version finds |
| VersionedCache.FilledIsHit | pkg/config/resources/cache.go:36-57 | in every run, after a fill and until the next one in that layer, each call there that sees that version returns exactly the value fetched for it, without a fetch |
| VersionedCache.ReturnedWasThere | pkg/config/resources/cache.go:36-57 | in every run a returned value is the zero value or one that the source has had by then |
| VersionedCache.UndisturbedGet | pkg/config/resources/cache.go:36-57 | a Get that nobody disturbs finishes, and leaves and returns what the plain recursion over the layers does |
| VersionedCache.PlainAgain | pkg/config/resources/cache.go:36-57 | until the version changes a second Get returns the same and changes nothing |
| VersionedCache.LockedIsRun | pkg/config/resources/cache.go:45-57 | the steps of an undisturbed write section leave and return what that method does |
| VersionedCache.NextInv | pkg/config/resources/cache.go:36-61 | every step of every caller keeps cached values no older than their labels and every waiting call answerable |
| VersionedCache.GetIsFresh | pkg/config/resources/filter.go:25-35 | through a stack of any height and under every interleaving, Get returns data at least as new as the version it observed, which is at least as new as the one when it began |
| VersionedCache.FetchedUnderAVersion | pkg/config/resources/cache.go:36-57 | in every run a call gets past the read section only if it observed a nonempty version |
| VersionedCache.ZeroExactly | pkg/config/resources/static.go:32-34 | in every run a finished Get returns the zero value iff it observed the empty version |
| Keys.Successor | pkg/kwokctl/etcd/client.go:250-251 | appending a zero byte gives the immediate lexicographic successor |
| Keys.PrefixRange | pkg/kwokctl/etcd/client.go:224-230 | the keys from a prefix to its range end are exactly the keys with that prefix |
| EtcdRead.StartIsPrefixRead | pkg/kwokctl/etcd/client.go:219-230 | the first range of the page loop covers exactly the prefix, also when the prefix is empty |
| EtcdRead.RestOfRead | pkg/kwokctl/etcd/client.go:246-252 | continuing after the last key of a page reads exactly what the page left over |
| EtcdRead.SingleIsRead | pkg/kwokctl/etcd/client.go:182-189 | a request for one key reads that key and no other |
| EtcdRead.FetchPage | pkg/kwokctl/etcd/client.go:232-252 | one request settles the revision, extends what was read without gap or overlap, and leaves less to read |
| EtcdRead.FetchPages | pkg/kwokctl/etcd/client.go:207-253 | the page loop ends, and what it sends is the whole prefix at one revision, or a first part of it on failure |
| EtcdRead.Respond | pkg/kwokctl/etcd/client.go:255-266 | the callback sees the entries in order, up to and including the one it fails on |
| EtcdRead.GetPaged | pkg/kwokctl/etcd/client.go:203-274 | whatever is written between pages, the callback sees the prefix at one revision, each key once and in order; Get succeeds iff the callback does and every request was answered, which is so if the server is there and the revision exists |
| EtcdRead.Get | pkg/kwokctl/etcd/client.go:166-274 | all branches deliver one sorted read of the prefix, or of the single key, at one revision, the unpaged ones always at the newest; Get fails only if the callback does or a request was not answered |
| StartOrder.Partition | pkg/kwokctl/components/utils.go:45-51 | each pass splits the remaining components without losing or doubling any |
| StartOrder.Pass | pkg/kwokctl/components/utils.go:41-51 | filtering in place over the backing array yields the blocked components in order and loses none that is still to be read |
| StartOrder.GroupByLinks | pkg/kwokctl/components/utils.go:35-68 | the loops end and compute the layering, or fail where it has a dead end |
| StartOrder.LayersSound | pkg/kwokctl/components/utils.go:59-67 | on success the nonempty groups are a permutation of the input and every link names a component of a strictly earlier group |
| StartOrder.GroupsAreAnOrder | pkg/kwokctl/components/utils.go:59-67 | starting group after group is an order in which all links are satisfied |
| StartOrder.NoneMeansNoOrder | pkg/kwokctl/components/utils.go:52-58 | after a dead end no permutation of the components satisfies all links |
| StartOrder.FailsIffNoOrder | pkg/kwokctl/components/utils.go:52-58 | an error is returned iff no total order of the components satisfies all links |
| StartOrder.EarliestGroup | pkg/kwokctl/components/utils.go:40-66 | every component is in the earliest group that any valid layering allows |
| StartOrder.GroupsKeepOrder | pkg/kwokctl/components/utils.go:45-51 | within a group components keep their input order |
| ReorderBuffer.ArrivalFits | pkg/kwokctl/etcd/save.go:220-229 | an arrival comes no earlier than anything let out iff fewer than threshold earlier arrivals exceed it |
| BinaryHeap.PushOrders | pkg/utils/heap/heap.go:38-42 | Push with sifting up keeps the heap order and adds just the new entry |
| BinaryHeap.PopOrders | pkg/utils/heap/heap.go:45-52 | Pop with sifting down keeps the heap order and takes out an entry that none precedes |
| ReorderBuffer.ReorderedExactly | pkg/kwokctl/etcd/save.go:220-248 | the output is a permutation, and it is sorted iff each item has fewer than threshold earlier arrivals of larger duration |
| ReorderBuffer.Reorder | pkg/kwokctl/etcd/load.go:151-194 | the two loops compute that output and never hold more than threshold items |
| ReorderBuffer.OrderKeptExactly | pkg/kwokctl/etcd/save.go:220-248 | every sorted output equals the input iff the input is sorted and items of equal duration are equal |
| ReorderBuffer.TieComesOutSwapped | pkg/utils/heap/heap.go:91-100 | of three items in order whose last two tie, those two come out swapped |
| ReorderBuffer.SevenWithTies | pkg/utils/heap/heap.go:91-100 | the order in which the heap lets out five items of one duration and two of a later one |
| ReorderBuffer.SortedIsDetermined | pkg/kwokctl/etcd/save.go:206-248 | if only equal items tie, the sorted output is the only possible one |
| RecordReplay.CoherentExactly | pkg/kwokctl/etcd/load.go:427-502 | put, patch, delete and lazy fetch, successful or refused, keep every tracked content equal to the stored one; only a lost reply to a change of a tracked object breaks that |
| RecordReplay.WritesExactly | pkg/kwokctl/etcd/load.go:427-502 | a refused request and a patch without a readable original leave the store alone, otherwise the object is written, whether or not the reply arrives, and tracked if it does; no other object is touched |
| RecordReplay.ReplayCoherentExactly | pkg/kwokctl/etcd/load.go:427-502 | over a whole replay with successes, refusals, failed reads and lost replies, tracked and stored contents agree throughout iff no reply to a change of a tracked object was lost |
| RecordReplay.SameReplay | pkg/kwokctl/etcd/load.go:427-502 | two replays that apply the same records to each object in the same order end alike, however the objects are interleaved |
| RecordReplay.ReplayStep | pkg/kwokctl/recording/api.go:52-86 | a record made from the tracked content and applied by the loader does to the store what the event did |
| RecordReplay.Redelivery | pkg/kwokctl/etcd/save.go:209-210 | events delivered again at the snapshot revision change nothing |
| RecordReplay.RoundTrip | pkg/kwokctl/etcd/save.go:88-210 | snapshot and records rebuild exactly the final cluster for every history, boundary events included, and leave other objects of the target alone, if no two resources share a name |
| RecordReplay.PutReplaysExactly | pkg/kwokctl/recording/api.go:60-86 | a put is replayed right by every lawful patch library iff its name was not tracked, or the object is in the store as it was tracked under that name |
| RecordReplay.SharedNameLosesObject | pkg/kwokctl/etcd/save.go:54 | creating an object while another resource is tracked under its name is recorded as a patch and lost on replay |
| Recording.SecondOfANameIsLost | pkg/kwokctl/etcd/save.go:136-203 | Record and Replay of the creation of two resources of one name leave the first only |
| RecordReplay.FlatPatchesAreLawful | pkg/kwokctl/recording/api.go:77-84 | the law asked of the patch library is met by merge patches on flat documents |
| Recording.Saver.Save | pkg/kwokctl/etcd/save.go:88-119 | a saved document is written and tracked under its namespace and name |
| Recording.Saver.SetDelete | pkg/kwokctl/recording/api.go:52-57 | a delete record, and the name is no longer tracked |
| Recording.Saver.SetContent | pkg/kwokctl/recording/api.go:60-86 | a create record for an untracked name, otherwise a patch from the tracked content, and the new content is tracked |
| Recording.Saver.BuildResourcePatch | pkg/kwokctl/etcd/save.go:136-203 | the record of an event, with the time since the first event as its duration |
| Recording.Saver.RecordEvents | pkg/kwokctl/etcd/save.go:206-249 | the records are those of the events with the time since the first event, written as the buffer lets them out, and in their own order if the clock always advances |
| Recording.Loader.PutObject | pkg/kwokctl/etcd/load.go:315-345 | store and tracked content change together, or as far as the reply allows |
| Recording.Loader.DelObject | pkg/kwokctl/etcd/load.go:301-313 | store and tracked content lose the object together, or as far as the reply allows |
| Recording.Loader.ApplyResourcePatch | pkg/kwokctl/etcd/load.go:427-502 | the loader's state becomes that of Apply, for each method, missing originals and every reply |
| Recording.Loader.Load | pkg/kwokctl/etcd/load.go:114-145 | every document of the snapshot is put, in order |
| Recording.Loader.Replay | pkg/kwokctl/etcd/load.go:148-197 | the records are applied in the order in which the buffer lets them out |
| Recording.SortedReplaysAlike | pkg/kwokctl/etcd/load.go:148-197 | if the records of each object have ascending durations, every sorted order of all records replays as the order in which they were made |
| Recording.SaveRecordLoadReplay | pkg/kwokctl/etcd/load.go:114-197 | Save, Record, Load and Replay in a row, through both buffers, give an empty store exactly the final contents of the recorded cluster, if the clock does not go back and has advanced between two events of one object |
| Recording.TiedUpdateIsLost | pkg/kwokctl/etcd/save.go:206-249 | Record and Replay of seven events with ties, the creation and the update of one object and the creations of five others, leave the older content |
| ReplayClock.Pace.SleepFor | pkg/kwokctl/etcd/load.go:222-242 | the sleeps cover the gap in steps of at most a second, each divided by the speed of the moment, with pauses in between |
| ReplayClock.ScaledExactly | pkg/kwokctl/etcd/load.go:233-238 | a sleep is the longest that does not overrun its step at the speed, so a speed above 1 shortens it and one below 1 lengthens it |
| ReplayClock.Pace.HandleResourcePatch | pkg/kwokctl/etcd/load.go:199-256 | with and without a speed handle: the record is applied no earlier than the recording gets there at the top speed, less under a nanosecond a sleep, and without a handle no earlier than its duration; a replay more than a second behind is slowed down; clock and accounted time are exact |
| ReplayClock.Pace.Play | pkg/kwokctl/etcd/load.go:188-194 | over a whole replay no record is applied before its time in that sense or before the one before it has been applied |
| IPPool.AddIPCounts | pkg/utils/net/ip.go:50-63 | offset 0 is the address itself and each further offset the next one, the first after the last |
| IPPool.AddIPInjective | pkg/utils/net/ip.go:50-63 | fewer than 2^64 successive offsets give different addresses |
| IPPool.KnownStaysKnown | pkg/kwok/controllers/utils.go:64-114 | over every history the addresses known to the pool, used or usable, only grow |
| IPPool.NextUnused | pkg/kwok/controllers/utils.go:64-77 | the skip loop ends and finds the lowest index from the current one on whose address is not in use |
| IPPool.Pool.New | pkg/kwok/controllers/utils.go:64-77 | a new address was not in use, and becomes used and usable |
| IPPool.Pool.Get | pkg/kwok/controllers/utils.go:79-95 | Get never returns an outstanding address, and takes a usable one if there is any, else the first unused one from the index on |
| IPPool.Pool.Put | pkg/kwok/controllers/utils.go:97-105 | an address of the block becomes usable and unused, any other changes nothing |
| IPPool.Pool.Use | pkg/kwok/controllers/utils.go:107-114 | an address of the block becomes used, and outstanding addresses stay protected |
| IPPool.NeverReturned | pkg/kwok/controllers/utils.go:64-114 | no sequence of Get, Use and Put of other addresses returns an address that is out of reach |
| IPPool.GetUntil | pkg/kwok/controllers/utils.go:64-95 | an unused address within reach is returned after finitely many Gets |
| IPPool.UseProtects | pkg/kwok/controllers/utils.go:107-114 | after Use(ip) no sequence of Get, Use and Put of other addresses returns ip iff ip was not usable and is in the block, already in use, or not one that new() can make |
| IPPool.ReservedAddressIsHandedOut | pkg/kwok/controllers/utils.go:79-114 | Get, Put, Use and Get hand out the reserved address |
| Histogram.SortSorts | pkg/kwok/metrics/histogram.go:89-90 | the visible bounds are the given ones in ascending order |
| Histogram.Advance | pkg/kwok/metrics/histogram.go:127-131 | skipped buckets get the count so far, and the index stays in range and lands on the first bound not below the key |
| Histogram.HistogramMetric.Write | pkg/kwok/metrics/histogram.go:107-151 | each bucket up to the landing one is the exact sum of counts at or below its bound, later ones are 0, sample count and sum are the totals, the sum infinite or undefined if a count or a zero is stored at infinity, and a bucket is cumulative iff it is not a later one or the total is 0 |
| ReplaySpeed.Digits | pkg/kwokctl/recording/speed.go:62-67 | a number has d digits iff it lies between the powers of ten |
| ReplaySpeed.DownUndoesUp | pkg/kwokctl/recording/speed.go:31-59 | on the ladder Up goes strictly up, stays on it, and Down undoes it, at powers of ten and at 0 too |
| ReplaySpeed.UpUndoesDown | pkg/kwokctl/recording/speed.go:31-59 | on the ladder above 0 Down goes strictly down, never below 0, and Up undoes it |
| ReplaySpeed.SecondDigitSteps | pkg/kwokctl/recording/speed.go:36-44 | a step changes the second significant digit by one |
| ReplaySpeed.DownUndoesUpExactly | pkg/kwokctl/recording/speed.go:31-59 | for any integer speed Down undoes Up iff the speed is 0, or at least the base speed with two digits or a step that does not lead past a power of ten |
| ReplaySpeed.Handle.SpeedUp | pkg/kwokctl/recording/handle.go:96-104 | the speed stays on the ladder and at most 10, and Down undoes a change |
| ReplaySpeed.Handle.SpeedDown | pkg/kwokctl/recording/handle.go:107-115 | the speed stays on the ladder and positive, and Up undoes a change |

## Left out

- The lease protocol, the hold queue's threads and the cache stack are step systems over values instead of objects with locks; what Go's memory model adds is not captured.
- NodeLease.Next: the informer cache may return any version stored since the object was last created, and anything under an older resource version, which admits more stale reads than an informer makes; other writers of the lease are limited to one initial version and deletions.
- `Held` of the lease controller, which reads the cache and ignores expiry and so promises no exclusion.
- HoldQueue.HeldNeverLost: says that a held node has a copy somewhere, not when a worker gets to it; the order among ready items by weight is not modelled.
- Starvation.StarvesExactly: which of several entries due at the same time Peek returns is left open, so a node whose entry ties with a lost one counts as one that may become ready.
- StageJobs.RunInv: scheduling, starting and deleting are single steps; SplitStartLeavesJobBehind shows what a finer interleaving can do.
- Playing a stage, matching lifecycles, patches against the API server and the backoff delay of retries.
- Key construction from resources for the etcd read, and compaction other than as a failed request.
- RecordReplay.RoundTrip: documents carry no resource version, every object is stored in one version of its resource and has a name, and decoding never fails; patch computation is a pair of functions with the law that applying a difference yields its target.
- ReplayClock.Pace.HandleResourcePatch: what the handle's speed is at each reading is an input; the product and the quotient of a duration and a speed are rounded down exactly instead of in floating point.
- NodeLeaseRenewal.OnTimeKeepsLease: takes the times at which the next version is stamped as given; scheduling of workers is not modelled.
- ReorderBuffer.SevenWithTies: the heap is container/heap as Go's library has it, on a sequence instead of a slice of pointers.
- IPPool.Pool.Get: assumes that fewer than 2^64 addresses are in use, since otherwise the code's loop does not end.
- Histogram.HistogramMetric.Write: does not model the rounding of the sample sum, NaN bounds or a concurrent Set.
- ReplaySpeed.DownUndoesUp: speeds are integers scaled by 100000; rounding of floating-point speeds is not modelled.
- Pod and node controllers, whose job queues repeat the stage controller's.
- HTTP servers, exec, attach, logs and port forwarding, CNI, PKI, command lines, configuration conversion and the component argument builders.
