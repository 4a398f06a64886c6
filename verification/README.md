# Scheduler and recommender, verified

A model of the stateful core of the scheduler and of the resource recommender, with proofs of
what its incremental data structures keep. Everything is checked by Dafny 4.11;
`dafny verify dfyconfig.toml` checks the project. Nothing here runs the program.

The five components and their modules:

* **Scheduler cache and snapshot.** `NodeInfo` has the per-node aggregates. `NodeTree` is the
  round robin over zones. `CacheModel` is the cache as a state machine with its invariant,
  `CacheRuns` what runs keep whatever versions of pods they pass, `CacheWitnesses` runs that end
  the process, `CacheSums` the sums over all runs, `CacheConservation` those over runs in which
  updates change what pods ask for, and the full rebuild, `CacheHistory` what is known of each pod
  after any run, and `PodRequests` what pods request and when host ports conflict. `RecencyList` is
  the list order, `ItemList` its pointers, `SchedulerCache` the cache object, proved to refine the
  state machine.
  `SnapshotModel` is UpdateSnapshot on values with the main theorems; `SnapshotObject` and
  `UpdateSnapshot` are the objects and loops, proved to compute it.
* **Scheduling queue.** `HeapOrder` and `KeyedHeap` are the binary heap with its key index.
  `PodBackoff` is the backoff with its overflow, `QueueModel` the queue as a state machine,
  `QueueDestinations` where each event takes each pod and how long backoff lasts,
  `SchedulingQueue` the object over two heaps and a map, `Nominator` the nominated pods,
  `PodKeys` the two ways pods are keyed.
* **Host selection.** `FeasibleNodes` is the parallel search, interleaving by interleaving;
  `SelectHost` the tie-break with its chances.
* **Histograms and recommendation.** `HistogramOptions`, `Histogram`, `HistogramScaling`,
  `DecayingHistogram`, `Checkpoint`, `Estimators` for the stack that makes lower bound, target
  and upper bound, and `RecommendedAmounts` for what these come to.
* **Cluster state.** `ContainerState` has the memory peaks, `MemoryHistogram` the decaying
  histogram they end up in, `Bookkeeping` the sample times, `ClusterState` the pod counts and
  aggregation links of the autoscalers.

How objects are modelled. Classes carry the source's fields; a method's contract equates the
new abstract value (`View()`) with a specification function of the old one, and the theorems
are about those functions and runs of them. A `Name` stands for a string that is only compared.
In the cache the contents of an item are kept in a map under the item's name, next to the linked
list of items; an operation loads them into a NodeInfo object, calls the object's method and
stores them back. Snapshot entries are NodeInfo objects, shared by the map and the lists, since
there the source relies on updating in place. `Arithmetic` has the lemmas about products and
powers that several modules use. Two things keep the proofs quick: a precondition written
`P(x) == true` is just `P(x)`, checked as a whole and not part by part, and a `hide` statement
keeps definitions that a proof does not need out of it.

What was found on the way, as lemmas:

* For each ghost (an item without a Node) the pruning test of UpdateSnapshot lets one deleted
  node survive in the snapshot (`SnapshotModel.RefreshKeysIff`, `GhostHidesADeletion`). An update
  during which there was a ghost can make a later one without ghosts report an inconsistency
  (`RefreshSucceedsIff`, `GhostSpoilsALaterUpdate`).
* A pod update whose old version names a node that is not cached doubles the pod, and a node
  update for a ghost sets the Node without naming it in the tree (`CacheModel.UpdatePodKeepsIff`,
  `UpdateNodeKeepsIff`). Runs from an empty cache reach both (`UpdatePodCanDouble`,
  `UpdateNodeCanMissTree`).
* Removing a pod from an item that does not list it and has no Node dereferences nil, for the sake
  of an error message (`CacheModel.UpdatePodKeepsIff`, `CacheRuns.StepIsFatalIff`,
  `CacheRuns.CleanUpIsFatalIff`). Runs from an empty cache get there by an update and by a cleanup
  (`CacheWitnesses.UpdatePodCanPanic`, `CleanUpCanPanic`).
* An update without an old version puts a pod that is backing off into two queues
  (`QueueModel.UpdateKeepsPartitionIff`). Reading the cycle at the time of the failure report
  loses move requests that ran before a later pop (`QueueModel.LateReadingLosesEarlierMoves`).
  Runs from an empty queue reach both (`UpdateCanDouble`, `MoveCanBeLost`).
* Backoff doubling wraps around exactly when the last doubling that is at most the maximum
  cannot be doubled in an int64 (`PodBackoff.BackoffIsExponentialIff`, `BackoffCanOverflow`).
* The comment that scaling does not affect percentiles holds exactly while neither end of the
  range drops out (`HistogramScaling.ScalingKeepsPercentilesIff` for all numbers,
  `ScalingKeepsProperPercentilesIff` for those between 0 and 1, `ScalingCanMovePercentiles`).
* The upper bound is clamped to the largest amount and the target is not
  (`Estimators.BoundsAreOrdered`, `TargetCanExceedUpperBound`).
* After a first usage of zero no later usage of the window replaces its peak
  (`ContainerState.PeakIsMaximumIff`, `PeakCanMissMaximum`).

## Model

| member | source | states |
|---|---|---|
| SnapshotModel.EveryUpdateSucceeds | scheduler/internal/cache/cache.go:183-257 | In every run of cache events and snapshot updates from an empty cache, with whatever versions of pods, in which no item is a ghost when a snapshot is updated and node updates name nodes of the tree or unknown ones, every update succeeds and the snapshot is the whole cache: same names, same contents, each listed once, the affinity list their filter |
| SnapshotModel.EveryUpdateHasRebuiltSums | scheduler/internal/cache/snapshot.go:55-75 | In every such run in which the versions of a pod ask for the same resources, every updated snapshot has the names, Nodes, pods and sums that a full rebuild from the pods in the cache has, each pod as often as it is there; and the same ports when versions ask for the same ports and no two pods of a node ever share one |
| SnapshotModel.RefreshEqualsCache | scheduler/internal/cache/cache.go:183-297 | One update of a snapshot that satisfies the invariant, without ghosts: success, contents equal to the cached ones, list duplicate-free and complete, affinity list exact, invariant kept |
| SnapshotModel.EveryUpdateEqualsRebuild | scheduler/internal/cache/snapshot.go:55-75 | In every such run in which, besides, pod updates pass two versions of one pod, the old one on a cached node, and removals pass versions that ask for what the cached one asks for, every updated snapshot has the contents of a full rebuild from the cached pods and Nodes, affinity lists included |
| SnapshotModel.UpdateEqualsRebuild | scheduler/internal/cache/snapshot.go:55-75 | One update from exact items and a complete snapshot gives what the full rebuild computes |
| SnapshotModel.RefreshKeysIff | scheduler/internal/cache/cache.go:234-237 | The snapshot's names are exactly the nodes of the tree if and only if no ghost was in the snapshot and, besides, no removed node was or there are no ghosts: each ghost lets one removed node pass the pruning test |
| SnapshotModel.GhostHidesADeletion | scheduler/internal/cache/cache.go:234-254 | A concrete run with one ghost after which nothing is pruned, a removed node stays in the snapshot, and the update reports an inconsistency |
| SnapshotModel.ScanFindsChanges | scheduler/internal/cache/cache.go:199-229 | Stopping at the first item that is not newer than the snapshot loses no change: the contents and both flags are those of a scan of all items |
| SnapshotModel.RefreshListsTheTree | scheduler/internal/cache/cache.go:239-283 | From a snapshot whose list names all of it, the list after an update enumerates the tree, ghosts or not |
| SnapshotModel.RefreshSucceedsIff | scheduler/internal/cache/cache.go:244-257 | From any snapshot that satisfies the invariant an update succeeds if and only if a node of the tree has no contents yet, or there are more names than items, or the old list has as many names as the tree |
| SnapshotModel.RefreshListLength | scheduler/internal/cache/cache.go:244-257 | After any update, successful or not, the list is as long as the tree |
| SnapshotModel.AffinityIsFilter | scheduler/internal/cache/cache.go:277-282 | The affinity list has, in the order of the list and once each, exactly the names whose contents list a pod with affinity terms |
| SnapshotModel.SecondUpdateChangesNothing | scheduler/internal/cache/cache.go:199-205 | After an update without ghosts the snapshot's generation is that of the newest item, and an update right after it succeeds and leaves the snapshot as it is |
| SnapshotModel.GhostSpoilsALaterUpdate | scheduler/internal/cache/cache.go:244-257 | A concrete run in which a node with a pod goes and comes back with an update in between: the later update fails although nothing is a ghost by then |
| SnapshotModel.RefreshKeepsInv | scheduler/internal/cache/cache.go:183-257 | Every update, with or without ghosts, leaves live nodes up to date and lists consistent, so that the next one can build on it |
| CacheRuns.StepTouches | scheduler/framework/v1alpha1/types.go:219-221 | Every cache event gives a new generation to every item whose contents it changes, when no UID is more often in an affinity list than among the pods, which every event keeps |
| CacheRuns.StepKeepsTree | scheduler/internal/cache/cache.go:580-596 | Every event, with whatever versions of pods, keeps the tree in agreement with the items that have a Node, if and only if it is not a node update of a ghost |
| CacheRuns.StepKeepsRunInv | scheduler/internal/cache/cache.go:318-628 | With whatever versions of pods, every event but such a node update keeps what snapshot updates rely on: bounded generations, the tree's agreement, covered affinity lists |
| UpdateSnapshot.Update | scheduler/internal/cache/cache.go:183-257 | The walk over the linked list, the pruning, the lists and the final check turn the snapshot's objects into what the value model says, for the order of the list and the enumeration of the tree; the cache itself is unchanged |
| UpdateSnapshot.ScanCache | scheduler/internal/cache/cache.go:199-229 | Following the next pointers from the head visits the items in list order and stops at the first old one |
| UpdateSnapshot.RelistNodes | scheduler/internal/cache/cache.go:259-276 | The rebuilt lists hold, in tree order, the NodeInfos of exactly the enumerated nodes that have contents |
| SnapshotObject.Snapshot.RemoveDeletedNodes | scheduler/internal/cache/cache.go:286-297 | Exactly as many names without an item are removed as there are names too many |
| SnapshotObject.Snapshot.Put | scheduler/internal/cache/cache.go:208-228 | The NodeInfo object of a name is kept and overwritten in place, so the lists that share it show the new contents; the two flags say whether the name is new and whether its affinity status changed |
| RecencyList.TouchListed | scheduler/internal/cache/cache.go:107-130 | Moving an item that got the newest generation to the head keeps the list complete, duplicate-free and strictly decreasing in generation |
| RecencyList.NewerItemsAreAPrefix | scheduler/internal/cache/cache.go:201-205 | All items newer than a generation precede the first one that is not |
| RecencyList.ListIsDetermined | scheduler/internal/cache/cache.go:107-153 | The generations of the items determine the list |
| RecencyList.ListedIsSorted | scheduler/internal/cache/cache.go:30-37 | A list that names the newest item first, then the newest of the rest, and so on, holds every item once in strictly decreasing order of generation |
| ItemList.Items.MoveToHead | scheduler/internal/cache/cache.go:107-130 | The pointer updates keep both directions of the list linked and bring the item to the front of the sequence it spells out |
| ItemList.Items.Remove | scheduler/internal/cache/cache.go:135-153 | The pointer updates take the item out of the sequence and out of the map |
| SchedulerCache.Cache.AssumePod | scheduler/internal/cache/cache.go:318-337 | Does to the abstract state what the state machine's assume does, with its error, and keeps the list linked, complete and sorted |
| SchedulerCache.Cache.FinishBinding | scheduler/internal/cache/cache.go:339-361 | A known assumed pod gets a deadline; nothing else changes |
| SchedulerCache.Cache.ForgetPod | scheduler/internal/cache/cache.go:363-390 | Takes an assumed pod out of its node and out of the pod states, or reports the error cases |
| SchedulerCache.Cache.PlacePod | scheduler/internal/cache/cache.go:393-401 | The pod joins the item of its node, made if missing, which becomes the head of the list |
| SchedulerCache.Cache.UnplacePod | scheduler/internal/cache/cache.go:416-431 | The pod leaves its node's item, which is dropped when it has neither pods nor a Node, else moved to the head; an unknown node is ignored; a pod that the item does not list is an error or, without a Node, ends the process |
| SchedulerCache.Cache.AddPod | scheduler/internal/cache/cache.go:433-467 | Confirms an assumed pod, moving it when it was assumed elsewhere, or adds an unknown one, as the specification says, of which CacheHistory.FateIsKept and ConfirmedStays tell what is known of the pod then |
| SchedulerCache.Cache.UpdatePod | scheduler/internal/cache/cache.go:470-495 | Replaces a pod's cached version, with the fatal cases of a changed node and of a ghost that does not list the old version, and the partial effect of a failed removal |
| SchedulerCache.Cache.RemovePod | scheduler/internal/cache/cache.go:498-525 | Removes a confirmed pod's cached version |
| SchedulerCache.Cache.AddNode | scheduler/internal/cache/cache.go:562-578 | The node's item takes on the Node object and heads the list, and the tree names it |
| SchedulerCache.Cache.UpdateNode | scheduler/internal/cache/cache.go:580-596 | As AddNode, but the tree gains the name only if there was no item; when the old Node's zone differs, the tree loses the old name and gains the new one |
| SchedulerCache.Cache.RemoveNode | scheduler/internal/cache/cache.go:605-628 | The item loses its Node and stays as a ghost while it has pods; the tree loses the name, or reports that it had none |
| SchedulerCache.Cache.CleanUpAssumedPods | scheduler/internal/cache/cache.go:691-723 | Every assumed pod gets one turn, in any order; only a turn that ends the process stops it early, and its outcome is that of the specification |
| CacheModel.RunKeepsInv | scheduler/internal/cache/cache.go:318-525 | Every expected run keeps: each pod state's pod exactly once in the item of its node and no other pod anywhere; assumed pods tracked; tree and Node objects in agreement; every item has a Node or a pod; generations bounded |
| CacheModel.PlacedExactlyOnce | scheduler/internal/cache/cache.go:393-431 | A key sits in the item of a node, at exactly one position, if and only if its pod state names that node |
| CacheModel.CleanUpNeverFails | scheduler/internal/cache/cache.go:698-712 | After any expected run, cleaning up any key neither ends the process nor fails |
| CacheRuns.CleanUpIsFatalIff | scheduler/internal/cache/cache.go:698-712 | After any run from an empty cache, with whatever versions of pods, the cleanup of a key ends the process only where the expired pod is not listed by an item without a Node: never because a key has no pod state or a finished binding no deadline |
| CacheWitnesses.CleanUpCanPanic | scheduler/framework/v1alpha1/types.go:522-522 | From an empty cache, with updates from one pod to another and from one node to another, the cleanup of an assumed pod ends the process |
| CacheRuns.StepIsFatalIff | scheduler/internal/cache/cache.go:470-525 | In a state that satisfies the placement invariant an event ends the process if and only if it updates or removes a confirmed pod under another node than the cached one, or updates it from an old version on an item without a Node that does not list it |
| CacheModel.CleanUpIsExact | scheduler/internal/cache/cache.go:691-723 | A cleanup forgets exactly the assumed pods whose binding finished and whose deadline has passed, whatever the order of its visits, and keeps the rest sound |
| CacheHistory.FateIsKept | scheduler/internal/cache/interface.go:14-44 | After any run whatever the cache knows of every key what the successful calls about it say: whether it is unknown, assumed or confirmed, in which version, with which deadline, and whether its binding finished |
| CacheHistory.AssumedIff | scheduler/internal/cache/interface.go:14-44 | After any run a key is assumed if and only if its last successful Assume, Add, Forget, Remove or expiring cleanup was an Assume, and known if and only if it was an Assume or an Add |
| CacheHistory.ConfirmedStays | scheduler/internal/cache/cache.go:439-461 | After any successful Add, of a pod assumed on the same node, on another one or not at all, the pod state has the version added and no deadline, and until the pod is assumed anew no cleanup changes anything for it |
| CacheHistory.AnswerIs | scheduler/internal/cache/cache.go:318-525 | After an expected run the answer to every call about a pod follows from whether it is unknown, assumed or confirmed and on which node (to an update, also from the item its old version names), and that to the removal of a node from the last event about it |
| CacheHistory.FailsQuietly | scheduler/internal/cache/cache.go:318-525 | After any run whatever a call about a pod that reports an error changes nothing at all |
| CacheHistory.NodeIsLatest | scheduler/internal/cache/cache.go:562-628 | After any run an item has the Node object of the last node event about its name, or none |
| CacheHistory.ItemsListLatest | scheduler/internal/cache/cache.go:393-431 | After any expected run every item lists each pod in the version that was put there last: by its Assume, its Add, unless that confirmed it on the node it was assumed on, or its Update |
| CacheModel.UpdatePodKeepsIff | scheduler/internal/cache/cache.go:404-410 | An update that passes the checks keeps placement if and only if the old version names a cached node and, unless that node does not list it, both versions have one UID; it ends the process if and only if that node does not list it and has no Node |
| CacheModel.UpdateNodeKeepsIff | scheduler/internal/cache/cache.go:580-596 | A node update keeps the tree in agreement with the items if and only if it names a node of the tree or an unknown one |
| CacheModel.UpdatePodCanDouble | scheduler/internal/cache/cache.go:404-410 | From an empty cache: a node and its pod arrive, and an update whose old version names an unknown node leaves the pod twice in the node's item |
| CacheWitnesses.UpdatePodCanPanic | scheduler/framework/v1alpha1/types.go:522-522 | From an empty cache: two pods arrive before their nodes, and an update whose old version names the other pod's node ends the process |
| CacheModel.UpdateNodeCanMissTree | scheduler/internal/cache/cache.go:580-596 | From an empty cache: a pod arrives before its node, and a node update leaves the node with a Node object but out of the tree |
| CacheModel.StepKeepsBounded | scheduler/framework/v1alpha1/types.go:219-221 | Every event, whatever its arguments, keeps generations within those given out, and the counter never goes back |
| CacheSums.RunConservesRequests | scheduler/framework/v1alpha1/types.go:444-523 | After any run whatever from an empty cache in which the versions of one pod ask for the same resources, every node's requested amounts, with and without defaults, are the sums over its pods, whatever host ports they share |
| CacheSums.RunKeepsPorts | scheduler/framework/v1alpha1/types.go:575-587 | When besides they ask for the same ports and no two pods of a node ever share one, every node's used ports are the union over its pods |
| CacheSums.RunKeepsSums | scheduler/framework/v1alpha1/types.go:444-523 | From any state with exact sums, over any run in which each removal passes a version that asks for what the listed one asks for, requested amounts, allocatable amounts and, on demand, ports stay those of the listed pods and the Node |
| CacheConservation.RunConserves | scheduler/framework/v1alpha1/types.go:444-523 | Also when updates change what a pod asks for: in every expected run from any exact state in which removals pass what the cached version asks for, amounts, affinity lists, allocatable amounts and, on demand, ports are those of the listed pods and the Node |
| CacheConservation.CacheEqualsRebuild | scheduler/internal/cache/snapshot.go:55-75 | Every item of a ghost-free cache has the contents a full rebuild gives its node |
| NodeInfo.NodeInfo.AddPod | scheduler/framework/v1alpha1/types.go:444-468 | Pods, affinity list, ports and amounts grow by the pod's; a new generation is taken |
| NodeInfo.NodeInfo.RemovePod | scheduler/framework/v1alpha1/types.go:471-523 | Removes the pod with the UID by moving the last one into its place and takes back the given version's amounts and ports; no UID or an unknown one is an error, and an unknown one without a Node a nil dereference |
| NodeInfo.AddPodConserves | scheduler/framework/v1alpha1/types.go:444-468 | Adding a pod keeps the amounts equal to the sums over the pods |
| NodeInfo.RemovePodConservesIff | scheduler/framework/v1alpha1/types.go:471-523 | Removing a pod keeps the sums if and only if the version passed asks for what the listed version asks for |
| NodeInfo.RemovePodKeepsPortsIff | scheduler/framework/v1alpha1/types.go:575-587 | Removing a pod keeps the ports equal to the union over the pods if and only if it shares no port with another pod |
| NodeInfo.CalculateResource | scheduler/framework/v1alpha1/types.go:537-572 | The loops compute the request of the pod and the two amounts with defaults, of which PodRequests says what they are: container by container the sum, raised by init containers, plus overhead |
| NodeInfo.RequestIsMaxOfSumAndInit | scheduler/framework/v1alpha1/types.go:537-552 | The request is at least the sum and at least each init container's amount, and equals one of them |
| PodRequests.RequestsAdd | scheduler/framework/v1alpha1/types.go:536-545 | Without init containers and overhead a pod with the containers of two others requests, of every resource and in both amounts with defaults, what the two request together |
| PodRequests.OneContainer | scheduler/framework/v1alpha1/types.go:536-545 | A pod with one container requests what that names, CPU in thousandths and the rest rounded up to whole units, and counts in scoring with 100 thousandths and 200 MB for what it does not name |
| PodRequests.NoContainers | scheduler/framework/v1alpha1/types.go:536-545 | A pod without containers, init containers and overhead requests nothing and counts nothing |
| PodRequests.InitContainersRaise | scheduler/framework/v1alpha1/types.go:547-558 | One more init container raises each amount it names, and both amounts with defaults, to its own if that is larger |
| PodRequests.OverheadAdds | scheduler/framework/v1alpha1/types.go:560-570 | An overhead adds what a container of its amounts would request, and nothing for what it does not name |
| PodRequests.CheckConflict | scheduler/framework/v1alpha1/types.go:718-750 | The loop over all addresses, or the two look-ups, find whether a used port takes the one asked for |
| PodRequests.ConflictIff | scheduler/framework/v1alpha1/types.go:718-759 | Where the used ports are those of the pods, a port conflicts if and only if a container of one of the pods has the same port and protocol, TCP by default, on an overlapping address |
| NodeInfo.AddList | scheduler/framework/v1alpha1/types.go:280-299 | Each listed amount is added, CPU in thousandths and others rounded up |
| NodeInfo.SetMaxResource | scheduler/framework/v1alpha1/types.go:347-375 | Each amount is raised to the listed one if that is larger |
| NodeInfo.NodeInfo.UpdateUsedPorts | scheduler/framework/v1alpha1/types.go:575-587 | The loops add or remove exactly the positive host ports of the pod's containers |
| NodeInfo.NodeInfo.SetNode | scheduler/framework/v1alpha1/types.go:590-596 | The Node is set and the allocatable amounts are those of the Node |
| NodeTree.EnumerationIsPermutation | scheduler/internal/cache/node_tree.go:122-154 | The round robin over the zones names every node of the tree exactly once |
| NodeTree.Tree.Next | scheduler/internal/cache/node_tree.go:131-154 | Terminates, keeps the tree, and returns the next name of the enumeration in progress |
| NodeTree.CursorsAreFair | scheduler/internal/cache/node_tree.go:131-154 | In the course of the enumeration two zones that are not exhausted differ by at most one in the names taken |
| NodeTree.ResetStartsEnumeration | scheduler/internal/cache/node_tree.go:122-128 | After a reset the names to come are the whole enumeration |
| NodeTree.Tree.AddNode | scheduler/internal/cache/node_tree.go:56-72 | Adds the name once, at the end of its zone, a new zone at the end of the zones, and keeps counts, zones and arrays consistent; all else stays in its order |
| NodeTree.Tree.RemoveNode | scheduler/internal/cache/node_tree.go:75-93 | Removes the name, and its zone when empty, with all else in its order; an unknown name is an error that changes nothing |
| NodeTree.RoundsPermuteContent | scheduler/internal/cache/node_tree.go:131-154 | Taking the lists' heads round by round gives a permutation of all their elements |
| HeapOrder.RootPrecedesAll | scheduler/internal/heap/heap.go:102-107 | In a heap ordered by a strict weak order no element precedes the root |
| KeyedHeap.Heap.Swap | scheduler/internal/heap/heap.go:72-78 | Swapping two positions keeps the map from keys to positions inverse to the queue, and the objects |
| KeyedHeap.Heap.Up | scheduler/internal/heap/heap.go:122-137 | Sifting up restores the order and moves nothing beyond the heap's length |
| KeyedHeap.Heap.Down | scheduler/internal/heap/heap.go:162-175 | Sifting down restores the order if anything moved, and otherwise leaves at most the element itself out of order with its parent |
| KeyedHeap.Heap.Add | scheduler/internal/heap/heap.go:122-137 | The key maps to the new object, inserted or replaced, and all else is kept; an object without key is an error |
| KeyedHeap.Heap.AddIfNotPresent | scheduler/internal/heap/heap.go:141-153 | As Add, but a present object is kept |
| KeyedHeap.Heap.Delete | scheduler/internal/heap/heap.go:162-175 | The key is removed and all else is kept; an unknown key is an error |
| KeyedHeap.Heap.Peek | scheduler/internal/heap/heap.go:102-107 | Returns an object that no other one precedes, or none if the heap is empty |
| KeyedHeap.Heap.Pop | scheduler/internal/heap/heap.go:183-192 | Removes and returns the head, which no other object precedes |
| QueueModel.RunKeeps | scheduler/internal/queue/scheduling_queue.go:97-132 | In every run whose updates pass two versions of one pod, no pod is in two sub-queues and keys match; UpdateKeepsPartitionIff has the exact condition for other updates |
| QueueModel.StepKeeps | scheduler/internal/queue/scheduling_queue.go:232-516 | Flushes and moves keep the pending pods, pops and deletes take out one key, and every other event, an update of two versions of one pod among them, puts its pod in exactly one queue and leaves the others alone |
| QueueModel.RunKeepsCounters | scheduler/internal/queue/scheduling_queue.go:124-132 | In every run, whatever its updates pass, the recorded move is at most the current cycle and neither goes back |
| QueueModel.FlushBackoffIsExact | scheduler/internal/queue/scheduling_queue.go:315-337 | The specification of a flush keeps the queues apart and loses no pod; the loop over the heap that computes it is SchedulingQueue.PriorityQueue.FlushBackoffQCompleted |
| QueueDestinations.MoveIsExact | scheduler/internal/queue/scheduling_queue.go:495-516 | A move puts exactly the chosen unschedulable pods whose backoff goes on into the backoff queue and the other chosen ones into the active queue, all with their entries as they were, leaves the rest, and records the cycle |
| QueueDestinations.MoveEventsAreExact | scheduler/internal/queue/scheduling_queue.go:341-357 | Moving all, moving some and the periodic move do that for all unschedulable pods, for those named and for those that failed more than a minute ago; without any of the last the periodic move does nothing |
| QueueDestinations.UpdateIsExact | scheduler/internal/queue/scheduling_queue.go:401-448 | After an update of two versions of one pod it is unschedulable if and only if it was and its contents are the same, and otherwise active; an entry that was pending keeps times and attempts, one that was not starts with none; all other pods stay |
| QueueDestinations.AddIsExact | scheduler/internal/queue/scheduling_queue.go:232-252 | An added pod is active and nowhere else, with no attempts and its times set to now; all others stay |
| QueueDestinations.FailedIsExact | scheduler/internal/queue/scheduling_queue.go:281-312 | A failure of a pending pod is an error and changes nothing; otherwise the pod keeps its attempts, gets the time of the failure, and waits in backoff if and only if the recorded move is as recent as its cycle; all others stay |
| QueueDestinations.PopIsExact | scheduler/internal/queue/scheduling_queue.go:362-382 | A popped pod is pending no more and has one more attempt, the cycle is one more, and all others stay |
| QueueDestinations.DeleteIsExact | scheduler/internal/queue/scheduling_queue.go:452-462 | A deleted pod is in no queue and all others stay |
| QueueDestinations.BackoffIsServed | scheduler/internal/queue/scheduling_queue.go:315-337 | In any run a failed pod does not become active before its failure plus the initial backoff, doubled for each attempt after the first up to the maximum, unless it is itself added, updated or deleted |
| QueueDestinations.ServedIsActivated | scheduler/internal/queue/scheduling_queue.go:315-337 | From then on the next flush activates it if it is in the backoff queue, and the next move of all pods if it is unschedulable |
| QueueModel.UpdateKeepsPartitionIff | scheduler/internal/queue/scheduling_queue.go:401-448 | An update, of whatever two versions, keeps the queues apart if and only if the new version's key is in no queue beside the old version's: for two versions of one pod, unless the old one is missing and the pod is backing off |
| QueueModel.UpdateCanDouble | scheduler/internal/queue/scheduling_queue.go:401-448 | From an empty queue: a pod arrives, is popped, fails after a move request and is updated without an old version, and is then in two queues |
| QueueModel.MoveCanBeLost | scheduler/factory.go:444 | From an empty queue: two pods arrive, a move request runs between their pops, and the first one's failure goes to the unschedulable pods with the current cycle, to backoff with its own |
| QueueModel.NoLostWakeUp | scheduler/internal/queue/scheduling_queue.go:281-312 | In any run, whatever its updates pass, a failure reported with the cycle of its pop goes to the backoff queue if and only if a move request ran after that pop |
| QueueModel.MovedSince | scheduler/internal/queue/scheduling_queue.go:495-516 | After any run, whatever its updates pass, the recorded move is at least as recent as a past cycle if and only if it was so before or a move request ran since |
| QueueModel.LateReadingLosesEarlierMoves | scheduler/factory.go:444 | With the cycle read at the time of the report, a move counts if and only if it ran after the last pop before the report |
| PodBackoff.BackoffIsExponentialIff | scheduler/internal/queue/scheduling_queue.go:630-639 | For non-negative durations every backoff is the initial one doubled for each attempt after the first, at most the maximum, if and only if the initial one is at most the maximum and the last doubling up to the maximum can be doubled once more in an int64 |
| PodBackoff.DoublesSafelyIff | scheduler/internal/queue/scheduling_queue.go:630-639 | That condition says of all doublings that each one up to the maximum can be doubled in an int64 |
| PodBackoff.BackoffIsMonotoneIff | scheduler/internal/queue/scheduling_queue.go:630-639 | More attempts never give a shorter backoff, and none is negative or above the maximum, if and only if the same condition holds |
| PodBackoff.BackoffCanOverflow | scheduler/internal/queue/scheduling_queue.go:630-639 | With an initial backoff of one second and the largest int64 as maximum, the backoff of attempt 35 is negative |
| PodBackoff.CalculateBackoffDuration | scheduler/internal/queue/scheduling_queue.go:630-639 | The loop computes the backoff with 64-bit wrap-around |
| SchedulingQueue.PriorityQueue.Add | scheduler/internal/queue/scheduling_queue.go:232-252 | The pod is put in the active queue and taken out of the others |
| SchedulingQueue.PriorityQueue.AddUnschedulableIfNotPresent | scheduler/internal/queue/scheduling_queue.go:281-312 | A pod in any queue is an error; otherwise it goes to backoff or unschedulable by the two cycles, with a refreshed timestamp, which the caller's record gets also when the call fails on the active or backoff queue |
| SchedulingQueue.PriorityQueue.FlushBackoffQCompleted | scheduler/internal/queue/scheduling_queue.go:315-337 | Popping heads until one is still backing off terminates and flushes exactly the completed pods |
| SchedulingQueue.PriorityQueue.FlushUnschedulableQLeftover | scheduler/internal/queue/scheduling_queue.go:341-357 | Pods older than a minute are moved, as a move request, if there are any |
| SchedulingQueue.PriorityQueue.Pop | scheduler/internal/queue/scheduling_queue.go:362-382 | Removes a head of the active queue, counts an attempt and a cycle |
| SchedulingQueue.PriorityQueue.Update | scheduler/internal/queue/scheduling_queue.go:401-448 | Updates the pod where its old version is found, or moves it to the active queue, under the key of the new version, with the nil dereference as a fatal outcome; QueueDestinations.UpdateIsExact says where the pod ends |
| SchedulingQueue.PriorityQueue.Delete | scheduler/internal/queue/scheduling_queue.go:452-462 | Takes the pod out of the active queue or out of both others |
| SchedulingQueue.PriorityQueue.MovePods | scheduler/internal/queue/scheduling_queue.go:495-516 | The loop does what the specification of a move says, of which QueueDestinations.MoveIsExact says where each pod goes, and the move request is recorded |
| PodKeys.KeysAgree | scheduler/util/utils.go:19-24 | For names without separators the heaps' key and the map's key tell the same pods apart |
| Nominator.AddedAgrees | scheduler/internal/queue/scheduling_queue.go:719-739 | Adding a nominated pod keeps the two maps in agreement and lists the pod under the node given or, without one, the node its status names, and nowhere else |
| Nominator.DeletedAgrees | scheduler/internal/queue/scheduling_queue.go:741-756 | Deleting a pod keeps the two maps in agreement |
| Nominator.DeletedLeavesOthers | scheduler/internal/queue/scheduling_queue.go:741-756 | A deletion leaves every other pod under its node, in the version it has |
| Nominator.AddedLeavesOthers | scheduler/internal/queue/scheduling_queue.go:719-739 | So does an addition |
| Nominator.UpdatedAgrees | scheduler/internal/queue/scheduling_queue.go:759-780 | An update, of one pod or from a pod to another one of its name, keeps the maps in agreement and puts the new version on the node it names or, when neither version names one, on the node reserved for the old one |
| Nominator.NominatedPodMap.Add | scheduler/internal/queue/scheduling_queue.go:719-739 | The loops do what the specification of adding says |
| Nominator.NominatedPodMap.UpdateNominatedPod | scheduler/internal/queue/scheduling_queue.go:759-780 | The method does what the specification of updating says |
| FeasibleNodes.SearchFindsFittingNodes | scheduler/core/generic_scheduler.go:296-346 | In every interleaving, once all workers have returned, the first slots up to the counter hold distinct fitting nodes, and there are at most as many as wanted |
| FeasibleNodes.ShortSearchIsComplete | scheduler/core/generic_scheduler.go:296-346 | If fewer were found, without error or outside cancellation, every node was checked, exactly the fitting ones were found, and found and rejected nodes add up to all |
| FeasibleNodes.StepKeeps | scheduler/core/generic_scheduler.go:296-320 | Every atomic step keeps: the counter is slots given out plus overshoot, and there is overshoot only when all slots are given out |
| FeasibleNodes.NumFeasibleNodesToFind | scheduler/core/generic_scheduler.go:216-236 | The number lies between the smaller of 100 and the number of nodes, and the number of nodes, for all 32-bit inputs, wrap-around included; without wrap-around it is the larger of 100 and the percentage set or, if none is, the adaptive one |
| FeasibleNodes.ItemsAreNodes | scheduler/core/generic_scheduler.go:301-303 | The items of one search are the nodes, each once |
| FeasibleNodes.ItemsFollowStart | scheduler/core/generic_scheduler.go:301-303 | A search goes through the nodes from its start on, and after the last one from the first |
| FeasibleNodes.NextSearchFollows | scheduler/core/generic_scheduler.go:338-339 | A search that starts where one over some items ended goes on with the items after these, however many searches there are |
| FeasibleNodes.TakeNodes | scheduler/core/generic_scheduler.go:286-293 | Without filters the first nodes from the start index are taken, all different, and the next search starts after them |
| SelectHost.SelectHost | scheduler/core/generic_scheduler.go:191-212 | Whatever is drawn, an entry with the highest score is selected; an empty list is an error |
| SelectHost.TieBreakIsUnbiased | scheduler/core/generic_scheduler.go:191-212 | Each of the k entries with the highest score is selected with chance exactly 1/k, all others with chance 0 |
| HistogramOptions.BucketContainsValue | recommender/util/histogram_options.go:72-111 | A non-negative value lies between the start of its bucket and that of the next |
| HistogramOptions.StartIsFound | recommender/util/histogram_options.go:101-122 | Finding the bucket of a bucket's start gives back the bucket |
| HistogramOptions.BucketsFollowValues | recommender/util/histogram_options.go:72-111 | Larger values never fall into an earlier bucket |
| HistogramOptions.BucketSizes | recommender/util/histogram_options.go:37-44 | The first bucket starts at 0; linear buckets are all of one size, and exponential ones have the first size times the ratio to the power of their number |
| HistogramOptions.LinearReachesMax | recommender/util/histogram_options.go:24-34 | The number of linear buckets is the least one for which the last bucket starts at or after the largest value |
| HistogramOptions.ExponentialReachesMax | recommender/util/histogram_options.go:37-54 | So is the number of exponential buckets |
| Histogram.Histogram.AddSample | recommender/util/histogram.go:90-103 | One bucket and the total grow by the weight, all others stay, and the range is extended to a bucket that is no longer empty |
| Histogram.Histogram.SubtractSample | recommender/util/histogram.go:113-124 | One bucket and the total shrink by the weight, cut to zero below epsilon, all others stay, and the range is tightened |
| Histogram.Histogram.Merge | recommender/util/histogram.go:126-141 | The other histogram's total and the buckets of its range are added, no other bucket changes, and the range is extended |
| Histogram.Histogram.Scale | recommender/util/histogram.go:270-280 | The weights of the range and the total are multiplied, no other bucket changes, and the range is tightened |
| Histogram.Histogram.UpdateMinAndMaxBucket | recommender/util/histogram.go:197-206 | Both ends move to the nearest bucket that is not empty |
| Histogram.Histogram.PercentileOf | recommender/util/histogram.go:143-163 | The loop finds the specified percentile |
| Histogram.PercentileIsFirst | recommender/util/histogram.go:149-155 | The bucket found is the first of the range whose partial sum reaches the threshold |
| Histogram.PercentileSplits | recommender/util/histogram.go:143-163 | The percentile p of a histogram that is not empty is the end of a bucket of its range, or the start of the last bucket of all, up to which the weights of the range reach the part p of the total, and without which they do not |
| Histogram.EmptyPercentile | recommender/util/histogram.go:143-147 | Every percentile of an empty histogram is 0 |
| Histogram.SumSplits | recommender/util/histogram.go:149-155 | The partial sums add up over adjacent ranges, and over one bucket are its weight |
| Histogram.PercentileIsMonotone | recommender/util/histogram.go:143-163 | A higher percentile is never a smaller value |
| Histogram.AddedInv | recommender/util/histogram.go:90-103 | Adding keeps: weights not negative, buckets outside the range below epsilon, range ends not empty |
| Histogram.SubtractedInv | recommender/util/histogram.go:113-124 | Subtracting keeps the same |
| Histogram.ScaledInv | recommender/util/histogram.go:270-280 | Scaling keeps the same |
| Histogram.MergedInv | recommender/util/histogram.go:126-141 | Merging keeps the same |
| Histogram.EmptyMeansEmpty | recommender/util/histogram.go:165-167 | IsEmpty is true if and only if every bucket is below epsilon |
| Histogram.SubtractUndoesAdd | recommender/util/histogram.go:105-124 | Subtracting a sample just added takes it back, when what was there was empty or at least epsilon |
| HistogramScaling.ScalingKeepsPercentilesIff | recommender/util/histogram.go:268-280 | For any factor, every percentile is the same after scaling if and only if there is one bucket, or none that counts, or the weights at both ends of the range, times the factor, still reach epsilon, where the last two buckets, which end at one value, stand in for each other |
| HistogramScaling.ScalingKeepsProperPercentilesIff | recommender/util/histogram.go:268-280 | For any factor, every percentile between 0 and 1 is the same after scaling if and only if there is one bucket, or none that counts, or the lower end of the range stays and, for a positive total, so does some bucket from that of the percentile 1 on, where the last two buckets stand in for each other |
| HistogramScaling.ScalingCanMovePercentiles | recommender/util/histogram.go:268-280 | A concrete histogram of which a percentile doubles when it is scaled by one half |
| DecayingHistogram.HistoryRefines | recommender/util/decaying_histogram.go:50-104 | After any history of samples every bucket exceeds its ideal decayed weight by less than epsilon and the total is exact, across all shifts of the reference |
| DecayingHistogram.AddRefines | recommender/util/decaying_histogram.go:50-52 | One added sample keeps any such bounds |
| DecayingHistogram.ShiftRefines | recommender/util/decaying_histogram.go:85-91 | A shift of the reference forward keeps any such bounds |
| DecayingHistogram.PreparedRefines | recommender/util/decaying_histogram.go:93-104 | The decay exponent never exceeds 100 half lives and the bounds are kept |
| DecayingHistogram.ReferenceIs | recommender/util/decaying_histogram.go:85-104 | The reference moves only for a sample more than 100 half lives ahead, and then to the nearest multiple of the half life, the later one of two |
| DecayingHistogram.OriginIsNearIdeal | recommender/util/decaying_histogram.go:50-104 | However samples are added, earlier ones taken back and histograms merged, with m merges and c subtractions every bucket is at most m + c epsilons below and less than m + 1 above the exact decayed weight of the samples left, and the total at most c epsilons below theirs and never above |
| DecayingHistogram.SubtractRefines | recommender/util/decaying_histogram.go:54-56 | Taking back a sample that was added widens the lower bounds of buckets and total by one epsilon and no more |
| DecayingHistogram.MergeIsNearIdeal | recommender/util/decaying_histogram.go:58-70 | One merge adds the bounds of the two histograms and at most one epsilon below, as only the range of the other one is merged; it loses nothing in the total |
| DecayingHistogram.DecayingHistogram.AddSample | recommender/util/decaying_histogram.go:50-52 | The object does what the specification of a decayed addition says |
| DecayingHistogram.DecayingHistogram.Merge | recommender/util/decaying_histogram.go:58-70 | Aligns the older reference with the younger one, in whichever object, and merges |
| DecayingHistogram.DecayingHistogram.ShiftReferenceTimestamp | recommender/util/decaying_histogram.go:85-91 | Rounds the new reference to a multiple of the half life and scales by the power of two |
| Checkpoint.SaveLoadSave | recommender/util/histogram.go:208-266 | Saving what was loaded from a saved histogram gives back what was saved, and the loaded weights sum exactly to the total |
| Checkpoint.SavedWeightsAreClose | recommender/util/histogram.go:220-228 | The checkpoint keeps the total; a bucket of the range gets a weight of at most 10000 within one half of 10000 times its part of the heaviest one, which gets 10000, and any other bucket none |
| Checkpoint.SaveToCheckpoint | recommender/util/histogram.go:208-231 | The two loops compute the saved histogram |
| Checkpoint.LoadFromCheckpoint | recommender/util/histogram.go:233-266 | A negative total or an unknown bucket is an error that changes nothing; otherwise the weights are added in proportion |
| Estimators.BoundsAreOrdered | recommender/logic/recommender.go:44-137 | Lower bound <= target for every controlled resource, and target <= upper bound if and only if the percentile behind the target, with its margin, is at most the largest amount |
| Estimators.BoundsAreOrderedBelowTop | recommender/logic/recommender.go:44-137 | Whatever the samples, the three are in order when the largest value the histogram reports leaves room for the margin |
| Estimators.TargetCanExceedUpperBound | recommender/logic/recommender.go:44-137 | A memory peak at the largest amount and a margin of 15% give a target above the upper bound |
| Estimators.MarginIsMonotone | recommender/logic/estimator.go:81-88 | Higher percentiles give higher estimates, before and after the margin |
| Estimators.FactorsAreOrdered | recommender/logic/estimator.go:96-119 | The lower bound's confidence factor is at most 1, the upper bound's at least 1 |
| RecommendedAmounts.RecommendedIs | recommender/logic/recommender.go:69-137 | For a controlled resource, and no other: the target is the target percentile with its margin, the bounds are the median and the 95th percentile with theirs, times the factor of the confidence, and all are raised to the minimum |
| RecommendedAmounts.FactorsAre | recommender/logic/estimator.go:107-118 | With c days of confidence the upper factor is 1 + 1/c and the lower one, times the square of 1 + 0.001/c, is 1 |
| RecommendedAmounts.DocumentedMultipliers | recommender/logic/recommender.go:108-133 | The multipliers in the comments: 3, 2 and 8/7 after half a day, a day and a week; 0.60, 0.91 and 0.95, cut to two digits, after 5, 30 and 60 minutes |
| RecommendedAmounts.SteadyStream | recommender/logic/estimator.go:84-99 | A stream of one sample a minute over some days gives a confidence of these days |
| RecommendedAmounts.ConfidenceIsLimited | recommender/logic/estimator.go:91-99 | The confidence is the smaller of the days between the first and last sample and of the days of 1440 samples each |
| RecommendedAmounts.SharesAreFair | recommender/logic/recommender.go:50-54 | Each of n containers gets the n-th part of the pod's minimum, rounded down, so that the shares together do not exceed it |
| RecommendedAmounts.FromFloatIsExact | recommender/model/types.go:118-126 | A number is rounded down if it is in the range of amounts and clamped to its ends otherwise |
| Estimators.GetResourceEstimation | recommender/logic/estimator.go:76-142 | The estimators compute the stacked estimate, resource by resource |
| Estimators.GetRecommendedPodResources | recommender/logic/recommender.go:44-66 | Every container gets its recommendation, with the pod's minimum shared out |
| Estimators.FromFloatIsMonotone | recommender/model/types.go:118-126 | Clamping and truncation keep the order and stay between 0 and the largest amount |
| ContainerState.RunKeeps | recommender/model/container.go:119-197 | After any run of samples and out-of-memory events: window ends on the grid from the first sample, every subtracted peak an earlier unmatched one, exactly one peak left for each window |
| ContainerState.PeakIsMaximumIff | recommender/model/container.go:137-151 | A window's peak is its largest usage if and only if its first usage is positive or all are zero |
| ContainerState.PeakCanMissMaximum | recommender/model/container.go:137-151 | From the start: usages of 0 and 5 in one window leave the peak 0 |
| MemoryHistogram.MemoryIsNearPeaks | recommender/model/aggregate_container_state.go:140-163 | After any run of samples and out-of-memory events of the containers that share an aggregation, in any interleaving, its memory histogram is within the bounds above of one sample for each window that each of them visited, its peak, and nothing else, however many peaks were replaced on the way |
| MemoryHistogram.RunApplies | recommender/model/container.go:137-151 | In such a run every subtracted peak is one that was added and not yet taken back, by the same container or another one with the same peak, and the peaks left are those of all containers together |
| MemoryHistogram.OriginHoldsPeaks | recommender/model/aggregate_container_state.go:151-163 | If every subtracted peak was there, the histogram is one of added samples and earlier ones taken back, and the samples left are those of the peaks left |
| ContainerState.AcceptedInWindow | recommender/model/container.go:119-156 | An accepted sample lies in the current window, one interval long |
| ContainerState.OomIsPositive | recommender/model/container.go:184-188 | An out-of-memory event counts as at least 100 MB more than was requested |
| ContainerState.OomUsageIs | recommender/model/container.go:182-186 | An out-of-memory event counts as the larger of used + 100 MB and six fifths of used, rounded down and at most the largest amount, where used is the larger of the request and the peak from samples; the peak from out-of-memory events does not enter |
| ContainerState.OomIsRecorded | recommender/model/container.go:177-198 | An accepted event puts this amount into its window, and into the aggregator, at the end of the window, when it is the first of the window or exceeds its peak, which is then taken back |
| ContainerState.AcceptedIff | recommender/model/container.go:119-125 | After any run a sample is accepted if and only if it is not negative and not older than the last accepted event, and an out-of-memory event if and only if it is not older than the current window; what is not accepted changes nothing |
| ContainerState.PeaksAreSeparate | recommender/model/container.go:137-174 | Samples and out-of-memory events keep apart: neither touches the other's peak but to reset it with a new window, and neither peak changes unless their maximum does |
| ContainerState.Container.AddMemorySample | recommender/model/container.go:119-174 | The fields and the aggregator change as the specification of a memory sample says |
| ContainerState.Container.RecordOOM | recommender/model/container.go:177-198 | An old event is an error; else it is added as a sample of the amount that ContainerState.OomUsageIs tells |
| ContainerState.Container.AddCPUSample | recommender/model/container.go:69-78 | Only valid samples later than the last accepted one reach the aggregator |
| Bookkeeping.MergeIsConcatenation | recommender/model/aggregate_container_state.go:115-128 | Merging two aggregations' first, last and count gives those of all samples together |
| Bookkeeping.BookIsExact | recommender/model/aggregate_container_state.go:184-200 | First and last are the earliest and latest sample times and the count is theirs |
| ClusterState.ClusterState.AddOrUpdatePod | recommender/model/cluster.go:103-126 | A new or relabelled pod is counted anew and exactly the aggregations of its containers under the new labels are added to the old ones; selectors stay; every VPA's count and links stay exact; unchanged labels change no VPA |
| ClusterState.ClusterState.DeletePod | recommender/model/cluster.go:161-167 | The pod goes, the VPAs that matched it count one less, selectors and links stay |
| ClusterState.ClusterState.AddOrUpdateContainer | recommender/model/cluster.go:173-186 | A new container of a known pod gets its aggregation and all others stay; VPAs keep selectors and counts, and exact links; an unknown pod is an error that changes nothing |
| ClusterState.ClusterState.AggregationFor | recommender/model/cluster.go:315-328 | The aggregation of a container's key exists, all others stay, and every VPA that matches it, with selectors and counts as before, uses that very object |
| ClusterState.ClusterState.AddOrUpdateVpa | recommender/model/cluster.go:227-259 | A new VPA, or one with a new selector, is linked to all matching aggregations and counts all matching pods |
| ClusterState.ClusterState.DeleteVpa | recommender/model/cluster.go:263-274 | The VPA goes; an unknown one is an error |
| ClusterState.ClusterState.GarbageCollect | recommender/model/cluster.go:334-356 | An aggregation is removed, with its links, if and only if it has no samples and no running pod's container uses it, or its last sample, or without one its creation, is a window or more ago; the others stay the same objects |
| ClusterState.IndexIs | recommender/model/cluster.go:394-403 | What agreement means: a VPA counts the pods of its namespace whose labels its selector matches, and is linked to the aggregations of its namespace whose labels it matches, by the same objects |
| ClusterState.OfferedIsLinked | recommender/model/vpa.go:119-130 | Offering a new aggregation keeps a VPA linked to exactly the matching ones |
| ClusterState.DeletedIsLinked | recommender/model/vpa.go:152-159 | Deleting an aggregation does too |
| ClusterState.RecountedWithout | recommender/model/cluster.go:139-145 | Taking one off every VPA that matches a pod makes the counts exact without that pod |
| ClusterState.RecountedWith | recommender/model/cluster.go:130-136 | Adding one makes them exact with it |
| UpdateSnapshot.UpdateWithoutGhosts | scheduler/internal/cache/cache.go:183-257 | On the objects: without ghosts the update returns success, the snapshot's NodeInfos hold the contents of all cached items, each listed once, and the next update can build on it |
| UpdateSnapshot.MakeLists | scheduler/internal/cache/cache.go:239-241 | The lists are made anew from the tree, or the affinity list from the node list, or nothing |
| UpdateSnapshot.CheckLength | scheduler/internal/cache/cache.go:244-254 | A node list of another length than the tree is an error, after the lists are made anew |
| SnapshotObject.Snapshot.RelistAffinity | scheduler/internal/cache/cache.go:277-282 | The affinity list is the filter of the node list |
| SchedulerCache.Cache.Confirm | scheduler/internal/cache/cache.go:439-456 | A confirmed pod loses its deadline and assumed mark, gets the version added, and moves when its node changed; an error of that move is ignored, a nil dereference in it is not |
| SchedulerCache.Cache.ReplacePod | scheduler/internal/cache/cache.go:404-410 | The old version leaves its node, then the new one joins its own; a failed removal stops it and is what it returns |
| SchedulerCache.Cache.CleanUpPod | scheduler/internal/cache/cache.go:699-713 | One key's turn: expired pods are released, inconsistencies are fatal, others stay |
| CacheModel.AddPodKeeps | scheduler/internal/cache/cache.go:433-467 | Adding or confirming a pod keeps placement, also when it moves to another node |
| CacheModel.ReleaseKeeps | scheduler/internal/cache/cache.go:416-431 | Taking a pod out of its node and out of the pod states succeeds and keeps the rest sound |
| CacheModel.MissedUnplace | scheduler/framework/v1alpha1/types.go:471-523 | A removal that fails changes nothing at all when the affinity list holds only listed pods |
| NodeInfo.NodeInfo.Clone | scheduler/framework/v1alpha1/types.go:403-431 | A new object with the same contents |
| NodeInfo.NodeInfo.RemoveNode | scheduler/framework/v1alpha1/types.go:599-602 | Only the Node goes, and a new generation is taken |
| NodeTree.Tree.ResetExhausted | scheduler/internal/cache/node_tree.go:122-127 | All cursors and the zone index go back to the start, the nodes stay |
| NodeTree.Tree.UpdateNode | scheduler/internal/cache/node_tree.go:107-120 | Nothing moves within a zone; between zones the old name goes, if it is there, and the new one joins |
| KeyedHeap.Heap.Push | scheduler/internal/heap/heap.go:81-86 | A new key with its object joins the heap in its place |
| KeyedHeap.Heap.Fix | scheduler/internal/heap/heap.go:127-129 | Sifting down, and up if nothing moved, restores the order around a replaced object |
| KeyedHeap.Heap.RemoveAt | scheduler/internal/heap/heap.go:162-168 | The object at a position goes, all others stay |
| KeyedHeap.Heap.GetByKey | scheduler/internal/heap/heap.go:204-210 | The object of a key, or none |
| SchedulingQueue.PriorityQueue.MoveAllToActiveOrBackoffQueue | scheduler/internal/queue/scheduling_queue.go:484-492 | All unschedulable pods are moved, as a move request |
| SchedulingQueue.PriorityQueue.AssignedPodAdded | scheduler/internal/queue/scheduling_queue.go:466-470 | The unschedulable pods that match are moved, as a move request |
| SchedulingQueue.PriorityQueue.PeekBackoff | scheduler/internal/queue/scheduling_queue.go:596-602 | The head of the backoff queue is a pod whose backoff ends first |
| Nominator.NominatedPodMap.Delete | scheduler/internal/queue/scheduling_queue.go:741-756 | The loop does what the specification of deleting says |
| DecayingHistogram.DecayingHistogram.DecayFactor | recommender/util/decaying_histogram.go:93-104 | Shifts the reference if the exponent would grow too large and returns the growth since the reference |
| DecayingHistogram.DecayingHistogram.SubtractSample | recommender/util/decaying_histogram.go:54-56 | Subtracts the decayed weight, after the same preparation as adding |
| DecayingHistogram.ShiftFactor | recommender/util/decaying_histogram.go:85-91 | The power of two that a shift scales by is exactly the growth between the two references, and at most 1 |
| Estimators.EstimateContainerResources | recommender/logic/recommender.go:69-75 | The three estimates, restricted to the controlled resources |
| Estimators.FilterControlled | recommender/logic/recommender.go:78-86 | Only the controlled resources are kept |
| Estimators.MinimumIsClamped | recommender/logic/recommender.go:50-54 | The shared minimum lies between 0 and the largest amount |
| ContainerState.Container.AddSample | recommender/model/container.go:206-215 | A CPU sample goes only to the CPU part and a memory sample only to the memory part, with the effect stated for each |
| Bookkeeping.SampleTimes.AddCPUSample | recommender/model/aggregate_container_state.go:184-200 | One sample is counted and both times are updated |
| Bookkeeping.SampleTimes.MergeContainerState | recommender/model/aggregate_container_state.go:115-128 | The times and counts of two aggregations are joined |

## Left out

- SnapshotModel.EveryUpdateSucceeds: assumes no ghost at each update and node updates only for nodes of the tree or unknown ones, because the property is false otherwise; the exact conditions are SnapshotModel.RefreshKeysIff and CacheRuns.StepKeepsTree.
- SnapshotModel.EveryUpdateEqualsRebuild: assumes besides that pod updates are expected ones and removals agree with the cached versions, because affinity lists and pod states are those of a rebuild only then; SnapshotModel.EveryUpdateHasRebuiltSums has the part that needs neither.
- CacheSums.RunConservesRequests: assumes that versions of one pod ask for the same resources, because a removal keeps the sums exactly when the two versions do (NodeInfo.RemovePodConservesIff).
- CacheSums.RunKeepsPorts: assumes besides that versions of one pod ask for the same ports and that pods of one node share none, because a removal keeps the union exactly then (NodeInfo.RemovePodKeepsPortsIff).
- CacheConservation.RunConserves: assumes an expected run, because where updates change what a pod asks for the cached version is the listed one only while each pod is in one place.
- CacheHistory.AnswerIs: assumes an expected run, because otherwise the answers to removals also depend on the items; CacheRuns.CleanUpIsFatalIff and CacheModel.UpdatePodKeepsIff have the conditions.
- CacheHistory.ItemsListLatest: assumes an expected run, because otherwise a pod can be listed in two versions (CacheModel.UpdatePodCanDouble).
- QueueDestinations.BackoffIsServed: assumes durations for which the backoff is exponential, because it can be negative otherwise (PodBackoff.BackoffIsExponentialIff).
- NodeInfo.SetMaxResource: treats the resource "pods" like any other, because requests never name it.
- NodeInfo.NodeInfo.SetNode: does not model the allowed number of pods, because it is a copy of one field of the Node.
- SchedulerCache.Cache.UpdateNode: takes the zone as a function of the name, so an old Node of the same name is in the same zone, because the tree keeps no Node objects to read a zone from; and takes no nil old Node, which no caller passes.
- SchedulerCache.Cache.AddNode: sets the Node before it moves the item to the head, in the other order in the source, because both happen under one lock.
- SchedulingQueue.PriorityQueue.FlushBackoffQCompleted: reads the clock once, the source once for each pod, because the claim is about one reading.
- SchedulingQueue.PriorityQueue.Pop: does not model waiting on an empty queue or closing it, because blocking is not a step of the state.
- KeyedHeap.Heap.Pop: requires a non-empty heap, because the source panics on an empty one.
- FeasibleNodes.ShortSearchIsComplete: lets workers take items in any order, because the chunks handed to the workers are one such order.
- HistogramOptions.BucketContainsValue: finds exponential buckets by their boundaries, because the source's logarithm stands for that search.
- DecayingHistogram.HistoryRefines: takes time in ticks with a growth per tick whose power over the half life is 2, without the saturation of time differences at about 292 years, because that only occurs for the empty histogram.
- Checkpoint.SaveLoadSave: assumes a positive total and some weight in the range, because the source divides by zero without.
- Estimators.BoundsAreOrdered: assumes positive confidence and a non-negative margin, because the factor is infinite without confidence.
- ContainerState.RunKeeps: assumes sample times after the zero time, because the source uses the zero time for "not set".
- MemoryHistogram.MemoryIsNearPeaks: does not cover a container that changes its aggregation in the middle of a window, because its subtracted peak may then be missing in the new one.
- Floating-point rounding, infinities and NaN: weights and percentiles are real numbers.
- Image states, transient scheduling info, Dump, PodCount, IsAssumedPod, GetPod and metrics of the cache.
- The matching of pod affinity terms and of label selectors: a parameter.
- Filter and score plugins, extenders, preemption and the nominated pods considered by filters: the verdict on a node is a parameter.
- The aggregator pointer of a container after a label change, and the flags IsUnderVPA, update mode and policy of aggregations: not kept by the source as simple invariants.
- Checkpoints of whole aggregations and the reference timestamp in them: plain copies of fields.
- Recommendation conditions, empty-VPA warnings and API conversions: one-branch bookkeeping.
- Mutexes and background timers: each locked method is one step, except in the parallel search.
