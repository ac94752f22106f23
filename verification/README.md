# A verified model of the distributed cache

The repository is a small distributed cache: C++ cache nodes with least-recently-used eviction and
time-to-live, and a Python gateway that places keys with a consistent hash ring, detects dead nodes by
their heartbeats, guards every node with a circuit breaker, migrates keys when the topology changes, and
routes client requests. This project models that logic in Dafny and proves what its documentation and its
design promise, over every input, every run and, for migrations and client requests, every interleaving.

The files follow the program. `dafny verify dfyconfig.toml` checks them all.

| file | what it holds |
|---|---|
| `LruModel.dfy`, `LruCache.dfy`, `LruOperations.dfy`, `LruTheorems.dfy` | the cache node: the list on values; the doubly linked list with two sentinels and a map into it, on the heap, refining that list; what each operation and counter does, by lookups and counting; theorems about whole traces |
| `RingModel.dfy`, `HashRing.dfy`, `RingTheorems.dfy` | the hash ring: clockwise preference lists; the mutable object with bisection and the circular walk; filtering, failover, minimal movement, canonicity |
| `ClusterModel.dfy`, `ClusterManager.dfy`, `DetectionTheorems.dfy`, `RingTrace.dfy` | node health and routing: the state machine; the object with its mutable records; the failure detector, and then the ring, read off the event trace |
| `BreakerModel.dfy`, `CircuitBreaker.dfy`, `FailureLoop.dfy` | the circuit breaker of one node; the object with one circuit per node; the background detection round |
| `RebalanceModel.dfy`, `RebalanceTheorems.dfy`, `RebalanceNecessity.dfy`, `MigrationWrites.dfy`, `Migration.dfy`, `Rebalancer.dfy` | key migration: batches as a concurrent step system, with reads and purges in between; no loss and safe retry; schedules that lose data without the conditions; client writes in between; one batch on the cache objects; the ownership comparison and grouping |
| `GatewayModel.dfy`, `Gateway.dfy`, `GatewayOperations.dfy`, `ReadTheorems.dfy`, `GatewayConcurrency.dfy`, `GatewayTopology.dfy`, `StaleRead.dfy`, `ZoneRouter.dfy` | request handlers: on values; as methods over the shared objects; what each request does, and every breaker read off the requests; which replica a read goes to and what it finds; interleaved with each other; in one run with cluster events, and such a run with a stale read; the choice of a replica |
| `BloomFilter.dfy` | the byte array with bit operations, refining a set of positions |
| `Sequences.dfy`, `Options.dfy` | order-preserving selection and a value that may be absent |

Each mutable object is proved to do exactly what a function on values says; the theorems are about those
functions. Hashes and digests are total functions about which nothing is assumed: where freedom from
collisions matters it is a named hypothesis (`CollisionFree`), and `RingTheorems.CanonicalIffCollisionFree`
and `RingTheorems.AddThenRemove` show that it is needed there. Each operation reads the clock once, and the
reading is a parameter. No proof relies on automatic induction.

## Where the code and its documentation differ

The model follows the code. The differences that matter are theorems:

- The loop's docstring says that a heartbeat makes a node ALIVE again and closes its breaker
  (`gateway/app/main.py:91`), and `README.md:151` says the first. A node that was DEAD becomes RECOVERED, is
  not on the ring, and stays so until it registers again (`HeartbeatRevivesIff`; `RecoveredStaysOut` is a
  run). A heartbeat does not touch the breakers: only a successful call or the timeout lets calls through
  again (`DeadNodesRefused`).
- Rebalancing is said to lose no data (`gateway/app/services/rebalancer.py:10`) and to be safe to retry
  (`README.md:252-254`; there is no write-ahead log, but sources are not altered). While clients only read,
  every key that outlives the rebalance is answered by its new owner (`RebalanceKeepsReadable`), also after
  failed or abandoned attempts whose loads go on (`RetryIdempotent`), under these conditions:
  - The key outlives the window by a second, or the window is shorter than a second; a key without expiry
    needs a default lifetime at the target that exceeds the window, or none. Lifetimes travel in whole
    seconds, and without this margin some schedule in which every batch succeeds loses the key
    (`SurvivesIffSafe`, `LosingSchedule`).
  - Every node has room for what it holds and what comes. When nothing stored has expired this is exactly
    what it takes, for every schedule (`NothingLostIffRoom`). Expired entries that have not been purged
    also take room; whether they cost a live key then depends on their place in the list.

  `ShortKeyLost` and `CrowdedOut` are runs that lose a key for want of the margin and of room, although
  every batch succeeds.
- While clients write, a batch can undo an acknowledged write: a node holds what the last load or write that
  reached it left (`LastStepDecides`), so a put at the new owner lasts if and only if no load of its key
  follows it (`PutDecidesIff`; `UpdateLost` is a run).
- A lifetime of less than a second is exported as 0, which the loader takes for "none given", so that a
  transferred entry can outlive its source (`TransferLifetime`, `TransferRevivesDyingEntry`).
- A source keeps its copy of a moved key. If the key is deleted at its new owner and a topology change moves
  it back, it is answered again: exactly when that old copy is still live (`DeletedKeyRevivedIff`,
  `MoveDeleteMoveBack`; `DeletedKeyComesBack` is a run).
- A read within 500 ms of a write is said to go to the primary. The pin is recorded and never consulted, and
  replicas receive nothing. What decides is the breakers and the latency table: a read goes to the primary
  if and only if its breaker admits the read and no admitted replica has strictly lower latency
  (`ReadsPrimaryIff`). No part of the gateway records latencies, so all count as equal, and a read right
  after an acknowledged write does find it (`UnmeasuredReadsItsWrite`). A later read can miss it although
  the primary still holds it: reads in between that fail to reach the primary open its breaker, and the read
  is sent to a replica that has nothing (`FailuresHideWrite`; `HiddenWrite` is a run with the default
  settings that takes 200 ms). If latencies were recorded, a faster replica would hide a write at once
  (`FasterReplicaMisses`). And an earlier write that timed out may be carried out after the acknowledged one
  and replace it (`ReadSeesWriteIff`; `LateWriteWins` is a run).
- A client's reads are said to be served from a replica in its zone (`gateway/app/api/cache.py:117`). The
  zone is accepted and ignored: `ZoneRouter.PickReplica` depends on the latency table and the replicas only.
- A node that was declared dead and registers again still has what it stored, and answers with it. A hit is
  always the last value written at the node that answers, but the last one written anywhere if and only if
  no later write of the key went to another node (`HitIsCurrentIff`; `StaleHit` is a run).
- HALF_OPEN is said to admit one probe. It admits any number until a success or a full threshold of failures
  (`HalfOpenStaysIff`; `FailedProbeStaysHalfOpen` is a run).
- `add_node` overwrites the owner of a colliding point and `remove_node` does not restore it
  (`AddThenRemove`).
- Breakers open when a node is reported dead if and only if the threshold is at least 1 or the breaker was
  open already (`BurstOpens`); the settings do not exclude 0, where "OPEN means a full count" also fails
  (`OpenMeansFullIff`).

## Model

| member | source | states |
|---|---|---|
| LruCache.LRUCache.constructor | cache-node/src/lru_cache.cpp:11-23 | a new cache links its two sentinels to each other and is empty |
| LruCache.LRUCache.Create | cache-node/src/lru_cache.cpp:11-18 | a cache is refused exactly when its capacity is 0; otherwise it is new, empty and has the given capacity and default lifetime |
| LruCache.LRUCache.Detach | cache-node/src/lru_cache.cpp:295-302 | the forward and backward walks skip exactly the detached node, whose own links are cleared |
| LruCache.LRUCache.AttachFront | cache-node/src/lru_cache.cpp:304-310 | both walks gain the node right after the head sentinel and are otherwise the same |
| LruCache.LRUCache.EvictLru | cache-node/src/lru_cache.cpp:312-321 | the least recently used entry goes, from list and map alike, and is counted; an empty cache is left alone |
| LruCache.LRUCache.Get | cache-node/src/lru_cache.cpp:45-72 | a live key answers its value and moves to the front; an expired one is deleted; list, answer and counters are those of the list model, with map and both link directions intact |
| LruCache.LRUCache.Put | cache-node/src/lru_cache.cpp:84-120 | the key is at the front with its new value and expiry; a new key in a full cache costs exactly the last entry; the node structure stays intact |
| LruCache.LRUCache.Remove | cache-node/src/lru_cache.cpp:125-137 | the key is gone, everything else keeps its place, and the result says whether it was there |
| LruCache.LRUCache.PurgeExpired | cache-node/src/lru_cache.cpp:183-200 | deleting while walking removes exactly the expired entries, keeps the others in order, and counts them |
| LruCache.LRUCache.Snapshot | cache-node/src/lru_cache.cpp:208-233 | the walk exports exactly the live entries, most recently used first, with whole seconds left |
| LruCache.LRUCache.BulkLoad | cache-node/src/lru_cache.cpp:238-244 | list and counters end as after one put per entry in order |
| LruCache.LRUCache.Clear | cache-node/src/lru_cache.cpp:249-260 | the list and the map are empty and the sentinels are linked; counters stay |
| LruCache.LRUCache.LiveKeys | cache-node/src/lru_cache.cpp:164-173 | each live key exactly once, and no expired key |
| LruCache.LRUCache.Contains | cache-node/src/lru_cache.cpp:157-162 | true exactly for a stored key whose entry has not expired |
| LruCache.Locate | cache-node/src/lru_cache.cpp:48-54 | the node a key maps to is the one list position that holds the key, and looking the key up in the list finds its entry |
| LruModel.Find | cache-node/src/lru_cache.cpp:48-52 | a lookup answers an entry of that key, or there is none in the list |
| LruModel.LiveWithout | cache-node/src/lru_cache.cpp:188-198 | deleting an expired entry during a purge walk leaves the live entries and their order as they are |
| LruModel.StepWellFormed | cache-node/src/lru_cache.cpp:45-137 | every operation keeps keys unique and the list within capacity |
| LruOperations.GetAnswers | cache-node/src/lru_cache.cpp:45-72 | a get answers the stored value exactly while its expiry lies ahead and then makes the key the first; at the expiry the key is gone; every other key is found as before |
| LruOperations.PutStores | cache-node/src/lru_cache.cpp:84-120 | the key is the first, with its value and the given lifetime in seconds, else the default one, else none; another key is lost only if the key is new and the cache full, and then the last one |
| LruOperations.RemovalsForget | cache-node/src/lru_cache.cpp:125-137 | a removal forgets its key, a purge the keys whose expiry has come, a clear all keys, and nothing else is forgotten |
| LruOperations.RemainingExact | cache-node/src/lru_cache.cpp:221-226 | an exported lifetime is the whole number of seconds left, 0 for an entry without expiry |
| LruOperations.CountersCount | cache-node/src/lru_cache.hpp:51-57 | on every trace hits are the gets answered with a value, misses the others, deletions the removals that made the list shorter, evictions the puts of new keys that did not make it longer, and expirations the entries lost at gets and purges |
| LruTheorems.RunWellFormed | cache-node/src/lru_cache.hpp:70-95 | after every trace keys are unique and the size is at most the capacity |
| LruTheorems.LruInclusion | cache-node/src/lru_cache.hpp:79-95 | on every trace with the same clock readings, the list of a smaller cache is a subsequence of a larger one's, and every hit of the smaller is the same hit in the larger |
| LruTheorems.StepIncluded | cache-node/src/lru_cache.cpp:45-137 | one operation preserves inclusion between the two lists and the bound on their difference in size |
| LruTheorems.RecencyOrder | cache-node/src/lru_cache.hpp:156-158 | after every trace the list is in strictly decreasing order of last put or hit |
| LruTheorems.LruRetention | cache-node/src/lru_cache.hpp:87-92 | a key touched, and then neither removed nor expired, is still stored unchanged while fewer distinct other keys than the capacity have been touched since |
| LruTheorems.EvictionNeedsTouches | cache-node/src/lru_cache.cpp:109-112 | an eviction of a key means that as many other keys as the cache holds have been touched since |
| LruTheorems.MetricsConserved | cache-node/src/lru_cache.hpp:51-57 | over every trace hits and misses add up to the gets, and every put is accounted for exactly once as stored, evicted, expired, deleted, overwritten or cleared |
| LruTheorems.BulkLoadReverses | cache-node/src/lru_cache.cpp:238-244 | loading entries with distinct keys into an empty cache keeps exactly the last min(n, capacity), in reversed order |
| LruTheorems.TransferLaw | cache-node/src/lru_cache.cpp:208-244 | loading a snapshot into an empty cache yields the reversed live list, cut to the capacity, with expiries computed from the exported seconds |
| LruTheorems.TransferComplete | cache-node/src/lru_cache.hpp:112-119 | with room for all, every live key is found with its value after the transfer |
| LruTheorems.TransferLifetime | cache-node/src/lru_cache.cpp:221-226 | a transfer never lengthens a lifetime if and only if at least one second was left, and then it costs less than a second |
| LruTheorems.TransferRevivesDyingEntry | cache-node/src/lru_cache.cpp:91-95 | a concrete entry with 0.9 s left becomes immortal by a transfer |
| LruTheorems.PutRepresentable | cache-node/src/lru_cache.cpp:328-331 | every unexpired entry written by a put has a remaining lifetime that 32-bit seconds can carry |
| LruTheorems.RunRepresentable | cache-node/src/lru_cache.cpp:91-95 | after every trace everything stored expires within 2^32 seconds of the last put |
| RingModel.LabelInjective | gateway/app/hash_ring.py:59 | the label of a virtual node determines the node and the index, whatever the node is called |
| RingModel.DecimalDenotes | gateway/app/hash_ring.py:59 | the index in a label is written in decimal: the digits denote the number, without a leading zero |
| RingModel.SortedUnique | gateway/app/hash_ring.py:64 | the sorted point list is determined by the set of points |
| HashRing.BisectRight | gateway/app/hash_ring.py:95 | everything before the result is at most the key's hash and everything from it on is greater |
| HashRing.WalkAt | gateway/app/hash_ring.py:118-136 | the i-th step of the wrapped index loop visits the i-th point clockwise from the key |
| HashRing.CollectDistinct | gateway/app/hash_ring.py:123-138 | the loop stops within one turn with the first distinct owners in clockwise order, as many as asked for or as there are |
| HashRing.DeletePoints | gateway/app/hash_ring.py:74-76 | exactly the listed points are gone |
| HashRing.HashRing.constructor | gateway/app/hash_ring.py:34-40 | the ring is the one obtained by adding the nodes one by one |
| HashRing.HashRing.AddNode | gateway/app/hash_ring.py:51-64 | the points of a new node are written over whatever was there, a known node changes nothing, and the point list is the sorted key set |
| HashRing.HashRing.RemoveNode | gateway/app/hash_ring.py:66-78 | exactly the points owned by the node are gone, and the point list is the sorted key set |
| HashRing.HashRing.GetNode | gateway/app/hash_ring.py:80-101 | the result is the head of the key's clockwise preference list, or none on an empty ring |
| HashRing.HashRing.GetReplicas | gateway/app/hash_ring.py:103-138 | the result is the first `replication_factor` members of the key's preference list, or all if there are fewer |
| RingTheorems.OwnerIsNext | gateway/app/hash_ring.py:84-87 | a key's primary is the owner of the nearest point after its hash, wrapping around |
| RingTheorems.PreferenceExact | gateway/app/hash_ring.py:112-113 | a preference list names every owner on the ring exactly once |
| RingTheorems.ReplicasExact | gateway/app/hash_ring.py:103-138 | the replicas are min(factor, owners) different owners, the primary first, and a prefix of the replicas for any larger factor |
| RingTheorems.ReplicaIsNextOwner | gateway/app/hash_ring.py:126-138 | each replica is the owner of the nearest point clockwise once the points of the replicas before it are taken away |
| RingTheorems.LastAddedOwns | gateway/app/hash_ring.py:51-64 | a point that several nodes have belongs to the one that was added last |
| RingTheorems.PreferenceRestrict | gateway/app/hash_ring.py:66-78 | keeping only the points of some owners filters every preference list, in order, even with collisions |
| RingTheorems.RemoveFilters | gateway/app/hash_ring.py:66-78 | removing a node takes it out of every preference list and changes nothing else |
| RingTheorems.FailoverPromotes | README.md:162-168 | when a primary leaves, the old second replica is promoted; keys of other primaries do not move |
| RingTheorems.AddMovesMinimally | gateway/app/hash_ring.py:24 | after a node joins, every key keeps its owner or belongs to the new node, even with collisions |
| RingTheorems.SubsetFilters | gateway/app/hash_ring.py:51-78 | the preference list over part of the nodes is the full list with the others taken out |
| RingTheorems.AddChangesOneReplica | gateway/app/hash_ring.py:51-64 | a joining node whose points are free is inserted at one place of a replica set, and only the last old member can drop out |
| RingTheorems.InjectiveHashIsCollisionFree | gateway/app/hash_ring.py:58-61 | a hash without collisions on strings gives every pair of nodes disjoint points |
| RingTheorems.CanonicalIffCollisionFree | gateway/app/hash_ring.py:51-78 | the ring depends only on the final node set, for all histories of joins and leaves, if and only if no two nodes' points collide |
| RingTheorems.RebuildAgrees | gateway/app/services/cluster_manager.py:243-255 | if no two nodes' points collide, a rebuild from the node list, in any order, equals the ring maintained incrementally |
| RingTheorems.AddThenRemove | gateway/app/hash_ring.py:61-76 | adding and removing a node undoes itself if and only if none of its points was taken |
| BreakerModel.BreakerCharacterised | gateway/app/services/circuit_breaker.py:76-109 | over every run of calls, the circuit's count, state and times of the last failure and success are read off the trace: OPEN exactly while the streak of failures is full, a threshold below 1 acting as 1 |
| BreakerModel.RefusedExactly | gateway/app/services/circuit_breaker.py:93-109 | a request is refused exactly while a full streak is younger than the timeout |
| BreakerModel.OpenMeansFullIff | gateway/app/services/circuit_breaker.py:89-91 | "OPEN exactly at a full count" holds on all runs if and only if the threshold is at least 1 |
| BreakerModel.OpeningNeedsFailures | gateway/app/services/circuit_breaker.py:84-91 | every entry into OPEN ends a stretch with exactly `threshold` failures, or one if that is below 1, and no success or half-open transition |
| BreakerModel.StreakAtLeast | gateway/app/services/circuit_breaker.py:84-106 | without a success or a half-open transition the streak has at least the failures recorded in between |
| BreakerModel.BurstOpens | gateway/app/main.py:100-103 | `threshold` failures in a row open a circuit from any state if and only if the threshold is at least 1 or it was open already |
| BreakerModel.OpenRefuses | gateway/app/services/circuit_breaker.py:99-106 | an open circuit refuses every query until the timeout has passed or a success, whatever else happens |
| BreakerModel.HalfOpenStaysIff | gateway/app/services/circuit_breaker.py:84-109 | a half-open circuit stays half-open, and admits every probe, if and only if no call succeeds and no failure brings the count to the threshold |
| BreakerModel.FailedProbeStaysHalfOpen | gateway/app/services/circuit_breaker.py:108-109 | in a concrete run a failed probe leaves the circuit half-open and the next probe is admitted |
| CircuitBreaker.CircuitBreaker.GetCircuit | gateway/app/services/circuit_breaker.py:71-74 | an unknown node gets a fresh circuit of its own; every other circuit stays |
| CircuitBreaker.CircuitBreaker.RecordSuccess | gateway/app/services/circuit_breaker.py:76-82 | the node's circuit advances by a success of the value model, and no other circuit changes |
| CircuitBreaker.CircuitBreaker.RecordFailure | gateway/app/services/circuit_breaker.py:84-91 | the node's circuit advances by a failure of the value model, and no other circuit changes |
| CircuitBreaker.CircuitBreaker.IsAvailable | gateway/app/services/circuit_breaker.py:93-109 | the answer and the possible move to HALF_OPEN are those of the value model, and no other circuit changes |
| CircuitBreaker.CircuitsAreRuns | gateway/app/services/circuit_breaker.py:69-74 | over every log of calls on all nodes, a node has a circuit exactly if it was called, and it is what its own calls make of a fresh circuit: nodes do not disturb each other |
| ClusterModel.ScanMembers | gateway/app/services/cluster_manager.py:197-235 | a scan judges every node by its own record at the start of the scan, independent of table order |
| ClusterModel.RingStatusInvariant | gateway/app/services/cluster_manager.py:243-255 | in every reachable state, and midway through any scan, every ALIVE node is on the ring, every ring node is ALIVE or SUSPECT, and the ring is missing only if no node is ALIVE |
| ClusterModel.RoutedNodesHealthy | gateway/app/services/cluster_manager.py:257-267 | no DEAD, RECOVERED or unregistered node is ever handed out as primary or replica |
| ClusterModel.RebuildFilters | gateway/app/services/cluster_manager.py:243-255 | if no two nodes' points collide, a rebuild that adds no node filters every preference list by liveness |
| ClusterModel.DeathFiltersPreferences | README.md:162-168 | if no two nodes' points collide, in every reachable state a death during a scan turns each preference list into its part that is still alive, in order; other turns of a scan change no list |
| ClusterManager.ClusterManager.InstallRing | gateway/app/services/cluster_manager.py:249-254 | the ring is built from the given nodes, or dropped if there are none; records stay |
| ClusterManager.ClusterManager.RebuildHashRing | gateway/app/services/cluster_manager.py:243-255 | the ring is rebuilt from exactly the ALIVE nodes in table order; records stay |
| ClusterManager.ClusterManager.RegisterNode | gateway/app/services/cluster_manager.py:87-111 | the node has a fresh ALIVE record, a known node keeps its table position, other records stay, and the ring is rebuilt |
| ClusterManager.ClusterManager.DeregisterNode | gateway/app/services/cluster_manager.py:124-132 | the node's record is gone and the ring rebuilt; an unknown node changes nothing |
| ClusterManager.ClusterManager.ProcessHeartbeat | gateway/app/services/cluster_manager.py:148-186 | only the sender's record changes, and the ring is rebuilt only on a change of status |
| ClusterManager.ClusterManager.ScanNode | gateway/app/services/cluster_manager.py:197-235 | one node's turn of a scan, which reports exactly the nodes that just became DEAD |
| ClusterManager.ClusterManager.CheckHeartbeatTimeouts | gateway/app/services/cluster_manager.py:188-237 | the loop ends in the scan of the value model and returns exactly the nodes that died in it, in table order |
| ClusterManager.ClusterManager.GetNodeForKey | gateway/app/services/cluster_manager.py:257-261 | the head of the key's preference list on the current ring, none without a ring |
| ClusterManager.ClusterManager.GetReplicasForKey | gateway/app/services/cluster_manager.py:263-267 | the first `replication_factor` of the key's preference list, none without a ring |
| RingTrace.OrderByTrace | gateway/app/services/cluster_manager.py:103-131 | the table lists the registered nodes in the order in which they came into it; a node that registers again keeps its place |
| RingTrace.RingByTrace | gateway/app/services/cluster_manager.py:243-255 | over every run a node is on the ring if and only if it was ALIVE right after the last topology event of the trace: a registration, the deregistration of a registered node, a heartbeat that changes a status, or a death in a scan, where the last death counts |
| RingTrace.ReportedInOrder | gateway/app/services/cluster_manager.py:195-237 | a scan reports exactly the nodes whose third late scan it is, in the order of the table |
| RingTrace.RunPoints | gateway/app/services/cluster_manager.py:254 | in every reachable state the ring has exactly the 160 points of each node on it, each owned by a node that has it |
| RingTrace.PrimaryIsNearest | gateway/app/services/cluster_manager.py:257-261 | in every reachable state a key's primary is a node on the ring with a point that no point of such a node precedes clockwise, and there is none exactly if no node is on the ring |
| RingTrace.ReplicasCounted | gateway/app/services/cluster_manager.py:263-267 | in every reachable state the replicas are different nodes on the ring, the primary first, as many as asked for or as own points |
| DetectionTheorems.HandleFollows | gateway/app/services/cluster_manager.py:148-237 | what an event does to one node's record does not depend on any other node |
| DetectionTheorems.DetectorCharacterised | gateway/app/services/cluster_manager.py:87-108 | over every run a node's record is read off the trace: attempts are min(3, late scans since its last heartbeat or registration), DEAD exactly at 3, else RECOVERED exactly if it was dead since registering, else SUSPECT or ALIVE |
| DetectionTheorems.EverDeadNamesMoment | gateway/app/services/cluster_manager.py:207-208 | "was dead since its registration" means that at some later moment of the trace three late scans had accumulated |
| DetectionTheorems.HeartbeatRevivesIff | gateway/app/services/cluster_manager.py:174-182 | a heartbeat makes a node ALIVE if and only if it has not been DEAD since its registration |
| DetectionTheorems.RecoveredStaysOut | gateway/app/services/cluster_manager.py:174-186 | in a concrete run a node is DEAD after three late scans, RECOVERED and not ALIVE after two further heartbeats, and no key is routed to it |
| DetectionTheorems.ReportedExactly | gateway/app/services/cluster_manager.py:203-209 | a scan reports a node exactly when it raises its late scans from two to three |
| DetectionTheorems.ReportedOnce | gateway/app/services/cluster_manager.py:198-209 | a silent node is reported at most once |
| DetectionTheorems.ThirdLateScanReports | gateway/app/services/cluster_manager.py:64-66 | the third late scan after the last heartbeat reports the node |
| DetectionTheorems.DetectionBound | gateway/app/main.py:95-112 | with scans at most one period apart, a node silent since t is reported by exactly one scan, after t + timeout and no later than t + timeout + 3 periods |
| FailureLoop.ForceOpenOpens | gateway/app/main.py:100-103 | exactly the reported nodes' circuits change, and all of them are OPEN with the cool-down starting now |
| FailureLoop.ForceOpenCounts | gateway/app/main.py:100-103 | each reported node's count grows by the threshold, no other circuit changes, and for a threshold of 0 or less none does |
| FailureLoop.DeadNodesRefused | gateway/app/main.py:97-107 | a node reported dead is refused until the timeout has passed or a call to it succeeds, whatever its circuit was before |
| FailureLoop.DetectFailures | gateway/app/main.py:97-107 | one round scans the cluster and opens the circuits of exactly the nodes that died in that scan |
| FailureLoop.OpenBreakers | gateway/app/main.py:100-103 | the circuits after the loop over the dead nodes are those of the value model |
| FailureLoop.RecordFailures | gateway/app/main.py:102-103 | one node's circuit takes `threshold` failures, none for a threshold of 0 or less |
| RebalanceModel.NeededExact | gateway/app/services/rebalancer.py:78-93 | the keys that want room on a node are those it holds and those whose live source moves to it |
| RebalanceModel.SafeCopyLasts | cache-node/src/lru_cache.cpp:215-228 | with the margin, a copy is readable at the end of the window whenever in the window it was exported and loaded |
| RebalanceModel.UnsafeCopyDies | cache-node/src/lru_cache.cpp:215-228 | without the margin there is a moment of the window at which exporting and loading makes a live copy that is expired at its end, although the entry is not |
| RebalanceModel.FindInsert | cache-node/src/lru_cache.cpp:97-119 | with room, a put changes the lookup of its own key only |
| RebalanceTheorems.NextKeepsInvariant | gateway/app/services/rebalancer.py:208-260 | every single step of any batch, failures included, and every read or purge in between keeps the migration invariant |
| RebalanceTheorems.RunInvariant | gateway/app/services/rebalancer.py:199-206 | the invariant holds after every prefix of every interleaving of batches, reads and purges, with any failures |
| RebalanceTheorems.SourceUnaltered | gateway/app/services/rebalancer.py:253-254 | where a moved key is read from nothing changes, except that an entry that expires may be purged |
| RebalanceTheorems.RebalanceOutcome | gateway/app/services/rebalancer.py:177-206 | whatever the interleaving and the state of other batches, once a batch with the key has finished every node answers for the key as prescribed |
| RebalanceTheorems.NoDataLost | gateway/app/services/rebalancer.py:1-11 | a key answered at its old place is answered with the same value at its new place |
| RebalanceTheorems.PartialRunHarmless | README.md:252-254 | after any partial run another rebalance is as possible as before and has the same goal |
| RebalanceTheorems.RetryIdempotent | README.md:252-254 | after a first attempt whose batches fail, are given up, or go on loading during the retry, a retry that finishes leaves every node answering as after one complete rebalance |
| RebalanceTheorems.DeletedKeyRevivedIff | gateway/app/services/rebalancer.py:253-254 | a moved key that was deleted at its owner is answered by its new owner if and only if an old live copy lay there |
| RebalanceTheorems.MoveDeleteMoveBack | gateway/app/services/rebalancer.py:253-254 | moving a key, deleting it and moving it back makes the old value readable, under all schedules |
| RebalanceTheorems.LoadEvictsNothingIff | cache-node/src/lru_cache.cpp:238-244 | loading new keys evicts nothing if and only if the target has room for all of them |
| RebalanceNecessity.CompleteSchedule | gateway/app/services/rebalancer.py:199-200 | for every moment there is a schedule of just the batches, all made at that moment, in which every batch finishes |
| RebalanceNecessity.LosingSchedule | gateway/app/services/rebalancer.py:223-243 | without the margin there is a schedule in which every batch finishes and the key's new owner does not answer |
| RebalanceNecessity.SurvivesIffSafe | gateway/app/services/rebalancer.py:10 | a moved key survives every schedule if and only if its lifetime leaves the margin |
| RebalanceNecessity.NothingLostIffRoom | gateway/app/services/rebalancer.py:10 | when nothing stored expires and lifetimes leave the margin, after any complete schedule all keys held or due are answered if and only if every node had room for them |
| RebalanceNecessity.DeletedKeyComesBack | gateway/app/services/rebalancer.py:253-254 | a concrete run in which a key is moved, deleted, moved back and answered again |
| RebalanceNecessity.ShortKeyLost | gateway/app/services/rebalancer.py:10 | a concrete run in which every batch succeeds and a key that outlives the window by half a second is lost |
| RebalanceNecessity.CrowdedOut | gateway/app/services/rebalancer.py:10 | a concrete run in which every batch succeeds and one of two keys is lost because the new owner has room for one |
| MigrationWrites.LastStepDecides | gateway/app/services/rebalancer.py:223-243 | under every interleaving with client writes, a node with room holds for a key what the last load, put or deletion that took effect there left, unless that has expired |
| MigrationWrites.PutDecidesIff | gateway/app/services/rebalancer.py:241-243 | a put that no later client write follows decides what the node holds if and only if no load of the key takes effect there after it |
| MigrationWrites.UpdateLost | gateway/app/services/rebalancer.py:223-243 | a concrete run in which a put at the new owner between a batch's snapshot and its load is undone |
| Migration.Fetch | gateway/app/services/rebalancer.py:223-236 | the source's live entries of the wanted keys, in list order |
| Migration.MigrateKeys | gateway/app/services/rebalancer.py:208-260 | the target gains exactly the wanted live entries of the source, the source is untouched, and the count is what arrived and was acknowledged, else 0 |
| Migration.BatchIsMigration | gateway/app/services/rebalancer.py:223-256 | the steps of a batch that nothing interrupts have the effect of the method on the cache objects |
| Rebalancer.Diff | gateway/app/services/rebalancer.py:78-93 | the table lists under each new owner exactly the keys moving to it, in order, with their old owners, and all owners involved are noted |
| Rebalancer.TableOfRings | gateway/app/services/rebalancer.py:81-91 | in the table of two rings a key stands under its owner on the new ring, beside its owner on the old one, exactly if it is listed and the two differ |
| Rebalancer.AffectedExact | gateway/app/services/rebalancer.py:81-93 | the affected nodes are the old and new owners of the keys whose owner changed |
| Rebalancer.Rebalancer.Begin | gateway/app/services/rebalancer.py:64-93 | a rebalance in progress is refused and left alone; otherwise the table and the affected owners are those of the two rings |
| Rebalancer.Rebalancer.Complete | gateway/app/services/rebalancer.py:199-206 | the migrated keys are the sum of the batches' results, and the rebalancer is free again |
| Rebalancer.SumCountsAll | gateway/app/services/rebalancer.py:202-206 | if each batch answers the number of entries it has loaded, the sum is the number loaded by all |
| Rebalancer.GroupByOldOwner | gateway/app/services/rebalancer.py:181-186 | each old owner's group is exactly its keys, in order |
| Rebalancer.BatchesTo | gateway/app/services/rebalancer.py:188-197 | one batch for each old owner of the keys that move to one new owner |
| Rebalancer.MakeBatches | gateway/app/services/rebalancer.py:177-197 | the batches partition exactly the keys whose owner changed, one batch for each pair of owners |
| Rebalancer.PartitionExact | gateway/app/services/rebalancer.py:81-93 | a changed key is in one batch and only that of its two owners; an unchanged key is in none |
| Rebalancer.JoinTargetsOneNode | gateway/app/services/rebalancer.py:78-93 | after a node joins, it is the target of every batch |
| Rebalancer.LeaveEmptiesOneNode | gateway/app/services/rebalancer.py:78-93 | after a node leaves, it is the source of every batch |
| Rebalancer.PlanFits | gateway/app/services/rebalancer.py:180-197 | the planned batches move keys only from their old to their new place, and every listed key that moves is in one |
| Rebalancer.BatchAddresses | gateway/app/services/rebalancer.py:220-221 | a batch goes from its old owner's endpoint to its new owner's; an owner without one is taken to be at port 8001 of this machine as a source and at port 8002 as a target |
| Rebalancer.LastingIsListed | gateway/app/services/rebalancer.py:75 | every key that outlives the window is listed by a node that answers, although expired keys are not |
| Rebalancer.EndpointsSeparate | gateway/app/services/rebalancer.py:220-221 | with distinct endpoints a moved key is never loaded at its own source |
| Rebalancer.RebalanceKeepsReadable | gateway/app/services/rebalancer.py:10 | from rings to nodes: a key answered by its owner under the old ring is answered with the same value by its owner under the new one, under every interleaving |
| ZoneRouter.FirstLeast | gateway/app/services/zone_router.py:92-94 | the position found has the least latency, and is the first such |
| ZoneRouter.PickByLatency | gateway/app/services/zone_router.py:87-96 | the node chosen is a candidate that none is nearer than, and those before it are farther; an unmeasured node counts as 100 ms away |
| ZoneRouter.PickReplica | gateway/app/services/zone_router.py:72-85 | the same for a read, whatever the zone, and the primary if there is no candidate |
| ZoneRouter.LatencyWithin | gateway/app/services/zone_router.py:38-48 | over every history a latency stays within the range of the node's measurements, and exists exactly if there was one |
| ZoneRouter.LatencyConverges | gateway/app/services/zone_router.py:40-48 | n equal measurements shrink the distance to them to 0.7^n of what it was |
| ZoneRouter.ZoneRouter.UpdateLatency | gateway/app/services/zone_router.py:38-48 | a first measurement is taken as it is, a later one draws the value three tenths of the way towards it, and no other node's latency changes |
| ZoneRouter.ZoneRouter.PinWrite | gateway/app/services/zone_router.py:98-113 | the key is pinned to its primary at the time of the write; no other pin changes |
| GatewayModel.RoutedNodesKnown | gateway/app/api/cache.py:127-132 | over every reachable cluster all routed nodes are registered, and a key's replicas are different nodes with the primary first |
| GatewayOperations.RoutedByHash | gateway/app/services/cluster_manager.py:257-267 | over every run of the cluster a key's primary has the nearest point clockwise from the key's own hash, each replica is the nearest node not yet named, as many as asked for or as own points, and the gateway knows exactly the registered nodes |
| GatewayModel.MembersAfter | gateway/app/api/cache.py:127-268 | an entry on a node after a request was there before, with its key not written there, or is what the request put at its primary |
| GatewayModel.RunConsistent | gateway/app/api/cache.py:191-220 | in every reachable state each key is stored at its primary only, with the last value put there and not deleted since |
| GatewayModel.NeverAWrongValue | gateway/app/api/cache.py:127-157 | every hit of every run is the last value put for the key at its primary with no delete there since, whatever breakers, latencies, evictions, expiries, restarts and lost answers do |
| ReadTheorems.FilteredExact | gateway/app/api/cache.py:135 | the available replicas are those whose breakers admit the call, in order, and each breaker is asked once |
| GatewayOperations.ReadTargetExact | gateway/app/api/cache.py:132-145 | in any state a read goes to the replica that is let through by its breaker and is the nearest of those, the first in case of a tie, and nowhere exactly if none is let through |
| GatewayOperations.ReadExact | gateway/app/api/cache.py:132-157 | in any state a get that goes nowhere is refused; otherwise the reply follows from the call's ending and the node's entry, and at most that node's list changes, by the get |
| ReadTheorems.ReadsPrimaryIff | gateway/app/api/cache.py:132-145 | a read goes to the primary if and only if its breaker admits the read and no admitted replica has strictly lower latency |
| ReadTheorems.GetHitsIff | gateway/app/api/cache.py:127-157 | in every reachable state an answered get hits if and only if it goes to the primary and that holds the key unexpired; else it reports the key missing or all replicas unavailable |
| ReadTheorems.ReadYourWritesIff | gateway/app/api/cache.py:217-218 | a get right after an acknowledged put returns the value if and only if no admitted replica has strictly lower latency than the primary; the pin plays no part |
| ReadTheorems.FasterReplicaMisses | gateway/app/services/zone_router.py:87-96 | a faster admitted replica makes a get miss, whatever was written |
| ReadTheorems.UnmeasuredReadsPrimaryIff | gateway/app/services/zone_router.py:92-96 | without latency measurements a read goes to the primary if and only if the primary's breaker admits it |
| ReadTheorems.UnmeasuredReadsItsWrite | gateway/app/api/cache.py:209-220 | without latency measurements a get right after an acknowledged put returns the value |
| ReadTheorems.FailuresHideWrite | gateway/app/api/cache.py:96-99 | after an acknowledged put, as many reads that fail to reach the primary as the threshold make a read miss until the breaker's timeout, although the primary holds the value |
| ReadTheorems.HiddenWrite | gateway/app/services/zone_router.py:107-108 | a concrete such run with the default breaker settings, in which the read comes 200 ms after the write |
| Gateway.Network.Perform | gateway/app/api/cache.py:75-86 | the node's list changes by the operation exactly if the node acted, no other node changes, and the answer is the node's |
| GatewayOperations.CallExact | gateway/app/api/cache.py:66-99 | in any state a call of a registered node that is answered, or refused with a 4xx, closes its circuit with count 0; a 5xx, a refused connection or a timeout adds a failure and opens a full circuit; any other transport failure is not noted; the list changes exactly if the call is carried out, and no other node's does; an unregistered node is not called |
| GatewayOperations.CircuitsByRequests | gateway/app/api/cache.py:78-99 | over every run each node's circuit equals what the questions and call endings read off the requests make of a fresh circuit |
| GatewayOperations.FailingNodeCutOff | gateway/app/api/cache.py:78-99 | over every run, once the calls on a node's breaker end in `threshold` failures with no success and no half-open transition among them, the node is not let through until the timeout |
| GatewayOperations.WriteExact | gateway/app/api/cache.py:191-226 | in any state a put or delete without a primary, or whose primary's breaker is open and not cooled down, is refused with every list unchanged; otherwise the primary's list changes by that one operation exactly if the node is registered and carries it out, and the reply and the pin follow from the call's ending |
| GatewayOperations.BarredByRequests | gateway/app/api/cache.py:191-197 | over every run a write is refused unsent exactly if it has no primary, or the calls on the primary's breaker end in a full streak of failures younger than the timeout |
| Gateway.Gateway.CallNode | gateway/app/api/cache.py:56-99 | an unregistered node is not called; otherwise node, breaker and reply follow from how the call ended |
| Gateway.Gateway.AvailableReplicas | gateway/app/api/cache.py:135 | the replicas let through, in order, with every circuit asked in turn |
| Gateway.Gateway.GetKey | gateway/app/api/cache.py:124-163 | tables, nodes and reply after the handler are those of the value model over the current routing |
| Gateway.Gateway.PutKey | gateway/app/api/cache.py:188-226 | the same for a write, with the pin set only on an acknowledged write |
| Gateway.Gateway.DeleteKey | gateway/app/api/cache.py:241-268 | the same for a deletion |
| GatewayConcurrency.RunConsistent | gateway/app/api/cache.py:191-262 | under every interleaving of handlers, with calls carried out arbitrarily late, each key is stored at its primary only with the last value carried out |
| GatewayConcurrency.HitsLinearize | gateway/app/api/cache.py:107-163 | every hit has a moment between its sending and its reply at which the value was the last one written for the key |
| GatewayConcurrency.ReadSeesWriteIff | gateway/app/api/cache.py:191-220 | a read that starts after a write was acknowledged and hits sees this write if and only if no other write of the key was carried out between the two |
| GatewayConcurrency.LateWriteWins | gateway/app/api/cache.py:96-99 | a concrete run in which a write reported as failed is carried out late and replaces an acknowledged one |
| GatewayConcurrency.AloneIsHandled | gateway/app/api/cache.py:56-268 | a request that nothing interrupts has the effect and the reply of its handler run in one go |
| GatewayTopology.HistoryFaithful | gateway/app/api/cache.py:191-262 | over every run of requests and cluster events, each node holds for a key only the value of the last write carried out at that node |
| GatewayTopology.HitIsNodesLastWrite | gateway/app/api/cache.py:127-157 | over every such run a hit returns the last value written at the node that answers |
| GatewayTopology.HitIsCurrentIff | gateway/app/services/cluster_manager.py:243-261 | that is the last write of the key anywhere if and only if no later one was carried out at another node |
| StaleRead.StaleHit | gateway/app/services/cluster_manager.py:100-111 | a concrete run, without colliding points, in which a node declared dead registers again and answers with a value overwritten elsewhere |
| BloomFilter.SetBit | gateway/app/services/bloom_filter.py:78 | setting a bit of a byte sets that bit and no other |
| BloomFilter.RunExact | gateway/app/services/bloom_filter.py:73-107 | over every history a position is set exactly when a key added since the last clear or load hashes to it |
| BloomFilter.SameKeysSameFilter | gateway/app/services/bloom_filter.py:99-107 | histories with the same present keys give the same positions, whatever the order |
| BloomFilter.SameBitsSameBytes | gateway/app/services/bloom_filter.py:49-51 | the same positions mean the same bytes |
| BloomFilter.ReportedExactly | gateway/app/services/bloom_filter.py:80-93 | a key is reported exactly when each of its positions belongs to a present key; a present key is never reported absent |
| BloomFilter.PositionsAre | gateway/app/services/bloom_filter.py:59-71 | the positions of a key are the digests of the key and each index in decimal, joined by a bar, modulo the size |
| BloomFilter.ReportedByDigests | gateway/app/services/bloom_filter.py:59-93 | over every history a key is reported exactly when each of its digests is congruent, modulo the size, to a digest of a present key |
| BloomFilter.AnswersOnlyGrow | gateway/app/services/bloom_filter.py:73-93 | without a clear or load, a positive answer stays positive |
| BloomFilter.BloomFilter.constructor | gateway/app/services/bloom_filter.py:41-51 | no position is set, whatever the size |
| BloomFilter.BloomFilter.SetPosition | gateway/app/services/bloom_filter.py:76-78 | exactly that position joins the set of positions |
| BloomFilter.BloomFilter.Add | gateway/app/services/bloom_filter.py:59-78 | exactly the key's positions join the set; a filter of size 0 with hashes to compute fails and is unchanged |
| BloomFilter.BloomFilter.MightExist | gateway/app/services/bloom_filter.py:59-93 | true exactly when all of the key's positions are set; no answer exactly if the filter cannot hash |
| BloomFilter.BloomFilter.Clear | gateway/app/services/bloom_filter.py:95-97 | a new array with no position set |
| BloomFilter.BloomFilter.LoadFromSnapshot | gateway/app/services/bloom_filter.py:99-107 | exactly the positions of the listed keys are set, or the filter is clear and the first key fails |

## Left out

- HTTP, JSON, request validation, logging and threads in `cache-node/src/cache_server.cpp`, `cache-node/src/main.cpp`, `gateway/app/api/heartbeat.py` and `gateway/app/api/cluster.py`. Each cache operation is atomic, as its mutex makes it; a remote call is one atomic step at the node, taken or not, whose answer may be lost. A response body that is not the expected JSON is not modelled.
- Heartbeats that register an unknown node, done by an endpoint in `gateway/app/api/heartbeat.py`.
- `cache_server.cpp` reads a transferred lifetime through a signed integer; the model passes the 32-bit number on unchanged.
- The internals of MD5 and SHA-256, uniformity of key distribution, false-positive rates and running times.
- 64-bit wrap-around of counters and of clock arithmetic; numbers are unbounded except for the 32-bit seconds. Times in the gateway are reals, so rounding of floating-point seconds is not captured.
- Freed memory: deleted list nodes are only unreachable, the destructor is not modelled, and `Clear` models the relinking without the loop that frees.
- Operations that read the clock several times in the source (purge and snapshot once for each entry, a round of the detection loop once for each recorded failure) read it once; a bulk load reads it once for each entry, as in the source.
- Hit ratio, memory estimate, `size`, `empty`, the event log, cluster statistics, and the host, port, zone and metric fields of a node record.
- `HashRing.get_keys_for_node`, `HashRing.get_all_nodes`, `HashRing.rebalance_after_node_change` (an empty skeleton), the manual failover and rebalance endpoints (stubs), and the manual health check, which scans without opening breakers.
- `is_pinned_to_primary` and `cleanup_expired_pins`: nothing calls them when a request is routed.
- `GatewayModel` and `GatewayConcurrency` hold the routing fixed, as `GatewayModel.Fixed` does for any cluster state; `GatewayTopology` lets it change, one request at a time.
- Fetching the key lists from the nodes: the listed keys are a parameter. A node that fails to answer lists nothing, and then nothing is promised for its keys (`Rebalancer.ListedBy`).
- Client writes that evict during a migration: `MigrationWrites` assumes room for the keys that are stored, moved or put at a node.
- Keys are assumed to reach the nodes unchanged. The gateway puts them into the URL path unescaped (`gateway/app/api/cache.py:149`, `gateway/app/api/cache.py:205`, `gateway/app/api/cache.py:252`), so that a key such as `a?x` arrives as `a`; the theorems are about keys without such characters.
- Rebalancer.Rebalancer.Begin: asks both rings for all keys before comparing them, where the source asks and compares key by key; the rings do not change in between. If one throws, the source resets `in_progress`, which is not modelled.
- Rebalancer.MakeBatches: leaves the order of batches open, because they run in parallel; the source lists them in insertion order.
- LruCache.LRUCache.LiveKeys: leaves the order of keys open, because the source walks an unordered map.
- HashRing.HashRing.AddNode: the library's sort is the function that yields the ascending list of a set of points.
