# A Dafny model of pebble, spill-ring, spout and bytecast

This project models four connected parts of the repository and proves what they promise.

* **pebble**: a computation graph (edges, back edges, roots, leaves, rebuild depths, cached longest paths) and a
  checkpoint manager that moves checkpoints between a hot, a warm and a cold tier over that graph. The manager behaves
  like a plain map from ids to checkpoints; what it writes to cold storage is enough to rebuild it.
* **spill-ring**: a ring buffer with masked indices and wrapping counters that spills its oldest item into a spout, and
  the thread-per-core pool, in which each worker passes two rings back and forth with a consumer.
* **spout**: the sequencer that puts batches back into order.
* **bytecast**: a prefix-coded binary format with minimal-length varints.

## Layout

| file | content |
|---|---|
| Prelude | options, results, duplicate-free sequences, a stable sort, map and set sizes |
| Graph, DagSpec | graphs as values: walks, cycles, longest walks; what adding and removing a node do, and the invariant both keep |
| Validation, Kahn, CriticalPaths, StalePaths, Dag | the three-colour search, the two topological passes, the incremental path cache and how it can go stale, and the graph as a class |
| Planning, Strategy | rebuild order, eviction candidates and their ranking |
| RingSpec, SpillRing | chains of spilling queues as values, and the ring over an array that refines them |
| Tiers | warm cache, cold tier (a ring in front of a keyed store, or the store alone), write-ahead manifest |
| ManagerSpec, WriteAhead, Eviction, Flushing, Compaction, Manager | the tiers as one value and their invariants; what is logged; when evictions go through and what they do to storage and log, how far a flush gets, what a compaction keeps; the manager as a class |
| Losses, RebuildRuns | runs of the manager's own operations in which a value is lost, a rebuild fails or leaves a node in two tiers |
| Runs | whole runs of the manager against a plain map |
| Rebuild, RecoveryOrder, Recovery, Verify | recomputing a checkpoint from its dependencies, restarting from cold storage and in which order, checking against the manifest |
| Tpc, TpcRounds, TpcShutdown, TpcDrop | the pool as atomic steps of workers, dispatching thread and consumer; rounds driven one after the other; how a shutdown ends or hangs; what one in the middle of a round drops |
| Streaming, PoolStream | the sequencer and the fan-in; the pool and the fan-in together |
| VarInt, Codec, CodecBuffers | length prefixes; printing and parsing as functions, and the bytes they mean; the same over buffers |

Objects that the program updates in place are classes (`ComputationDag`, `SpillRing`, `WarmTier`, `ColdTier`, `Manifest`,
`PebbleManager`, `SequencedSpout`); their methods are stated against functions of values, and the theorems are about
those functions. `dafny verify dfyconfig.toml` checks everything.

## What holds, and what does not

* `validate_acyclic` answers `Ok` exactly for graphs without a cycle (`Validation.ValidateAcyclic`), and a repaired graph has
  exact back edges, roots, leaves, depths and path lengths (`Dag.ComputationDag.Repair`).
* The incremental path cache is a lower bound, zero exactly for leaves, and exact in every levelled graph: when the
  dependencies of each node have one depth, diamonds included (`CriticalPaths.EvenAdded`), and when no node has two
  dependencies (`CriticalPaths.CacheMeaning`). One addition to an exact cache, such as a repaired one, leaves it exact as
  soon as what the new node depends on is levelled (`CriticalPaths.AddedExact`). It is not exact in general
  (`StalePaths.StaleAncestor`), and the edges do not say when: the order in which the new node lists its dependencies can
  decide (`StalePaths.ListOrderMatters`).
* Over any run of operations that return no error the manager is a plain map with dependency edges, and loads
  return what the map holds (`Runs.Run`). An operation fails only if the plain map rejects it or some live value cannot
  be stored.
* Every operation says what it logs. A node that becomes cold is recorded once with its dependencies, what is refused is
  recorded and taken back, a removal and a compaction leave one tombstone for each node that cold storage held, a flush
  records the oldest node first (`Manager.PebbleManager.EvictSingle`, `WriteAhead.EvictedMore`,
  `Manager.PebbleManager.Remove`, `Manager.PebbleManager.Compact`, `Manager.PebbleManager.Flush`).
* Making room fails exactly if what the warm tier has to give up is refused by cold storage: without a warm cache any node
  of the batch (`Eviction.UncachedBatch`), with one the oldest of cache and batch together, as many as are too many
  (`Eviction.CachedBatch`). Resizing fails so over its batches taken together (`Eviction.ShrunkCached`). Adding then loses
  the evicted node without a cache (`Losses.AddLoses`), and loading a warm node loses that node (`Losses.LoadLoses`).
* A flush that meets a refused warm node changes nothing but the log. One that meets a refused hot node forgets all dirty
  marks; everything stays recoverable exactly if the dirty nodes from that one on were in cold storage already
  (`Flushing.StoppedDurable`), and a later flush can succeed without storing them (`Losses.FlushForgets`).
* Compaction keeps exactly the nodes reachable from a node that was added without dependencies, and every value but those of
  ids that were removed, added again and evicted to cold storage alone with nothing buffered for them
  (`Manager.PebbleManager.Compact`, `Losses.CompactLoses`). What was durable stays so exactly if no surviving id that was
  removed and added again is hot or warm and not dirty; such an id is purged from cold storage, and as it is not dirty no
  later flush writes it again (`Losses.CompactForgets`).
* Rebuilding a warm checkpoint makes room before it looks the dependencies up. With a full hot tier that can evict one of
  them, and the rebuild reports it missing although everything was in memory: exactly if a dependency was not hot or is in
  the batch evicted for the target (`Rebuild.WarmMisses`, `RebuildRuns.RebuildMisses`).
* A rebuild promotes recomputed values without taking them out of the warm tier. Whether a node ends up in two tiers can
  be told before the call from the depths of the planned nodes (`Rebuild.PromotesWarm`), unless nodes of equal depth compete
  for the last places: then either can happen (`Rebuild.MayHit`, `Rebuild.MaySpare`). A run of the manager gets there
  (`RebuildRuns.RebuildDoubles`).
* Flushing a manager from which nothing was removed and recovering from its cold storage gives the same graph and
  the same values without integrity errors (`Recovery.Restart`).
* A recovery registers checkpoints pass by pass, in each pass by time stamp, and reports the one registered last
  (`Recovery.Recover`). That is the one with the largest stamp if every dependency is stamped before its dependents
  (`RecoveryOrder.StampsDecide`).
* In every interleaving of a pool that is joined before it is shut down, each worker's two rings are in exactly one place
  each, publishing always finds its slot empty, nothing pushed is lost or duplicated, and no go signal is lost. A round hands
  on exactly each worker's last pushes, as many as fit (`PoolStream.RecordedLatest`). Its shutdown takes the same number of
  steps in all of them (`TpcShutdown.JoinedShutdownEnds`). A shutdown in the middle of a round can hang exactly if some
  worker has not yet cleared its go flag (`TpcShutdown.UnjoinedShutdownHangs`), and a worker can drop a ring
  it published exactly if it has still to publish in the round (`TpcDrop.UnjoinedShutdownDrops`); the items of a dropped ring
  overflow, so that even then none is lost (`TpcDrop.UnjoinedShutdownConserves`).
* The codec round-trips and accepts one form per value. The exception is a vector of elements that print to nothing:
  it decodes exactly when its length does not exceed the bytes that follow (`Codec.RoundTrip`, `Codec.UnitsDoNotDecode`).
  A print that was cut short is refused for want of bytes, wherever it was cut (`Codec.CutShort`). The bytes themselves are
  stated one by one (`Codec.NumberBytes`, `Codec.TagBytes`, `Codec.PrefixBytes`, `Codec.PartBytes`).
  The serializer's single retry refuses long values without a size hint (`CodecBuffers.Serialize`).

## Assumptions

Ids and checkpoints are abstract types. A checkpoint is passed together with its id. The cold tier takes a serializer as a
parameter and the manager requires it to round-trip, which `CodecBuffers.SerializerRoundTrips` shows for the built-in
types. `compute_from_dependencies` and the worker's function are parameters: the first is any function, the second any
sequence of pushes. The manager is given an empty warm tier. Iteration over hash maps and hash sets is in arbitrary order.
Depths saturate at the largest u32, time stamps and use counts at the largest u64, ring counters wrap at 2^64.

## Model

| member | source | states |
|---|---|---|
| Graph.AcyclicNoCycle | pebble/src/dag/validation.rs:24-25 | a relation with a strictly decreasing rank has no cycle, of any length |
| Graph.HeightIsLongest | pebble/src/dag/validation.rs:96-106 | values that satisfy "one more than the largest successor, zero without successors" everywhere are the lengths of the longest walks |
| Graph.Minimal | pebble/src/dag/validation.rs:79-84 | every non-empty set of nodes of an acyclic relation has a member without successor in it, so a topological pass never stalls |
| Prelude.FirstOfMissing | pebble/src/dag/mod.rs:181-189 | the dependency reported missing is the first one listed that does not exist |
| Prelude.DedupOrder | pebble/src/dag/mod.rs:204-211 | dropping repetitions keeps the order of the first mentions |
| DagSpec.AddedSound | pebble/src/dag/mod.rs:162-252 | a validated addition keeps closed, mirrored, repetition-free, acyclic edges and depths that rise along every edge |
| DagSpec.RemovedSound | pebble/src/dag/mod.rs:298-328 | a removal keeps the same invariant, stale depths included |
| DagSpec.AddedFields | pebble/src/dag/mod.rs:191-252 | a new node starts with one use, the time counter as its birth, as many units of cost as distinct dependencies, listed in the order of their first mention, and a depth one above the deepest dependency, saturating; of the others only its dependencies change, by one more dependent at the end |
| DagSpec.RemovedFields | pebble/src/dag/mod.rs:298-328 | a removal changes nothing of another node but its lists, which lose the removed node and keep their order |
| DagSpec.UnlinkedAll | pebble/src/dag/mod.rs:303-321 | visiting only the node's own neighbours removes every mention of it in the graph |
| DagSpec.TimedStrict | pebble/src/dag/mod.rs:191-199 | with fewer than 2^32 additions the saturating depths rise strictly along every edge |
| Validation.StackWalk | pebble/src/dag/validation.rs:33-62 | the grey stack is a dependency walk from each of its frames to the top |
| Validation.BackEdge | pebble/src/dag/validation.rs:56-60 | a grey dependency of the top frame closes a cycle through it |
| Validation.Step | pebble/src/dag/validation.rs:36-62 | one iteration keeps the search invariant (grey is the stack, black nodes have black, earlier finished dependencies) and makes progress, or names a node on a cycle |
| Validation.Explore | pebble/src/dag/validation.rs:33-63 | the search from a start terminates with everything it reached finished and nothing grey, or with a node on a cycle |
| Validation.ValidateAcyclic | pebble/src/dag/validation.rs:25-67 | Ok if and only if the dependency lists contain no cycle; an error names a node on one |
| Kahn.Release | pebble/src/dag/validation.rs:115-122 | decrementing the counter of a dependent of the dequeued node never underflows, and the counters stay exact |
| Kahn.Complete | pebble/src/dag/validation.rs:91-123 | on an acyclic relation the queue runs dry only when every node has been dequeued |
| Kahn.DepthIsHeight | pebble/src/dag/validation.rs:96-106 | the saturated maximum over finished dependencies is the saturated longest path of the node |
| Kahn.CountInDegrees | pebble/src/dag/validation.rs:71-77 | counting along back edges gives the number of distinct existing dependencies of each node |
| Kahn.ReleaseAll | pebble/src/dag/validation.rs:115-122 | after one dequeue every counter is exact again and the queue holds exactly the released nodes |
| Kahn.Raise | pebble/src/dag/critical_paths.rs:75-81 | raising a dependency by the dequeued node accounts for exactly the dequeued successors |
| Kahn.PartialIsHeight | pebble/src/dag/critical_paths.rs:68-90 | a node whose dependents are all dequeued has its longest path to a leaf cached |
| CriticalPaths.PropagateAchieved | pebble/src/dag/critical_paths.rs:18-50 | every value the propagation caches is the length of an actual walk, so at most the longest |
| CriticalPaths.PropagatePositive | pebble/src/dag/critical_paths.rs:18-50 | once the queue is empty no node with dependents is cached as a leaf |
| CriticalPaths.PropagateExact | pebble/src/dag/critical_paths.rs:18-50 | where every dependency lies one level below, the pass works level by level: no node is visited before the values above it are final, so all values are exact again |
| CriticalPaths.EvenAdded | pebble/src/dag/mod.rs:191-199 | an addition whose dependencies exist and have one depth below the largest keeps every edge spanning one depth, so the graph stays levelled |
| CriticalPaths.EvenLevelled | pebble/src/dag/mod.rs:191-199 | graphs whose edges all span one depth are levelled |
| CriticalPaths.ForestLevelled | pebble/src/dag/critical_paths.rs:18-50 | acyclic graphs in which no node has two dependencies are levelled |
| CriticalPaths.AddedExact | pebble/src/dag/critical_paths.rs:18-50 | an addition to an exact cache leaves every value exact if the nodes the new one depends on, directly or not, have levels, whatever the rest of the graph looks like |
| CriticalPaths.AddedCached | pebble/src/dag/mod.rs:245-249 | every validated addition keeps the cache invariant |
| CriticalPaths.CacheMeaning | pebble/src/dag/critical_paths.rs:13-50 | a cached value never exceeds the longest path to a leaf, is zero exactly for leaves, and is the longest path in levelled graphs and in forests |
| StalePaths.StaleAncestor | pebble/src/dag/critical_paths.rs:22-45 | on a chain a, b, c a new node over a and c leaves 2 cached for a although its longest path has 3 edges |
| StalePaths.ListOrderMatters | pebble/src/dag/critical_paths.rs:22-45 | on a chain a, b a new node over both leaves the longest path of a if it lists b first, and one edge less if it lists a first; in neither case is the part below the new node levelled |
| Dag.AddedInvariants | pebble/src/dag/mod.rs:162-252 | an accepted addition keeps graph invariant, path cache and depth bound, saturated counters included, and changes roots and leaves as recorded |
| Dag.RemovedInvariants | pebble/src/dag/mod.rs:298-328 | unlinking parents and children is the whole removal; exactly the neighbours left bare become leaves and roots |
| Dag.UpAcyclic | pebble/src/dag/critical_paths.rs:52-91 | the back edges of an acyclic graph are acyclic, so the pass from the leaves completes |
| Dag.ComputationDag.constructor | pebble/src/dag/mod.rs:89-104 | a new graph is empty and satisfies every invariant |
| Dag.ComputationDag.PropagateCriticalPaths | pebble/src/dag/critical_paths.rs:18-50 | terminates and computes the propagation function that the cache theorems are about |
| Dag.ComputationDag.AddNodeImpl | pebble/src/dag/mod.rs:162-252 | refuses a self dependency, an existing id and, where dependencies are checked, the first missing one, in this order and without effect; otherwise states every field |
| Dag.ComputationDag.AddNode | pebble/src/dag/mod.rs:107-109 | keeps graph invariant, cache invariant and depth bound, whether accepted or refused |
| Dag.ComputationDag.AddNodeUnchecked | pebble/src/dag/mod.rs:112-114 | adds without looking for the dependencies and keeps lists free of repetitions |
| Dag.ComputationDag.MarkAccessed | pebble/src/dag/mod.rs:268-272 | adds one to the use count of an existing node, up to the largest u64, and changes nothing else; the graph invariant stays |
| Dag.TouchedCounts | pebble/src/dag/mod.rs:268-272 | counting one use changes the one counter and nothing else, which is what loads and rebuilds promise of the graph |
| Dag.ComputationDag.RemoveNode | pebble/src/dag/mod.rs:298-328 | drops the node and every mention of it, keeps graph invariant and depth bound; false exactly for an unknown id |
| Dag.ComputationDag.Repair | pebble/src/dag/mod.rs:117-160 | Ok if and only if there is no cycle; back edges, roots and leaves are exact either way, depths and path lengths are the longest paths on Ok, and nothing else of a node changes |
| Dag.ComputationDag.RecalculateRebuildDepths | pebble/src/dag/validation.rs:70-124 | on an acyclic graph every stored depth becomes the saturated longest dependency path, and nothing else changes |
| Dag.ComputationDag.RecomputeAllCriticalPaths | pebble/src/dag/critical_paths.rs:54-91 | on an acyclic graph every cached value becomes the longest path to a leaf |
| Dag.EditAll | pebble/src/dag/mod.rs:162-328 | after any run of additions and removals the graph invariant holds, edges rise strictly below 2^32 edits, and without removals the cache invariant holds |
| Planning.RebuildOrder | pebble/src/dag/eviction.rs:11-37 | lists, once each, exactly the unavailable nodes reachable from the target through unavailable nodes; stored depths never fall along the list |
| Planning.DependenciesFirst | pebble/src/dag/eviction.rs:32-36 | with strictly rising depths every dependency of a listed node is available or listed before it |
| Planning.GetEvictionCandidates | pebble/src/dag/eviction.rs:40-63 | exactly the hot nodes without hot dependents, by use count and then age |
| Planning.EvictableExists | pebble/src/dag/eviction.rs:40-63 | a non-empty hot tier always has a node without hot dependents |
| Planning.UseAscends | pebble/src/dag/eviction.rs:56-60 | the candidates come less used first, and among equally used ones the older first |
| Strategy.SelectEvictionCandidates | pebble/src/strategy.rs:98-205 | at most the wanted number of evictable nodes, all of them if fewer, in the order of the strategy, none after an evictable node left out |
| Strategy.PrecedesMeans | pebble/src/strategy.rs:110-127 | the order of each strategy and mode, by the fields of the two nodes: path to a leaf, use count, cost, dependents and age, each deciding among equals before |
| Strategy.LeftOutByDefault | pebble/src/strategy.rs:177-203 | by default an evictable node that is left out has no shorter path than a chosen one, with an equal path no fewer dependents, and with equal dependents no lower cost |
| Strategy.EvictionCount | pebble/src/strategy.rs:57-60 | evicting this many brings the hot tier within the square root of the total, and one fewer would not |
| RingSpec.SendTrail | spill-ring/src/ring.rs:190-206 | a push appends one item to sink, inner rings and outer ring taken together, at any depth |
| RingSpec.RunTrail | spill-ring/src/ring.rs:533-549 | over any run of pushes, bulk pushes and flushes at any level, what the chain sank and still holds is the push history |
| RingSpec.SendAllLink | spill-ring/src/ring.rs:233-307 | pushing a batch one by one keeps the newest items that fit and passes all older ones on, in order |
| RingSpec.DropDelivers | spill-ring/src/ring.rs:551-567 | dropping a chain of any depth leaves its whole history in the sink |
| SpillRing.MaskIsMod | spill-ring/src/ring.rs:171-184 | conjunction with a power of two less one is the remainder |
| SpillRing.MaskedSlot | spill-ring/src/ring.rs:171-184 | masking a wrapped counter denotes the slot of the unwrapped one |
| SpillRing.CapacityOk | spill-ring/src/ring.rs:103-106 | every power of two up to 2^20 divides the counter range |
| SpillRing.AppendSlot | spill-ring/src/ring.rs:202-205 | writing the tail slot appends to the items, across counter wrap-around |
| SpillRing.TakeSlot | spill-ring/src/ring.rs:211-224 | reading the head slot takes the oldest item, across counter wrap-around |
| SpillRing.CopiedAppends | spill-ring/src/ring.rs:283-306 | copying a batch in two segments appends it, across buffer and counter wrap-around |
| SpillRing.CopyOut | spill-ring/src/ring.rs:338-360 | the two segments copied out are the oldest items in order |
| SpillRing.SpillRing.constructor | spill-ring/src/ring.rs:128-139 | a new ring is empty in front of the given spout |
| SpillRing.SpillRing.PushMut | spill-ring/src/ring.rs:190-206 | refines one send into the chain, spill included |
| SpillRing.SpillRing.PopMut | spill-ring/src/ring.rs:211-224 | removes and returns the oldest item, nothing from an empty ring; the spout is untouched |
| SpillRing.SpillRing.TryPush | spill-ring/src/ring.rs:584-599 | appends exactly if there is room and otherwise hands the item back |
| SpillRing.SpillRing.Len | spill-ring/src/ring.rs:426-428 | the wrapping difference of the counters is the number of items |
| SpillRing.SpillRing.Flush | spill-ring/src/ring.rs:379-400 | sends all items to the spout in order and counts them |
| SpillRing.SpillRing.Drop | spill-ring/src/ring.rs:557-565 | flushes ring after ring down the chain |
| SpillRing.SpillRing.PushSlice | spill-ring/src/ring.rs:233-307 | same contents and same spills as pushing one by one, for batches of any size |
| SpillRing.SpillRing.PopSlice | spill-ring/src/ring.rs:322-361 | removes and returns as many of the oldest items as asked for or held |
| Streaming.SequencedSpout.constructor | spout/src/impls/sequenced.rs:38-53 | starts empty at the given number |
| Streaming.SequencedSpout.Submit | spout/src/impls/sequenced.rs:68-93 | unless something came late, the output so far is all submitted batches up to the expected number in order; early ones wait, appended per number |
| Streaming.SequencedSpout.Advance | spout/src/impls/sequenced.rs:101-111 | emits exactly the consecutive waiting batches and keeps the output in order |
| Streaming.OrderedLast | spout/src/impls/sequenced.rs:73-79 | several submissions under the expected number append to one ordered output |
| Streaming.Reorder | spout/src/impls/sequenced.rs:15-111 | batches submitted in any order of their numbers come out concatenated in number order, none left waiting |
| Streaming.Deliver | spill-ring/src/mpsc/tpc/collector.rs:134-141 | one slot's batch reaches the sequencer under its stamp, the emptied ring goes back, an empty slot does nothing |
| Streaming.Flush | spill-ring/src/mpsc/tpc/fan_in.rs:93-105 | a pass takes every published batch in slot order and ends the round |
| Streaming.StreamRounds | spill-ring/src/mpsc/tpc/collector.rs:130-151 | rounds flushed one after the other come out by round, then by worker, then in push order |
| PoolStream.RoundPublishes | spill-ring/src/mpsc/tpc/pool/mod.rs:272-329 | after a round with everything collected before it, the slots hold exactly one batch per worker under the round's number |
| PoolStream.DrivenAccounts | spill-ring/src/mpsc/tpc/pool/mod.rs:272-431 | over any rounds and passes, whatever the interleaving, a worker's consumer received in push order all that the worker pushed but what overflowed |
| PoolStream.RecordedLatest | spill-ring/src/mpsc/tpc/pool/mod.rs:299-316 | in each driven round a worker hands on exactly the last positions it pushed in that round, as many as its ring holds, in order |
| PoolStream.DriveRounds | spill-ring/src/mpsc/tpc/fan_in.rs:93-105 | the sequencer's output is, by round and then by worker, the last positions the worker pushed in the round, as many as its ring holds; each worker's delivered items and its overflow are every item it pushed in the rounds, once |
| Tpc.StepInv | spill-ring/src/mpsc/tpc/pool/mod.rs:253-431 | every atomic step of worker, dispatching thread or consumer keeps ownership, conservation and signalling |
| Tpc.TwoRingOwnership | spill-ring/src/mpsc/tpc/handoff.rs:54-106 | in every reachable state each ring is in exactly one place, publishing finds its slot empty, the merge branch is dead, offering drops no ring and recycled rings are empty |
| Tpc.Conservation | spill-ring/src/mpsc/tpc/pool/mod.rs:253-330 | delivered, held, published and active items are in push order and, with the overflow, are every pushed item once; after the shutdown the same holds of delivered and collected rings |
| Tpc.OncePerDispatch | spill-ring/src/mpsc/tpc/pool/mod.rs:360-399 | between calls each worker has run exactly once per dispatch; join resets flags only when all have finished the round |
| Tpc.ArgsOfTheRound | spill-ring/src/mpsc/tpc/pool/mod.rs:289-297 | the arguments are read and used only while their round is open, and they are that round's |
| Tpc.UnfinishedMoves | spill-ring/src/mpsc/tpc/handoff.rs:186-213 | a worker that join still waits for can always take a step, and is done after at most eight besides its pushes |
| Tpc.StoppingMoves | spill-ring/src/mpsc/tpc/pool/mod.rs:524-537 | after a shutdown between rounds every worker not yet exited can take a step, and exits with the third at the latest |
| TpcShutdown.JoinedShutdownEnds | spill-ring/src/mpsc/tpc/pool/mod.rs:508-552 | a shutdown between rounds takes eight steps for each worker and four more in every interleaving, stops nowhere before, and leaves every worker exited |
| TpcShutdown.UnjoinedShutdownHangs | spill-ring/src/mpsc/tpc/pool/mod.rs:275-287 | from any reachable open round a shutdown has a run that stops with a worker not exited if and only if some worker's go flag is still set |
| TpcShutdown.HangHappens | spill-ring/src/mpsc/tpc/pool/mod.rs:275-287 | such a state is reached by one worker signalled for its first round |
| TpcDrop.UnjoinedShutdownDrops | spill-ring/src/mpsc/tpc/pool/mod.rs:275-287 | from any reachable open round a shutdown has a run in which a worker overwrites a published ring if and only if that worker has still to publish in the round: slots are emptied before anybody is told to stop |
| TpcDrop.UnjoinedShutdownConserves | spill-ring/src/mpsc/tpc/pool/mod.rs:275-287 | at every step of such a shutdown each item is once among the delivered, in a ring or in the overflow, with what a dropped ring flushes |
| TpcRounds.EveryWorkerPublishes | spill-ring/src/mpsc/tpc/pool/mod.rs:304-316 | a round started with everything collected ends with every worker's ring published in push order under the round's number |
| TpcRounds.PublishesLatest | spill-ring/src/mpsc/tpc/pool/mod.rs:299-316 | a round started from rest publishes each worker's last pushes of the round, as many as fit |
| TpcRounds.FlushWorker | spill-ring/src/mpsc/tpc/pool/mod.rs:420-431 | collecting, delivering and offering one ring is always possible, delivers exactly its items and touches no other worker |
| TpcRounds.PassEmpties | spill-ring/src/mpsc/tpc/pool/mod.rs:420-431 | a pass over all slots delivers every batch and leaves the pool ready for the next round |
| Tiers.RingOverlay | pebble/src/manager/cold/ring.rs:75-81 | a buffered store changes the flushed view exactly as a direct one, whatever the buffer pushes out |
| Tiers.RemovedView | pebble/src/manager/cold/ring.rs:100-102 | a removal from the store shows in the flushed view exactly if no record of that id is buffered |
| Tiers.WarmTier.EvictOldest | pebble/src/manager/warm/cache.rs:64-74 | removes and returns an entry with the smallest stamp |
| Tiers.WarmTier.Insert | pebble/src/manager/warm/cache.rs:82-100 | keeps the item and overflows the oldest entry exactly if the id is new and the cache full; without caching hands the item back |
| Tiers.WarmTier.Remove | pebble/src/manager/warm/cache.rs:108-110 | removes and returns the item held under the id, if any |
| Tiers.WarmTier.Drain | pebble/src/manager/warm/cache.rs:117-119 | returns everything held and leaves the cache empty |
| Tiers.ColdTier.Send | pebble/src/storage/memory.rs:75-87 | data, dependency list and the present time are committed under the id, replacing what was there, and the clock advances by one |
| Tiers.MarkedAt | pebble/src/storage/memory.rs:75-87 | of a run of stores the last one of an id leaves the time of its arrival, until the clock wraps |
| Tiers.ColdTier.Store | pebble/src/manager/cold/ring.rs:75-81 | fails exactly if the value does not serialize, without effect; otherwise the flushed view maps the id to the bytes and dependencies, and what the buffer pushed out was stamped on arrival |
| Tiers.ColdTier.Load | pebble/src/manager/cold/ring.rs:83-88 | decodes what is committed and never sees the buffer |
| Tiers.ColdTier.Flush | pebble/src/manager/cold/ring.rs:94-98 | commits the buffer, each record stamped as it arrives: a load then returns what was stored last |
| Tiers.ColdTier.Remove | pebble/src/manager/cold/ring.rs:100-102 | drops the committed entry, and from the flushed view unless a record is buffered |
| Tiers.Manifest.Record | pebble/src/manager/manifest.rs:78-110 | appends one entry with the next number, or nothing if there are too many dependencies |
| Tiers.Manifest.RecordTombstone | pebble/src/manager/manifest.rs:116-126 | appends one tombstone with the next number |
| Tiers.Manifest.Flush | pebble/src/manager/manifest.rs:129-131 | afterwards everything recorded has drained, in order |
| ManagerSpec.AbsTiers | pebble/src/manager/pebble_manager.rs:259-262 | in disjoint tiers the live values partition into hot, warm and cold, with the value of their tier |
| ManagerSpec.AbsCard | pebble/src/manager/pebble_manager.rs:577-581 | the sum of the tier sizes is the number of live values |
| ManagerSpec.ToColdSteady | pebble/src/manager/eviction.rs:67-94 | moving a warm node to cold storage changes no value and keeps every invariant |
| ManagerSpec.FetchSteady | pebble/src/manager/pebble_manager.rs:296-330 | a cold node can be read, and moving it to the hot tier changes no value |
| ManagerSpec.Promoted | pebble/src/manager/pebble_manager.rs:282-294 | taking a node out of the warm tier, making room and placing it hot changes no value |
| ManagerSpec.AddThenEvict | pebble/src/manager/pebble_manager.rs:122-135 | adding to the graph before making room adds exactly one entry to the map |
| ManagerSpec.EvictThenAdd | pebble/src/manager/pebble_manager.rs:139-162 | making room before adding to the graph comes to the same |
| Flushing.FlushedStored | pebble/src/manager/pebble_manager.rs:488-554 | with nothing dirty every live value is what cold storage decodes to |
| Flushing.StoppedDurable | pebble/src/manager/pebble_manager.rs:522-545 | where a write-through stopped, every value is still marked or stored exactly if the dirty hot nodes from the refused one on, oldest first, were in cold storage with their values before |
| WriteAhead.EvictedMore | pebble/src/manager/eviction.rs:27-52 | evictions one after the other log each node that became cold exactly once, and a refusal only at the end |
| WriteAhead.CreationMeans | pebble/src/manager/pebble_manager.rs:493-512 | the order of a flush: an older node comes before a younger one |
| Eviction.UncachedBatch | pebble/src/manager/eviction.rs:37-96 | without a warm cache a batch goes through if and only if cold storage accepts each of its values |
| Eviction.CachedBatch | pebble/src/manager/eviction.rs:37-96 | with one it goes through if and only if cold storage accepts the oldest of cache and batch together, as many as exceed the capacity; the newest remain, in order and with their values |
| Eviction.AgedQueue | pebble/src/manager/warm/cache.rs:64-100 | a cache whose stamps differ has an age order; stamps differ after fewer than 2^64 insertions (`Tiers.AgesKept`) |
| Eviction.ShrunkCached | pebble/src/manager/pebble_manager.rs:347-367 | resizing with a warm cache: the batches follow the strategy, and they all go through if and only if the oldest of cache and batches together, as many as exceed the cache, are storable; the newest remain |
| Eviction.ShrunkUncached | pebble/src/manager/pebble_manager.rs:347-367 | resizing without one: all batches go through if and only if each of their values is storable |
| Eviction.BatchSizeMeans | pebble/src/manager/eviction.rs:28-28 | a batch is a quarter of the capacity rounded down, and one node below four |
| Eviction.SpilledFromWarm | pebble/src/manager/pebble_manager.rs:282-294 | the same holds from before a node was taken out of the warm tier to make it hot |
| Tiers.AgesKept | pebble/src/manager/warm/cache.rs:82-110 | insertions, overflows and removals keep the stamps of a cache different until the counter wraps; the invariant of every warm tier, and with it of every manager, carries this |
| Manager.PebbleManager.constructor | pebble/src/manager/pebble_manager.rs:82-113 | a new manager holds nothing, has the given strategy and a capacity of at least one, and satisfies every invariant |
| Manager.PebbleManager.StrictDepths | pebble/src/dag/mod.rs:191-199 | a manager that never had more than 2^32 - 1 additions has strictly rising depths |
| Manager.PebbleManager.ByAge | pebble/src/manager/warm/cache.rs:64-100 | in every state of a manager with fewer than 2^64 insertions the warm tier has an age order, so the batch conditions apply |
| Manager.PebbleManager.PersistToCold | pebble/src/manager/pebble_manager.rs:739-762 | Ok exactly if dependencies fit and the value serializes; then one record with the dependencies is logged and the value stored; otherwise nothing but the log changes, which has gained record and tombstone, or nothing if there are too many dependencies |
| Manager.PebbleManager.Spill | pebble/src/manager/eviction.rs:67-94 | what the warm tier gave up becomes cold and is logged exactly if cold storage accepts it; otherwise the eviction is undone, or without a warm cache the node lost |
| Manager.PebbleManager.EvictSingle | pebble/src/manager/eviction.rs:54-96 | succeeds exactly if what overflows, if anything, is accepted by cold storage, and then changes no value; a failure loses exactly the evicted node without a warm cache, and with one keeps tiers and values but makes the oldest entry the newest; the log gains one record for a node that became cold, or what a refusal leaves |
| Manager.PebbleManager.EvictRedPebbles | pebble/src/manager/eviction.rs:27-52 | takes a batch chosen by the strategy, at least one node from a non-empty tier and none with a hot dependent, so its inconsistency error cannot arise; fails exactly at the first node of the batch whose overflow is refused; nothing else is written, unmarked or logged than for nodes that became cold |
| Manager.PebbleManager.MakeRoom | pebble/src/manager/pebble_manager.rs:215-220 | does nothing below capacity and evicts one batch at it, so there is room for one more node; fails exactly if that batch does; nothing else is written, unmarked or logged than for nodes that became cold |
| Manager.PebbleManager.Compress | pebble/src/manager/pebble_manager.rs:381-404 | evicts, by the strategy, as many nodes as the hot tier exceeds the square root of the live count by, or all evictable ones, and changes no value; exactly what became cold is written, unmarked and logged |
| Manager.PebbleManager.ResizeHot | pebble/src/manager/pebble_manager.rs:347-367 | terminates within the new capacity, at least one, without changing a value, after batches by the strategy while too many are left; does nothing if nothing is too many; fails exactly at the first node of a batch whose overflow is refused; exactly what became cold is written, unmarked and logged |
| Manager.PebbleManager.RegisterHot | pebble/src/manager/pebble_manager.rs:766-776 | the node enters the map, hot and dirty, and the capacity grows no further than the root of the live count |
| Manager.PebbleManager.AutoGrow | pebble/src/manager/pebble_manager.rs:797-814 | capacity is the maximum of the initial one and the root of the peak live count; after a manual resizing it grows to the root of the live count and never shrinks |
| Manager.PebbleManager.Add | pebble/src/manager/pebble_manager.rs:122-135 | adds one entry to the map and keeps every invariant; a refused id or dependency has no effect; otherwise fails exactly if making room does, leaving the node in no tier; with room the whole new state is stated, and without it exactly what became cold is written, unmarked and logged |
| Manager.PebbleManager.Insert | pebble/src/manager/pebble_manager.rs:139-162 | as adding, with room made first: it fails exactly if that does or the graph refuses the node, and then leaves the graph alone; exactly what became cold is written, unmarked and logged |
| Manager.PebbleManager.Load | pebble/src/manager/pebble_manager.rs:274-330 | returns exactly the live value of the id, changes none and counts one use of the node; unknown ids have no effect; fails exactly if making room does, after the node has left the warm tier, and then loses it if it was there and counts no use; exactly what became cold is written, unmarked and logged |
| Manager.PebbleManager.Remove | pebble/src/manager/pebble_manager.rs:613-644 | removes one entry, its node and marks; marks the id and logs one tombstone exactly if only cold storage held it; false exactly for ids not in the map |
| Manager.PebbleManager.Flush | pebble/src/manager/pebble_manager.rs:488-554 | Ok exactly if everything to be written can be stored; then no value changes, nothing is warm or dirty, store and log are drained and the store has gained exactly what was warm or dirty; a refused warm node changes nothing, a refused hot one leaves no mark and the store as far as the writing got; the log gains a record for each node written, warm ones before hot ones and older before younger, and what the refusal leaves |
| Manager.PebbleManager.DrainWarm | pebble/src/manager/pebble_manager.rs:493-512 | moves every warm node to cold storage and stores nothing else, or, if any cannot be stored, changes no value and puts the rest back; logs what was stored, oldest node first |
| Manager.PebbleManager.SaveDirty | pebble/src/manager/pebble_manager.rs:522-545 | writes exactly the dirty hot nodes through, oldest first, and logs them in this order; at the first refused one it stops, those before it stored, no mark left and all values kept |
| Manager.PebbleManager.Compact | pebble/src/manager/pebble_manager.rs:651-733 | the surviving nodes are exactly those still reachable from an original root; beside theirs exactly the values of tombstoned ids that cold storage alone holds unbuffered are lost, and every invariant holds exactly if no survivor is among them; everything is durable afterwards exactly if no survivor in memory counts as stored without being so, or has its stored value purged; the count is tombstones plus cascaded nodes that cold storage had; the tiers lose exactly the vanished nodes, committed storage those and the tombstoned ids, and the log gains one tombstone for each vanished node with a committed record |
| Compaction.SurvivorsAnchored | pebble/src/manager/pebble_manager.rs:664-727 | for any worklist order the fixed point of the cascade is reachability from the nodes added without dependencies |
| Compaction.PurgeSafe | pebble/src/manager/pebble_manager.rs:654-662 | a purge keeps all live values, and the tier invariant, if and only if it purges no node held by cold storage alone |
| Compaction.CompactedReadable | pebble/src/manager/pebble_manager.rs:651-733 | whether everything left in cold storage is readable after a compaction is decided by the state before it |
| Compaction.CompactedDurable | pebble/src/manager/pebble_manager.rs:651-733 | durability after a compaction is decided by the state before it: by the clean nodes in memory whose stored value is missing or purged |
| Losses.AddLoses | pebble/src/manager/eviction.rs:54-96 | a run: with no warm cache, adding a second checkpoint to a hot tier of one leaves neither in any tier if the first does not serialize |
| Losses.LoadLoses | pebble/src/manager/pebble_manager.rs:282-294 | a run: with eight hot and two warm nodes whose values do not serialize, loading the older warm node fails and loses it |
| Losses.FlushForgets | pebble/src/manager/pebble_manager.rs:522-545 | a run: after a flush refused at the older of two nodes, the next flush reports success and the other, storable node is not in cold storage |
| Losses.CompactLoses | pebble/src/manager/pebble_manager.rs:654-662 | a run: an id removed from cold storage, added again and evicted has lost its value after the compaction |
| Losses.CompactForgets | pebble/src/manager/pebble_manager.rs:654-662 | a run: an id removed from cold storage, added again and flushed is live and not dirty after the compaction, but no longer in cold storage |
| Runs.Apply | pebble/src/manager/pebble_manager.rs:122-733 | each operation steps the plain map, carries durability and journaling on, and fails only if the plain map rejects it or some value cannot be stored |
| Runs.Run | pebble/src/manager/pebble_manager.rs:122-733 | any run without refusals ends in the plain map's state, every load returned the map's value, without manual resizing the hot tier is within the root of the peak live count or the initial capacity, and below 2^32 additions depths rise strictly |
| Runs.NewRunning | pebble/src/manager/pebble_manager.rs:82-113 | a new manager over empty storage stands for the empty map with every invariant |
| Runs.SpaceBound | pebble/src/manager/pebble_manager.rs:797-814 | the hot tier never outgrows its capacity, which is the initial one or larger, then no more than the root of the peak live count, and with automatic sizing no less |
| Runs.CapacityMeans | pebble/src/manager/pebble_manager.rs:797-814 | what the capacity in a run comes to, without square roots |
| Rebuild.RebuiltCanonical | pebble/src/manager/rebuild.rs:93-107 | where stored values are fixed points of the computation, the recursive rebuild value is the stored value |
| Rebuild.NeededFails | pebble/src/manager/rebuild.rs:95-107 | a failure at any planned node is a failure of the recursive value of the target |
| Rebuild.PlanArguments | pebble/src/manager/rebuild.rs:186-232 | at every step of the plan each dependency resolves from workspace or hot tier to its recursive value, so the cold fallback and the missing-dependency error cannot arise |
| Rebuild.CollectMixedRefs | pebble/src/manager/rebuild.rs:186-232 | resolves each dependency in workspace, hot and warm order; makes hot exactly the dependencies that only cold storage has; fails exactly if one of those does not decode or some dependency is nowhere |
| Rebuild.LoadCold | pebble/src/manager/rebuild.rs:213-221 | loads the listed nodes into the hot tier and out of the cold one; stops at the first that does not decode, named by the error, with those before it loaded |
| Rebuild.LookUp | pebble/src/manager/rebuild.rs:223-231 | the workspace wins over the hot tier and that over the warm one; the error names the first dependency that is nowhere |
| Rebuild.ResolveBaseState | pebble/src/manager/rebuild.rs:131-145 | after a flush, gives the stored value of a node that is not hot, exactly if there is one |
| Rebuild.ExecutePlan | pebble/src/manager/rebuild.rs:92-107 | the workspace ends with the recursive value of every planned node and no tier changes; it fails only where the recursive value does not exist |
| Rebuild.PromoteFromWorkspace | pebble/src/manager/rebuild.rs:240-271 | promotes deepest nodes first, exactly as many as a quarter of the capacity, the free room and the workspace allow |
| Rebuild.PromotionCountMeans | pebble/src/manager/rebuild.rs:241-252 | how many are promoted: within a quarter of the capacity, the free room and the workspace, and one more would exceed one of these |
| Rebuild.PromotesDeepest | pebble/src/manager/rebuild.rs:244-247 | no planned node that stays behind is deeper than a promoted one |
| Rebuild.RebuildCold | pebble/src/manager/rebuild.rs:66-121 | succeeds exactly if no planned node is too wide and the recursive value exists, and returns it; promotes the deepest planned nodes as budget and room allow and stays within the hot bound; keeps the tiers disjoint if no warm node is deep enough, and does not if one surely is; a failure has no effect on the tiers |
| Rebuild.Rebuild | pebble/src/manager/rebuild.rs:36-122 | never-added exactly for ids not in the map; for a hot target exactly the recomputation over the hot tier before the call, with no other effect than its use count; for a warm one failure of the room exactly if the batch fails, and else the recomputation over what is hot after making room, which with room is the hot tier before and the target; in cold storage the recursive value, with what is promoted and when the tiers stay disjoint; a failure there names the largest width if a planned node is too wide, and else a planned node that cannot be recomputed although all its dependencies can be had; the use count of the target rises by one where it was read, and the log changes only by making room |
| Rebuild.RebuildHot | pebble/src/manager/rebuild.rs:48-59 | a hot target is recomputed from the hot tier, found missing exactly at the first dependency that is not hot |
| Rebuild.RebuildWarm | pebble/src/manager/rebuild.rs:36-59 | a warm target is lost exactly if making room fails, and otherwise hot, recomputed over what is hot by then |
| Rebuild.WarmMisses | pebble/src/manager/rebuild.rs:38-58 | a warm target whose room is made misses a dependency if and only if one was not hot, or was evicted for the target |
| Rebuild.HotCanonical | pebble/src/manager/rebuild.rs:48-59 | over fixed points a rebuild in memory returns the stored value |
| Rebuild.GainedTiered | pebble/src/manager/rebuild.rs:240-271 | promoted nodes are planned nodes, and the tiers stay disjoint if and only if none of them was warm |
| Rebuild.PromotesWarm | pebble/src/manager/rebuild.rs:240-271 | from the state before: if as many planned nodes as are promoted are deeper than each warm one, no warm node is promoted; if fewer are as deep as some warm one, that one is |
| Rebuild.MayHit | pebble/src/manager/rebuild.rs:244-250 | where the first condition fails, some order of the workspace promotes a warm node |
| Rebuild.MaySpare | pebble/src/manager/rebuild.rs:244-250 | where the second fails, some order promotes none |
| Rebuild.WarmExact | pebble/src/manager/rebuild.rs:244-250 | with different depths of all planned nodes one of the two conditions always holds |
| Rebuild.WarmWholePlan | pebble/src/manager/rebuild.rs:253-262 | with budget and room for the whole plan the tiers stay disjoint if and only if no planned node but the target is warm |
| Rebuild.WarmNoRoom | pebble/src/manager/rebuild.rs:253-262 | with a capacity below four or a full hot tier no warm node is promoted |
| RebuildRuns.RebuildMisses | pebble/src/manager/rebuild.rs:38-58 | a run: with room for one hot and one warm node, rebuilding the warm one evicts the hot one it depends on and fails for want of it |
| RebuildRuns.RebuildDoubles | pebble/src/manager/rebuild.rs:240-271 | a run: a node in cold storage alone over a warm one is rebuilt with room for four, and the warm one is then hot as well |
| Rebuild.GainedCanonical | pebble/src/manager/rebuild.rs:240-271 | over fixed points a promotion changes no value and leaves nothing undurable |
| Rebuild.ColdRebuiltCanonical | pebble/src/manager/rebuild.rs:61-122 | over fixed points a rebuild from cold storage returns the live value of the target and changes no value |
| Recovery.LoadableClosed | pebble/src/manager/recovery.rs:53-57 | loadable checkpoints are closed under having all dependencies loadable |
| Recovery.LoadableLeast | pebble/src/manager/recovery.rs:53-57 | they are the least such set |
| Recovery.RecoverCheckpoint | pebble/src/manager/recovery.rs:130-163 | registers a checkpoint exactly if its dependencies are registered; otherwise names the first missing one and changes nothing |
| Recovery.RecoverRounds | pebble/src/manager/recovery.rs:67-96 | terminates for any order of the metadata with exactly the loadable checkpoints registered, in passes over what is left |
| RecoveryOrder.TurnLoad | pebble/src/manager/recovery.rs:67-89 | registering the next of a pass puts it behind everything registered before, and what it depends on was registered in this pass or an earlier one |
| RecoveryOrder.OnePass | pebble/src/manager/recovery.rs:67-96 | with every dependency stamped before its dependents one pass registers everything |
| RecoveryOrder.StampsDecide | pebble/src/manager/recovery.rs:61-96 | with every dependency stamped before its dependents the checkpoints are registered by time stamp and the latest one has the largest |
| Recovery.CollectErrors | pebble/src/manager/recovery.rs:98-103 | one error per checkpoint that is not loadable, naming a dependency that is not loadable, and no late registration |
| Recovery.PromoteRecentToHot | pebble/src/manager/recovery.rs:165-195 | of the registered nodes as many as asked for, those with the largest creation time, and of these the ones that decode become hot, youngest first, with their stored values, up to the capacity; those that do not are not replaced |
| Recovery.NewestCount | pebble/src/manager/recovery.rs:169-181 | as many become hot as decode among the newest asked for, up to the capacity; if every registered node decodes, as many as are registered, asked for and have room |
| Recovery.NoneOlder | pebble/src/manager/recovery.rs:169-181 | no node that decodes and stays cold was created after a hot one |
| Recovery.Recover | pebble/src/manager/recovery.rs:26-127 | the graph holds exactly the loadable checkpoints with their stored dependencies and, below 2^32 of them, strictly rising depths; they were registered pass by pass, in each pass by time stamp, and the latest is the one registered last; the errors name exactly the others, and the mode is a warm restart if there are none and something was loaded, a partial recovery if there are some and something was loaded, a cold start else; strategy and capacity are as given |
| Recovery.AllLoadable | pebble/src/manager/recovery.rs:53-96 | a written-through acyclic graph is loadable everywhere |
| Recovery.Restart | pebble/src/manager/recovery.rs:26-127 | flush then recover restores the same edges and values without integrity errors, if the flush succeeds |
| Verify.Verify | pebble/src/manager/verify.rs:49-103 | lost nodes are exactly those neither hot, warm nor logged; consistent exactly without lost nodes and gaps |
| Verify.NoGap | pebble/src/manager/verify.rs:74-79 | numbers counted up from zero leave no gap |
| Verify.GapsAreMissing | pebble/src/manager/verify.rs:74-79 | for entries with distinct numbers the gap count is the number of missing numbers below the largest |
| Verify.FlushAndVerify | pebble/src/manager/verify.rs:46-103 | after a successful flush a manager that logged what it stored and lost nothing is consistent with its drained log |
| VarInt.EncodedIsLeb128 | bytecast/src/impls/alloc.rs:26-43 | the encoding read as unsigned LEB128 (section 7.6 of DWARF 5) is the number |
| VarInt.EncodedMinimal | bytecast/src/impls/alloc.rs:47-55 | no LEB128 form of the number is shorter, and none of the same length differs |
| VarInt.LenEncoded | bytecast/src/impls/alloc.rs:92-104 | the tabulated length is the length of the encoding, for every u32 |
| VarInt.DecodeEncoded | bytecast/src/impls/alloc.rs:47-88 | decoding an encoding followed by anything gives the number and its length |
| VarInt.DecodeCanonical | bytecast/src/impls/alloc.rs:47-88 | whatever is accepted is a u32, and the bytes consumed are its encoding |
| VarInt.DecodeEof | bytecast/src/impls/alloc.rs:57-88 | bytes are wanting exactly if fewer than five were given and each announces another; every other refusal is for invalid data |
| VarInt.DecodeCut | bytecast/src/impls/alloc.rs:57-88 | any proper front part of an encoding is refused for want of bytes |
| VarInt.EncodeInto | bytecast/src/impls/alloc.rs:26-43 | writes the encoding in place and fails exactly if it does not fit |
| VarInt.DecodeRaw | bytecast/src/impls/alloc.rs:57-88 | the shifting loop computes the recursive reading, errors included |
| Codec.FromToLe | bytecast/src/impls/wrapper.rs:9-39 | little-endian digits of a number in range read back as the number |
| Codec.LittleEndian | bytecast/src/impls/wrapper.rs:9-39 | byte i of a number is its digit of weight 256 to the power of i |
| Codec.Weights | bytecast/src/impls/wrapper.rs:9-39 | the weights of the digits are 1, 256, 65536 and so on |
| Codec.NumberBytes | bytecast/src/impls/wrapper.rs:9-39 | integers and characters print at a fixed width, the low byte first, negative integers in two's complement |
| Codec.TagBytes | bytecast/src/impls/mod.rs:35-216 | true prints as 1 and false as 0, nothing as 0, something, after 1, as its content, success after 0 and failure after 1 |
| Codec.PrefixBytes | bytecast/src/impls/alloc.rs:115-126 | a string prints as its length in unsigned LEB128 and its bytes, a vector as its length and its elements |
| Codec.PartBytes | bytecast/src/impls/wrapper.rs:59-80 | the elements of a list print one after the other |
| Codec.CharAccepted | bytecast/src/impls/mod.rs:59-87 | four bytes are a character exactly if they number a code point that is no surrogate |
| Codec.Malformed | bytecast/src/impls/mod.rs:42-330 | a tag above 1, a zero where none may be and text that is not UTF-8 are refused as invalid data |
| Codec.Refusals | bytecast/src/impls/mod.rs:42-249 | reading refuses for want of bytes or for invalid data, and for nothing else |
| Codec.RoundTrip | bytecast/src/impls/alloc.rs:115-156 | printed values followed by anything decode to themselves with their length, or are refused for want of bytes, exactly as the length guard of vectors lets them |
| Codec.SizedGuarded | bytecast/src/impls/alloc.rs:141-147 | without vectors of possibly empty elements the guard never fails |
| Codec.DecodesWhatItPrints | bytecast/src/impls/mod.rs:123-249 | for every such type, value and trailing bytes, decoding what was printed gives the value and the printed length |
| Codec.CutShort | bytecast/src/impls/mod.rs:156-249 | every proper front part of a print is refused for want of bytes |
| Codec.UnitsDoNotDecode | bytecast/src/impls/alloc.rs:141-147 | a vector of one unit prints to one byte that is refused |
| Codec.Canonical | bytecast/src/impls/mod.rs:156-249 | any accepted input is a value of the type whose print is exactly the consumed prefix |
| CodecBuffers.MaxSizeBounds | bytecast/src/impls/mod.rs:178-195 | the size bound of a type bounds every value of it |
| CodecBuffers.MaxSizeReached | bytecast/src/impls/mod.rs:178-195 | without vectors and strings some value reaches the size bound of its type, and an option hints at that bound |
| CodecBuffers.ByteLenBounds | bytecast/src/impls/alloc.rs:128-134 | a size hint, where there is one, is large enough |
| CodecBuffers.ByteLenExact | bytecast/src/impls/alloc.rs:128-134 | without options the size hint is the printed length, and there is one exactly if the value can be printed |
| CodecBuffers.ToBytes | bytecast/src/impls/alloc.rs:118-126 | writes the print in place, leaves earlier bytes alone, and fails exactly if a length exceeds u32 or the buffer is too short; with room for the print it reports the length, with fitting lengths the room |
| CodecBuffers.FromBytes | bytecast/src/impls/alloc.rs:138-155 | the reading loops, at any depth of options, results, pairs, arrays and vectors, compute the recursive parse, errors included |
| CodecBuffers.Serialize | bytecast/src/traits.rs:75-93 | Ok with the print exactly if every length fits and there is a hint or at most 512 bytes |
| CodecBuffers.LongOptionRefused | bytecast/src/traits.rs:75-93 | an optional string of 512 bytes or more is refused although its format allows it |
| CodecBuffers.SerializerRoundTrips | bytecast/src/serializer.rs:19-29 | deserializing what was serialized gives the value back |

## Left out

- Memory orderings, spinning, cache alignment, thread panics and join handles: the pool is modelled as sequentially consistent atomic steps.
- Uninitialized memory, pointer validity, drop guards and cache warming: slots are optional values and arrays of them.
- Manager.PebbleManager.Remove: a removed record that is still buffered reaches the store later; faithfulness of cold storage is carried only over runs without removals.
- Rebuild.Rebuild: requires strictly rising depths, which any run and any recovery with fewer than 2^32 additions gives (`Runs.Run`, `Recovery.Recover`); the order of a rebuild plan is unreliable once depths have saturated. Whether a warm node among equally deep ones is promoted depends on the order of a hash map.
- Runs.Run: requires that no id is live again when the tombstone of its removal is purged; what a compaction does otherwise is `Manager.PebbleManager.Compact`.
- Dag.ComputationDag.Repair: requires dependency lists without repetitions, which both kinds of addition produce; removals between unchecked additions and the repair are not covered.
- Dag.ComputationDag.RemoveNode: path lengths of the remaining nodes are not refreshed by the program and nothing is claimed about them after a removal.
- Tpc.StepInv: dispatching a second round before joining the first is not modelled, and the collection of a batch is assumed not to fail.
- Streaming.SequencedSpout.Advance: the 64-bit sequence number does not wrap in the model, nor do the manifest's sequence number and the pool's round counter.
- Statistics counters, ratios and the I/O bounds reported from them.
- Branch tracking, tokens and guards over manager operations, builders and the debug-only pebble game.
- File-backed storage, the parallel cold tier and session ids in the metadata.
- The unordered collector, which forwards batches as they come, and the consumer over the rings left after a shutdown.
- Codec.Canonical: sorted and hashed maps and sets are not modelled, since they accept duplicates and any order; floats are their bit patterns, usize is 64 bits wide, UTF-8 validity is an abstract predicate.
- The payloads of size errors, derive macros and the bridges to other serialization libraries.
- The verdict crate, terminal rendering, examples and benchmarks.
