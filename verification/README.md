# Lilt, modelled and proved

Lilt shares one GPU between a high-priority (HP) process and several best-effort (BE) processes. This project models
the four parts of its proxies that decide what may run when, and proves what they promise. `dafny verify
dfyconfig.toml` checks all of it.

## What is modelled

**Graphlet splitting** (`Dag`, `Layering`, `Packing`, `Splitting`, `CudaGraphs`, `Graphlets`, `GraphRegistry`,
`GraphScheduler`). A captured CUDA graph is a set of nodes and a set of edges; an *execution* runs every node once, in
an order the edges allow. `Layering` and `Packing` are the array loops that compute layers and pack them under a node
limit. `Graphlets` clones the graph once per group and prunes it, over a driver whose calls may each fail.
`GraphScheduler` is the linked list of executables with record, invalidate, forget and launch. Main results:

* the layers are the longest path lengths, and the cyclic fallback is taken exactly on a cycle (`ComputeLayers`);
* the packing is bounded and no shorter one exists (`GroupsAreGreedy`, `GreedyIsOptimal`), and the two passes agree
  (`CountGroups`, `FillGroups`);
* pruning loses no ordering (`PruningKeepsOrder`), and the graphlets in index order are an execution of the original
  graph (`SplitIsExecution`), with the same effect on the device (`SplitPreservesMeaning`);
* every launch runs what the executable holds now, whatever updates, records and failures came before
  (`Scheduler.Valid` over all its methods, `Scheduler.Launch`).

**HP activity tracking** (`HpProtocol`, `HpProgress`, `HpTracker`). `HpProtocol` is a state machine of launcher threads, the watcher
that waits outside the lock, and a device that finishes work when it likes; a step is one lock-held body, one driver
call, or one completion. `HpTracker` has the lock-held bodies as loops over the slot array and shows that each is
exactly the step the protocol names. Main results: over every interleaving, IDLE is published only when all submitted
work is complete, the state flag is exact, and no wakeup is lost (`IdleIsSafe`), in all three completion modes and with
more streams than slots; a slot re-armed during a wait survives it (`RearmedSurvives`); and once launches have stopped
and the device has finished, the watcher can always bring IDLE back (`IdleIsReachable`).

**BE admission** (`BeAdmission`, `BeRing`, `Profiles`, `Survival`, `BeController`). The ring of in-flight launches with
its running sums, the open-addressing profile table, the sampling quota and the admission loops of all six policies,
as classes over arrays. `Valid` of `Controller` holds the ring representation, the budget of the policy and the quota
together, and every method keeps it. Main results: budgets are kept over every run and the loops retire the fewest
launches that make room; the table refines a finite map, and a measured duration is learned under the kernel that ran
(`Retire`, `MeasuredKernelIsKnown`); whenever the histogram decides, what it admits is backed by the recorded history
(`ProbabilityPct`, `SurvivalAdmission`).

**Shared state and the whole system** (`ActivityTracker`, `System`; `Common` holds what several parts share). The
ACTIVE/IDLE word with its owner, moving averages and idle histogram, and the composition of one HP process with any number of BE processes
(`InterferenceIsBounded`, `GroupIsBounded`). The steps of a BE process there are the ones the controller class takes,
under every policy (`BeforeAsSteps`, `SurvivalTurnAsSteps`, `AfterAsStep`).

Properties that are false of the code in general are given with the exact condition under which they hold, and an
input on which they fail:

* the assertions on outstanding blocks (`AssertionsHoldIffSumFits`, `ThreeLargestGridsFail`);
* that the survival estimate never exceeds the true fraction: the 32-bit count of idle periods may have wrapped
  (`CautiousIffSampleCountHolds`, `WrappedCountBreaksCaution`; from the first threshold on it does not matter,
  `EstimateIsBacked`), and that its numerator never exceeds its denominator (`FractionIffCountReachesFirstBucket`,
  `WrappedCountBreaksFraction`);
* that the shares of a group fit in its total (`SharesFitIff`).

## Assumptions

* A stream handle means one FIFO. HP slots are keyed by the handle alone (hijack/src/hp_intercept.c:261-264), so
  per-thread default streams of several threads, which share a handle, are excluded. Work on different streams, and
  even on one stream, may complete in any order; waiting for an event or a stream returns successfully only once
  everything submitted to that stream before it is complete.
* The fallback `cuStreamSynchronize` calls whose results the code ignores return only after the stream's work is
  complete: in `event_hp_after_launch` (hijack/src/hp_intercept.c:600-617), when a BE launch is retired
  (hijack/src/be_intercept.c:600-605) and when its event cannot be recorded (hijack/src/be_intercept.c:1080-1084).
* Reaping a dead owner takes several stores (hijack/src/activity_tracker.c:338-342 and 363-368). `SharedState` treats
  each as one step, and `System` follows a single HP lifetime.
* The timing snapshot is advisory. What is claimed of it holds for one read between two publications.
* Grid sizes stay below 2^58 blocks, so that 64 of them fit in 64 bits. `AssertionsHoldIffSumFits` says what
  happens without this.
* Launches with no HP owner, under passthrough, during stream capture, or with graph mode `off` are untracked, as in
  the code.
* The graphlets of one launch go to one stream, and the BE proxy drains its window between them, so each has finished
  before the next starts.
* Race freedom, where `SplitPreservesMeaning` uses it, says that nodes the graph leaves unordered commute.

Driver results, clock readings, liveness of a process and what the device does are parameters or left open. The field
`reliable` of the driver model says that no driver call and no allocation fails; it is used only to say what must
happen then.

## Model

| member | source | states |
|---|---|---|
| `Layering.LayersAreLongestPaths` | hijack/src/graph_scheduler.c:315-349 | the layer of a node is the length of the longest dependency chain into it |
| `Layering.LayersAreUnique` | hijack/src/graph_scheduler.c:315-349 | a graph has only one layering, so the result does not depend on the order in which the driver lists nodes and edges |
| `Layering.LayeredIsAcyclic` | hijack/src/graph_scheduler.c:326-331 | a graph that could be layered has no cycle |
| `Layering.StuckSetHasCycle` | hijack/src/graph_scheduler.c:318-331 | if every node of a non-empty set waits for another of the set, the graph has a cycle; so an empty round proves one |
| `Layering.RoundPlaces` | hijack/src/graph_scheduler.c:317-349 | one round places exactly the nodes all of whose predecessors are placed, each one layer above a node it depends on |
| `Layering.NodeIndex` | hijack/src/graph_scheduler.c:156-164 | the first index of the node, or -1 exactly when it is not listed |
| `Layering.CountIndegrees` | hijack/src/graph_scheduler.c:304-313 | every counter equals the number of edges, with multiplicity, whose source is not placed; fails exactly when some edge ends outside the node list |
| `Layering.MarkReady` | hijack/src/graph_scheduler.c:318-325 | marks exactly the unplaced nodes whose counter is zero and gives them the current layer |
| `Layering.ReleaseEdges` | hijack/src/graph_scheduler.c:338-346 | after one node is released every counter again equals the number of edges from nodes not yet released |
| `Layering.ReleaseMarked` | hijack/src/graph_scheduler.c:332-347 | all marked nodes become placed, the counters match the new set and the remaining count is exact |
| `Layering.Round` | hijack/src/graph_scheduler.c:317-349 | one turn of the loop is one mathematical round; it places nothing exactly when no node is ready |
| `Layering.ComputeLayers` | hijack/src/graph_scheduler.c:304-349 | terminates; answers "foreign edge" exactly when an edge ends outside, "cyclic" exactly when a cycle exists or an edge starts outside, and otherwise the longest-path layers with no empty layer |
| `Packing.SizesAddUp` | hijack/src/graph_scheduler.c:356-359 | the layer sizes add up to the number of nodes |
| `Packing.GroupsAreGreedy` | hijack/src/graph_scheduler.c:353-398 | the packing yields adjacent non-empty ranges covering all layers, each with its exact node count, each within the limit or a single layer, and none could have taken one more layer |
| `Packing.GreedyStaysAhead` | hijack/src/graph_scheduler.c:353-398 | group by group, the greedy packing has covered at least as many layers as any division that obeys the limit |
| `Packing.GreedyIsOptimal` | hijack/src/graph_scheduler.c:353-398 | no division into layer ranges that obeys the limit uses fewer graphlets |
| `Packing.CountsAddUp` | hijack/src/graph_scheduler.c:377-398 | the node counts of the graphlets add up to the nodes of the layers they cover |
| `Packing.CountLayer` | hijack/src/graph_scheduler.c:356-359 | counts the nodes of one layer |
| `Packing.CountGroups` | hijack/src/graph_scheduler.c:353-369 | the counting pass returns exactly the number of graphlets the packing has |
| `Packing.FillGroups` | hijack/src/graph_scheduler.c:377-398 | the filling pass stays inside an array of that length and fills every position with its graphlet |
| `Splitting.PruningKeepsOrder` | hijack/src/graph_scheduler.c:411-428 | two nodes kept in one graphlet are ordered by the pruned clone if and only if the original graph orders them |
| `Splitting.PieceHasNoCycle` | hijack/src/graph_scheduler.c:411-433 | what is left for a graphlet can always be run |
| `Splitting.SplitPrefixIsPartial` | hijack/src/graph_scheduler.c:595-615 | if a graphlet fails to launch, what has run has each node once and is closed under dependencies |
| `Splitting.SplitIsExecution` | hijack/src/graph_scheduler.c:595-615 | running all graphlets in index order, each in any order its own edges allow, runs every original node exactly once in an order the original edges allow |
| `Splitting.SplitPreservesMeaning` | hijack/src/graph_scheduler.c:565-637 | the split run ends in the same device state as any run of the whole graph, for every device semantics under which nodes the graph leaves unordered commute |
| `Splitting.StalePiecesNeverRunTheUpdate` | hijack/src/graph_scheduler.c:526-543 | pieces cut from an older content never amount to a run of a graph with other nodes or parameters, so an update has to drop them |
| `Splitting.SizesAreOf` | hijack/src/graph_scheduler.c:356-359 | the counts taken over the layer array are the cardinalities of the layers of the graph |
| `Splitting.RangeCount` | hijack/src/graph_scheduler.c:385-398 | a graphlet over a range of layers holds exactly as many nodes as its node count says |
| `Dag.ExecutionOrdersPaths` | hijack/src/graph_scheduler.c:595-615 | an execution never runs a node before one it depends on through any chain of edges |
| `Dag.ExecutionsAgree` | hijack/src/graph_scheduler.c:595-615 | any two executions of a race-free graph leave the device in the same state |
| `CudaGraphs.Driver.GetNodes` | hijack/src/graph_scheduler.c:264-265 | lists every node of a graph once, in any order |
| `CudaGraphs.Driver.GetEdges` | hijack/src/graph_scheduler.c:296-298 | lists exactly the edges of a graph |
| `CudaGraphs.Driver.CloneGraph` | hijack/src/graph_scheduler.c:402 | a new graph equal to the old one, under a handle never used before |
| `CudaGraphs.Driver.DestroyNode` | hijack/src/graph_scheduler.c:422 | the node goes with its edges, nothing else changes |
| `CudaGraphs.Driver.Instantiate` | hijack/src/graph_scheduler.c:201-219 | a new executable that runs what the graph holds now |
| `CudaGraphs.Driver.Schedule` | hijack/src/graph_scheduler.c:603 | an order its edges allow, or a proof that the graph has a cycle: the launch specification is never vacuous |
| `CudaGraphs.Driver.Launch` | hijack/src/graph_scheduler.c:603 | the nodes run once each in an order the edges allow, or the launch fails and nothing runs |
| `Graphlets.DestroyGraphlets` | hijack/src/graph_scheduler.c:173-192 | destroys exactly the executables and clones the graphlets own |
| `Graphlets.Prune` | hijack/src/graph_scheduler.c:411-428 | leaves in the clone exactly the layers of the graphlet |
| `Graphlets.BuildPiece` | hijack/src/graph_scheduler.c:400-435 | on success one executable of exactly the graphlet's layers; on failure everything it created is recorded and nothing else has changed |
| `Graphlets.BuildPieces` | hijack/src/graph_scheduler.c:400-447 | one executable per group; when any call fails every object made so far is destroyed again |
| `Graphlets.FoundIsBest` | hijack/src/graph_scheduler.c:315-398 | layers that were found, packed greedily and cloned, are a split of the graph into as few graphlets as possible |
| `Graphlets.PackAndBuild` | hijack/src/graph_scheduler.c:353-447 | both packing passes and the clones, with no leftover on failure |
| `Graphlets.LayerAndBuild` | hijack/src/graph_scheduler.c:304-447 | once a supported graph has been read: split into the fewest graphlets, or a cycle, or a failed call that leaves nothing behind |
| `Graphlets.BuildGraphlets` | hijack/src/graph_scheduler.c:221-455 | splits only what can be split and into the fewest graphlets; falls back with "cyclic" only on a cycle; if no driver call fails, it splits exactly the supported acyclic graphs and otherwise names the right reason; a fallback leaves no driver object behind |
| `Graphlets.Obstacles` | hijack/src/graph_scheduler.c:226-331 | a graph that was split had none of the obstacles: device launch, no nodes, a host, child-graph or other unsupported node, a cycle; if no call fails, the reason of a fallback names an obstacle that is there |
| `GraphRegistry.RemoveKeeps` | hijack/src/graph_scheduler.c:492-498 | removing an entry and destroying its graphlets keeps the registry consistent and forgets the executable |
| `GraphRegistry.WholeKeeps` | hijack/src/graph_scheduler.c:533-536 | marking an entry whole keeps the registry consistent and gives up exactly its graphlets |
| `GraphRegistry.InsertKeeps` | hijack/src/graph_scheduler.c:489-502 | the old entry gone and the new one in front, the registry again has at most one entry per executable, with disjoint driver objects |
| `GraphRegistry.BuildKeepsRegistry` | hijack/src/graph_scheduler.c:479 | building graphlets does not disturb the executables recorded so far |
| `GraphRegistry.UpdateLeavesStale` | hijack/src/graph_scheduler.c:699-711 | changing what an executable runs makes at most its own entry stale |
| `GraphRegistry.WholeIsNeverStale` | hijack/src/graph_scheduler.c:533-541 | a stale entry that is launched whole does no harm |
| `GraphRegistry.HostGraphIsWhole` | hijack/src/graph_scheduler.c:166-171 | an executable that holds a host node is never split |
| `GraphScheduler.Scheduler.Find` | hijack/src/graph_scheduler.c:146-154 | null exactly when the list has no entry for the executable |
| `GraphScheduler.Scheduler.Unlink` | hijack/src/graph_scheduler.c:490-500 | the executable has no entry any more, its graphlets are destroyed, everything else stays |
| `GraphScheduler.Scheduler.Unhook` | hijack/src/graph_scheduler.c:492-496 | takes one item out of the linked list and keeps the order of the others |
| `GraphScheduler.Scheduler.Forget` | hijack/src/graph_scheduler.c:545-563 | the entry is gone and no application object is touched |
| `GraphScheduler.Scheduler.Invalidate` | hijack/src/graph_scheduler.c:526-543 | afterwards no entry is stale and the executable is launched whole |
| `GraphScheduler.Scheduler.MarkWhole` | hijack/src/graph_scheduler.c:533-536 | the entry stays, without graphlets |
| `GraphScheduler.Scheduler.Insert` | hijack/src/graph_scheduler.c:489-502 | one entry for the executable, in front, and the others unchanged |
| `GraphScheduler.Scheduler.BuildFor` | hijack/src/graph_scheduler.c:479-480 | the graphlets built for an executable stand for exactly what it runs |
| `GraphScheduler.Scheduler.Fill` | hijack/src/graph_scheduler.c:479-480 | the new item is splittable only if the graph can be split, and whenever it can and no driver call fails |
| `GraphScheduler.Scheduler.Record` | hijack/src/graph_scheduler.c:457-524 | records the executable without touching application objects; it becomes split only under the graphlet mode and only if its graph can be split, and always then if no driver call fails |
| `GraphScheduler.Scheduler.LaunchPieces` | hijack/src/graph_scheduler.c:595-615 | on success the graphlets run an execution of the whole graph, on failure a dependency-closed part; succeeds if no driver call fails |
| `GraphScheduler.Scheduler.Launch` | hijack/src/graph_scheduler.c:565-637 | whichever way it launches, what runs is an execution of what the executable holds now; the driver is handed the recorded graphlets in order exactly when the policy is on, not in passthrough and in graphlet mode, and the entry is split, and otherwise the executable itself |
| `GraphScheduler.Scheduler.InstantiateGraph` | hijack/src/graph_scheduler.c:640-683 | a new executable of the graph, recorded, and split only when it can be; other entries unchanged |
| `GraphScheduler.Scheduler.UpdateExec` | hijack/src/cuda_originals.c:1789-1799 | after a successful intercepted update the next launch runs the new content as a whole |
| `GraphScheduler.Scheduler.UpdateHostNode` | hijack/src/cuda_originals.c:1835-1839 | the update that is not intercepted is sound: it succeeds only on executables that are never split |
| `GraphScheduler.Scheduler.DestroyExec` | hijack/src/cuda_originals.c:1570-1573 | the executable and its graphlets are gone, nothing else is |
| `HpProtocol.IdleMeansDone` | hijack/src/hp_intercept.c:284-291 | when IDLE is published every submitted launch has completed |
| `HpProtocol.BeforeKeeps` | hijack/src/hp_intercept.c:549-559 | a thread entering the launch wrapper keeps the invariant |
| `HpProtocol.SubmitKeeps` | hijack/src/hp_intercept.c:561-564 | so does the driver accepting or refusing a launch outside the lock |
| `HpProtocol.AfterKeeps` | hijack/src/hp_intercept.c:561-627 | so does a thread leaving, with or without a slot, a record or a synchronisation, for any number of streams |
| `HpProtocol.ScanKeeps` | hijack/src/hp_intercept.c:472-494 | so does a round of event queries |
| `HpProtocol.SnapshotKeeps` | hijack/src/hp_intercept.c:361-373 | so does taking the snapshot |
| `HpProtocol.WaitStepKeeps` | hijack/src/hp_intercept.c:378-434 | so does every call the watcher makes outside the lock: a late record, an event wait, a fallback stream wait, and their failures |
| `HpProtocol.WatcherRecordsItsOwn` | hijack/src/hp_intercept.c:378-400 | the watcher records an event late only in deferred mode and never on a default stream that means another thread's |
| `HpProtocol.ClearKeeps` | hijack/src/hp_intercept.c:436-451 | a slot is cleared only when everything submitted to its stream before it was armed has completed |
| `HpProtocol.FinishKeeps` | hijack/src/hp_intercept.c:436-453 | so does the end of a watcher round |
| `HpProtocol.ClearFrees` | hijack/src/hp_intercept.c:436-451 | a slot stays active at the end of a round exactly if it was and no wait that succeeded is of its present generation |
| `HpProtocol.FinishFrees` | hijack/src/hp_intercept.c:436-453 | and when every active slot has such a wait and no launch is in progress, IDLE is published |
| `HpProtocol.ArmingRearms` | hijack/src/hp_intercept.c:586-593 | a launch accounted for while the watcher waits makes its slot newer than every wait of the round that concerns it |
| `HpProtocol.StepKeepsRearmed` | hijack/src/hp_intercept.c:375-435 | every step of any thread, of the device and of the watcher itself keeps that until the round ends |
| `HpProtocol.FinishSparesRearmed` | hijack/src/hp_intercept.c:436-453 | the end of the round leaves such a slot as it is and does not publish IDLE |
| `HpProtocol.RearmedSurvives` | hijack/src/hp_intercept.c:436-453 | in every run: when a launch is accounted for while the watcher waits, the end of that round leaves its slot active and ACTIVE published, whatever steps come in between |
| `HpProtocol.CompleteKeeps` | hijack/src/hp_intercept.c:375-377 | so does the device finishing any piece of work at any time |
| `HpProtocol.NextKeeps` | hijack/src/hp_intercept.c:342-495 | every step of launchers, watcher, device and shutdown keeps the invariant |
| `HpProtocol.RunsKeepInv` | hijack/src/hp_intercept.c:342-627 | the invariant holds in every state of every run |
| `HpProtocol.IdleIsSafe` | hijack/src/hp_intercept.c:284-291 | over every interleaving: IDLE only when all submitted work is done; ACTIVE exactly while a launch is in progress or a slot is active; a watcher asleep without a signal has nothing to do |
| `HpProgress.RoundFinishes` | hijack/src/hp_intercept.c:375-454 | a round of waits goes to its end by its own steps, and a round just begun ends with IDLE published |
| `HpProgress.IdleIsReachable` | hijack/src/hp_intercept.c:342-495 | ACTIVE is never stuck: from every state that can occur in which no launch is in progress, the device has finished and no shutdown is asked for, the watcher's own steps lead to IDLE, in all three modes and wherever the watcher is |
| `HpTracker.FinishStreamKeeps` | hijack/src/hp_intercept.c:600-617 | synchronising a stream with the lock held completes all its work and keeps the invariant |
| `HpTracker.SnapshotIsOneEach` | hijack/src/hp_intercept.c:361-373 | a snapshot has one wait for every active slot, with its present stream and generation, and no other |
| `HpTracker.Tracker.AnyActiveEvent` | hijack/src/hp_intercept.c:249-256 | true exactly when some slot is active |
| `HpTracker.Tracker.PublishIfIdle` | hijack/src/hp_intercept.c:284-291 | publishes IDLE exactly when ACTIVE is published and nothing is in progress or active |
| `HpTracker.Tracker.Before` | hijack/src/hp_intercept.c:549-559 | takes exactly the entering step of the protocol: one more launch in progress, ACTIVE published, a missing watcher started if it can be |
| `HpTracker.Tracker.SlotFor` | hijack/src/hp_intercept.c:258-282 | the slot of the stream, else the first free one, else -1 only when all are taken or no event can be created |
| `HpTracker.Tracker.AccountFor` | hijack/src/hp_intercept.c:567-617 | arms the slot, or leaves the accounting to a stream synchronisation |
| `HpTracker.Tracker.After` | hijack/src/hp_intercept.c:561-627 | takes exactly the leaving step: the launch is counted out; its slot is armed for its stream with the next generation, the record left to the watcher only in deferred mode and never on the default stream of a thread; the stream is synchronised, and then complete, exactly when no watcher runs, no slot can be had or the record fails |
| `HpTracker.Tracker.Check` | hijack/src/hp_intercept.c:346-354 | the wait on the condition as a step: stops on shutdown, goes on when a slot is active, sleeps otherwise |
| `HpTracker.Tracker.Collect` | hijack/src/hp_intercept.c:361-373 | re-checks the frontier under the lock and, if no launch was recorded or is in progress, snapshots every active slot once, as it is now, and no other |
| `HpTracker.Tracker.Harvest` | hijack/src/hp_intercept.c:436-454 | the slots still active are exactly those that were and have no wait that succeeded at their present generation; with none left and no launch in progress, IDLE is published |
| `HpTracker.Tracker.Scan` | hijack/src/hp_intercept.c:472-494 | clears exactly the active slots whose event answered that it is complete; with none left and no launch in progress, IDLE is published |
| `ActivityTracker.EwmaStaysInRange` | hijack/src/activity_tracker.c:74-85 | a moving average stays within the least and greatest of its samples |
| `ActivityTracker.EwmaGoesAnEighth` | hijack/src/activity_tracker.c:74-85 | a new sample moves the average an eighth of the way to it, rounded down, whichever side it is on; an unset average takes it whole |
| `ActivityTracker.EwmaStallsWithinSeven` | hijack/src/activity_tracker.c:74-85 | it stands still exactly when it is within 7 ns of the sample |
| `ActivityTracker.EwmaConverges` | hijack/src/activity_tracker.c:74-85 | under a constant sample all of the distance but 7 ns shrinks by an eighth a step, so after n steps to (7/8)^n of what it was, until it is within 7 ns |
| `ActivityTracker.BucketsFall` | hijack/src/activity_tracker.c:29-38 | the counts never increase along the table of thresholds |
| `ActivityTracker.SharedState.Register` | hijack/src/activity_tracker.c:196-229 | the same owner is counted again; a new one starts IDLE with an empty history |
| `ActivityTracker.SharedState.Unregister` | hijack/src/activity_tracker.c:231-254 | only the owner's last registration gives the state up |
| `ActivityTracker.SharedState.CountPeriod` | hijack/src/activity_tracker.c:264-274 | adds one idle period to the history; every bucket counts exactly the periods longer than its threshold, and the average moves an eighth of the way to it |
| `ActivityTracker.SharedState.MarkActive` | hijack/src/activity_tracker.c:256-280 | ends an idle period and averages its length in by an eighth; recorded periods add up to the time since registration |
| `ActivityTracker.SharedState.MarkIdle` | hijack/src/activity_tracker.c:282-297 | ends an active period and averages its length in by an eighth; recorded periods add up to the time since registration |
| `ActivityTracker.SharedState.TimingSnapshot` | hijack/src/activity_tracker.c:299-327 | between publications a snapshot describes exactly the recorded history |
| `ActivityTracker.SharedState.Owner` | hijack/src/activity_tracker.c:329-348 | a dead owner is taken out with its ACTIVE word, a live one is left alone |
| `ActivityTracker.SharedState.PollIdle` | hijack/src/activity_tracker.c:358-374 | a BE process goes on only on IDLE or a dead owner, and takes back only a dead owner's ACTIVE |
| `Survival.AddSaturating` | hijack/src/be_intercept.c:752-754 | the true sum, or the largest 64-bit value when the sum does not fit |
| `Survival.Denominator` | hijack/src/be_intercept.c:756-767 | the count of the last threshold reached, or all samples below the first |
| `Survival.Numerator` | hijack/src/be_intercept.c:769-778 | the count of the first threshold not below the target, or zero above the last |
| `Survival.CountsAreCautious` | hijack/src/be_intercept.c:756-778 | numerator <= periods longer than the target <= periods longer than elapsed <= denominator, with equality on the grid of thresholds; the last step from the first threshold on, and below it as long as the 32-bit sample count has not wrapped |
| `Survival.EstimateIsBacked` | hijack/src/be_intercept.c:780-797 | from the first threshold on an answer is always backed by the history; below it whenever the sample count holds |
| `Survival.CautiousIffSampleCountHolds` | hijack/src/activity_tracker.c:264-274 | no query at all is answered with more than the history backs, if and only if no bucket is a larger part of the 32-bit sample count than of the true number of periods |
| `Survival.ShortHistoryHolds` | hijack/src/activity_tracker.c:273 | the condition holds for every history of fewer than 2^32 idle periods |
| `Survival.WrappedCountBreaksCaution` | hijack/src/activity_tracker.c:273 | after 2^32 idle periods of 10 microseconds and one of 30 the answer for 20 more microseconds is 100 percent, where one period in 2^32 + 1 went on that long |
| `Survival.PercentIsLow` | hijack/src/be_intercept.c:792-796 | a lower numerator over a higher denominator, rounded down, is never above the true fraction |
| `Survival.FractionIffCountReachesFirstBucket` | hijack/src/be_intercept.c:756-778 | numerator never exceeds denominator, on any query, if and only if the 32-bit sample count has not fallen below the first bucket |
| `Survival.WrappedCountBreaksFraction` | hijack/src/activity_tracker.c:273 | after 2^32 idle periods of 30 microseconds the sample count reads zero and the fraction breaks |
| `Survival.ProbabilityPct` | hijack/src/be_intercept.c:780-797 | never above the true percentage of past periods that outlived elapsed + additional among those that outlived elapsed, from the first threshold on, and below it exactly under the condition above; exact on the grid |
| `Profiles.PresentIsAhead` | hijack/src/be_intercept.c:484-495 | probing for a key in the table meets no empty position before it |
| `Profiles.InsertRepresents` | hijack/src/be_intercept.c:496-500 | filling the first empty position on the probe path adds the key and hides no other |
| `Profiles.LearnStaysInRange` | hijack/src/be_intercept.c:534-542 | a learned duration stays within the range of what was measured |
| `Profiles.LearnGoesAQuarter` | hijack/src/be_intercept.c:534-542 | the first measurement is taken as it is; a later one moves the learned duration a quarter of the way to it, rounded down, whichever side it is on, and is counted |
| `Profiles.WithMargin` | hijack/src/be_intercept.c:518-520 | a quarter more than was learned, and the largest 64-bit value exactly when that does not fit |
| `Profiles.ProfileTable.Probe` | hijack/src/be_intercept.c:483-501 | the position of the key, or the first empty one, or a full table without it |
| `Profiles.ProfileTable.Lookup` | hijack/src/be_intercept.c:478-506 | a map lookup: a known key keeps its position, a new one is added when asked for; -1 for a non-null kernel on create means full and absent |
| `Profiles.ProfileTable.Predict` | hijack/src/be_intercept.c:508-521 | a quarter more than was learned under exactly this key, or the configured guess if it was never measured; the key has its position and no other key moves |
| `Profiles.ProfileTable.Update` | hijack/src/be_intercept.c:523-545 | a usable duration moves what was learned under the key a quarter of the way to it and is counted; nothing else changes |
| `BeAdmission.AssertionsHoldIffSumFits` | hijack/src/be_intercept.c:625-628 | draining passes all its assertions if and only if the true sum of outstanding blocks fits in 64 bits |
| `BeAdmission.ThreeLargestGridsFail` | hijack/src/be_intercept.c:625 | three launches of the largest grid the driver takes make the first assertion fail |
| `BeAdmission.TimeAdmitRetiresFewest` | hijack/src/be_intercept.c:969-980 | the time admission loop retires the fewest launches, oldest first: what it leaves has room in window and budget, or is empty, and no longer remainder had: the window was full, the sum over budget, or the launch unknown |
| `BeAdmission.GridAdmitRetiresFewest` | hijack/src/be_intercept.c:995-1005 | so does the loop of the fixed, blocks and gap policies, for blocks |
| `BeAdmission.AdmittedTimeKeepsBounds` | hijack/src/be_intercept.c:969-980 | what it leaves has room: with the new launch the predicted time is within budget or the launch is alone, and only the oldest may be unknown |
| `BeAdmission.AdmittedGridKeepsBounds` | hijack/src/be_intercept.c:995-1005 | the same for blocks |
| `BeAdmission.SharesFitIff` | hijack/src/be_intercept.c:338-348 | the shares of a group add up to no more than the total if and only if there is a unit for each process, and no larger share would do |
| `BeRing.PopHolds` | hijack/src/be_intercept.c:629-634 | after a retirement the active slots are again exactly the outstanding launches from the head |
| `BeRing.PushHolds` | hijack/src/be_intercept.c:1047-1057 | and after a launch is recorded |
| `BeRing.Ring.SumsAreExact` | hijack/src/be_intercept.c:1058-1059 | the counters are the true sums; nothing has wrapped |
| `BeRing.Ring.Pop` | hijack/src/be_intercept.c:588-634 | removes the oldest launch; the source's three assertions hold |
| `BeRing.Ring.Push` | hijack/src/be_intercept.c:1046-1059 | appends a launch |
| `BeController.PredictionsFit` | hijack/src/be_intercept.c:1059 | under every policy the 64-bit sum of predictions cannot wrap |
| `BeController.QuotaOnSampledPop` | hijack/src/be_intercept.c:608-623 | retiring a measured launch gives its pending sample back; pending counts still equal the samples in flight and samples + pending never exceed 3 |
| `BeController.QuotaOnPush` | hijack/src/be_intercept.c:1046-1057 | a prepared sample that joins the ring stays counted once |
| `BeController.EffectiveTimeBudget` | hijack/src/be_intercept.c:696-738 | the configured budget, or the largest within the configured share of what is left of the expected gap, at least 1 |
| `BeController.EffectiveBlockBudget` | hijack/src/be_intercept.c:655-694 | the configured budget, or the part of it that goes with what is left of the gap, at least 1 |
| `BeController.BackedByLess` | hijack/src/be_intercept.c:817-820 | an answer for a saturated sum of work also holds for the true sum |
| `BeController.Support` | hijack/src/be_intercept.c:817-828 | enough confidence means the recorded history backs it for all the work ahead, whenever the estimate can be trusted |
| `BeController.SurvivalDecision` | hijack/src/be_intercept.c:825-873 | admits exactly on a period beyond every bucket, on a long enough one while the histogram says too little, or on a histogram that says enough; window and budget follow the promotion rule; every admission and every promotion the histogram decides is backed by the history |
| `BeController.RulesSpelledOut` | hijack/src/be_intercept.c:825-873 | on the clock: 20 ms after the last publication of IDLE always in and promoted; before that, with few samples, in exactly after the cold-start time and not promoted; with enough, in and promoted exactly as the histogram answers |
| `BeController.Controller.Retire` | hijack/src/be_intercept.c:582-635 | first in, first out; exactly the profile of a measured launch changes: it gets its pending sample back and, if both driver calls worked, moves a quarter of the way to the reported duration; it is the profile of the kernel and grid that were launched |
| `BeController.MeasuredKernelIsKnown` | hijack/src/be_intercept.c:608-623 | after a measured launch is retired, the prediction for its kernel and grid is a duration a quarter of the way from the old one to the measurement, with its margin |
| `BeController.Controller.Drain` | hijack/src/be_intercept.c:637-641 | empties the ring |
| `BeController.Controller.Predict` | hijack/src/be_intercept.c:508-521 | sets the prediction and the profile of the current launch, which is the one of its key; no other key moves and all counts are kept |
| `BeController.Controller.AdmitByTime` | hijack/src/be_intercept.c:969-980 | the loop ends with exactly the launches the admission rule leaves |
| `BeController.Controller.AdmitByGrid` | hijack/src/be_intercept.c:995-1005 | the loop ends with exactly the launches the admission rule leaves |
| `BeController.Controller.SampleIfWanted` | hijack/src/be_intercept.c:981-988 | unless a call fails, a launch goes unmeasured only when its profile has all its samples, taken or on their way |
| `BeController.Controller.Before` | hijack/src/be_intercept.c:876-1012 | drains without an owner; otherwise admits by the rule of the policy with the known prediction, keeping budget, ring and quota; the launch gets the profile of its own key and no other key moves |
| `BeController.Controller.EnterEpisode` | hijack/src/be_intercept.c:808-816 | a new idle episode counts its launches anew and pays for the context switch on its first launch |
| `BeController.Controller.SurvivalAdmission` | hijack/src/be_intercept.c:799-874 | rejects while HP work is active; admits and promotes once the HP process has been idle for 20 ms; otherwise follows the rules on the current state, and every admission and promotion the histogram decides is backed by the history for all the work ahead, over the idle time by the clock |
| `BeController.Controller.SurvivalTurn` | hijack/src/be_intercept.c:914-949 | admits exactly when the verdict does and the window and budget it gives have room, or nothing is in flight; with the same backing; otherwise retires the oldest launch, or sleeps when there is none |
| `BeController.Controller.SurvivalLoop` | hijack/src/be_intercept.c:914-949 | if it admits, one of the observations let the launch in by the rules and with their backing; it retires a launch on every look that does not admit, only from the front; once empty, a period beyond every bucket admits; an unknown kernel is admitted alone |
| `BeController.Controller.BeforeBySurvival` | hijack/src/be_intercept.c:903-960 | admission under the survival policy with the known prediction and the profile of its own key |
| `BeController.Controller.DropSample` | hijack/src/be_intercept.c:1073-1079 | exactly the prepared sample is given back |
| `BeController.Controller.Record` | hijack/src/be_intercept.c:1046-1059 | the launch joins the queue with its blocks, prediction and sample |
| `BeController.Controller.Track` | hijack/src/be_intercept.c:1017-1089 | joins the queue exactly when an event is recorded, and gives a prepared sample back otherwise |
| `BeController.Controller.After` | hijack/src/be_intercept.c:1014-1104 | a launch joins the queue only if it succeeded and was admitted, and always then unless an event call fails; on every failure path the quota is given back |
| `LiltSystem.AdmissionIsSteps` | hijack/src/be_intercept.c:969-1008 | retiring some of the oldest launches and then admitting one that fits is a sequence of steps of the system |
| `LiltSystem.TimeAdmissionIsSteps` | hijack/src/be_intercept.c:961-980 | the time admission loop, with whatever budget is in effect, is such a sequence |
| `LiltSystem.GridAdmissionIsSteps` | hijack/src/be_intercept.c:989-1005 | so is the loop of the fixed, blocks and gap policies |
| `LiltSystem.SurvivalTurnIsSteps` | hijack/src/be_intercept.c:914-949 | so is every turn of the survival loop: admitted with room, one retired and a new wait, or a sleep and a new wait |
| `LiltSystem.SurvivalTurnAsSteps` | hijack/src/be_intercept.c:914-949 | the survival turn of the controller class itself takes such steps |
| `LiltSystem.BeforeAsSteps` | hijack/src/be_intercept.c:898-1008 | so does its admission under the other policies |
| `LiltSystem.AfterAsStep` | hijack/src/be_intercept.c:1014-1104 | and its end of a launch is one step, however the launch and its event turned out |
| `LiltSystem.SystemKeeps` | hijack/src/activity_tracker.c:350-379 | every step of the HP process, the device and any BE process keeps the system invariant |
| `LiltSystem.SystemRunsKeepInv` | hijack/src/be_intercept.c:876-1104 | it holds in every state of every run of the whole system |
| `LiltSystem.PublicationBeginsAnew` | hijack/src/hp_intercept.c:549-559 | what counts as there at the publication is exactly what is in flight when ACTIVE is published |
| `LiltSystem.InterferenceIsBounded` | hijack/src/be_intercept.c:876-1104 | while any HP launch is unfinished ACTIVE is published; each BE process has started at most one tracked launch since, so all it has in flight but one was there at the publication; and that is within its window and the budget of its policy, or is a single kernel |
| `LiltSystem.TotalsWithinShares` | hijack/src/be_intercept.c:425-445 | summed over processes with equal shares, launches and predicted time are within the shares, plus the excess of processes holding one oversized kernel |
| `LiltSystem.GroupIsBounded` | hijack/src/be_intercept.c:425-445 | with a unit for each configured process and no more processes than configured, the group stays within the configured window, and within the time budget plus that excess |

## Left out

- Graph updates and launches of one executable from several threads at once: between a successful driver update and the invalidation that follows it, another thread can still launch the old pieces; `Scheduler` takes the pair as one call.
- The BE admission calls made around each graphlet and around a whole graph launch (`lilt_before_kernel_launch_ex`, `lilt_after_kernel_launch`): `LaunchPieces` and `BeController` are proved separately.
- GraphScheduler.Scheduler.UpdateExec: one method stands for all intercepted updates (kernel, memcpy, memset, node-enable and whole-graph); they differ only in the driver call and the recorded reason.
- GraphScheduler.Scheduler.DestroyExec: destroying a graph (`cuGraphDestroy`) by the application is not modelled; executables do not depend on it.
- Handles of cloned nodes: the clone of a node is identified with the node, so `cuGraphNodeFindInClone` is only a call that may fail.
- 32-bit node indices, layer numbers and in-degree counters of the layering, and the 32-bit count of launches in progress: they are unbounded here.
- CudaGraphs.Driver.DestroyExec: destroy calls always succeed; a driver library that lacks them leaks the graphlets.
- The watcher's sleeping, its quiet interval, and the spurious wakeups of a futex or condition: a wait is a step that is enabled or an observation.
- HpTracker.Tracker.Scan: the answers of the event queries are an argument; an answer "complete" is given only of complete work.
- HpTracker.Tracker.Harvest: the calls the watcher makes between snapshot and harvest happen without the lock and are steps of `HpProtocol`, not of the class.
- BeController.Controller.Before: the wait for the HP process to register and the wait for IDLE are left to `ActivityTracker.SharedState.PollIdle` and to the steps of `System`.
- BeController.Controller.SurvivalLoop: the loop takes a list of observations; that it ends is proved only for the retirements and for a very long idle period.
- BeController.Controller.BeforeBySurvival: which observation let the launch in, and its backing, is stated by `SurvivalLoop`, whose answer it returns; it is not repeated there.
- BeController.EffectiveTimeBudget: exact fractions rounded down instead of double arithmetic.
- BeController.EffectiveBlockBudget: exact fractions rounded down instead of double arithmetic.
- Survival.ProbabilityPct: exact fractions rounded down instead of double arithmetic.
- Profiles.Hash: modelled bit for bit, but the table is proved for any choice of home position.
- ActivityTracker.SharedState.MarkActive: the shared mapping is always there, and its fields are written in one step.
- The order of the single stores inside a publication and weak-memory effects.
- Fairness: that the watcher is scheduled, that its calls keep working and that the device finishes. `HpProgress.IdleIsReachable` shows that IDLE can then always be reached, not that it is reached in time.
- Thin forwarding wrappers, symbol lookup, memory reporting, configuration parsing, logging and statistics counters: they would add only easy members.
- The older rate controller (`rate_estimator` and the threads around it): socket loops with no firm bound to prove.
- The launcher script and the process start and exit hooks.
