# Verification of grog's build core

Grog turns a map of build nodes into an ordered, parallel, cached run. This project models the
parts of it whose correctness is not visible from one function body and proves them with Dafny:

- **Graph** (`Digraphs`, `TargetGraphs`, `CycleSearches`, `CriticalPaths`): the mutable graph with
  mirrored edge lists, cycle search, Kahn order with longest paths.
- **Analysis and selection** (`OutputConflicts`, `Analysis`, `Selections`): memoised ancestor sets,
  overlapping outputs, the graph that `BuildGraph` returns, the nodes a build selects.
- **Walk** (`Walkers`, `Pipelines`): the concurrent walk as a step relation; graph checking and
  selection give it what it needs never to get stuck.
- **Executor** (`Executors`, `Reruns`, `BuildWalks`): hashing, cache hits, taints, lazy loading and
  re-running, against every interference of other tasks that keeps what each task guarantees; the
  re-runs of all tasks as a step relation; the callbacks on the walker.
- **Stores** (`DirectoryOutputs`, `CacheWriters`, `OciProxies`): the Merkle directory store, the
  publication of results, the upload sessions of the loopback OCI registry.
- **Locks and pools** (`ResourceManagers`, `MutexMaps`, `WorkerPools`): resource starts and
  teardown, the keyed mutex, the worker pool behind concurrency groups.
- **Encodings** (`ResourceIdentity`, `Labels`, `Patterns`): length-framed identity, labels, patterns.

Sequential code is modelled by methods, with classes where the original updates an object in place.
Concurrent code is modelled in two ways. The walker, the shared re-runs, the cache writer, the
resource manager, the keyed mutex, the worker pool and the OCI registry are state machines: `Enabled` and `Apply` give one
indivisible action of one goroutine, a run is any interleaving, and theorems hold at every position
of every run. The executor's tasks are methods over the shared fields; between two of their atomic
steps they call `Yield`, whose contract is all a task may rely on; `GuaranteeIsRely` shows that every
atomic step of any other task keeps it, and `YieldAgain` that any number of them does. `BuildWalks`
puts the two together: a run of the walker next to the states that the callbacks share, where each
callback keeps what `WalkCallback` ensures for as long as all callbacks were started as it requires.

Hash functions are parameters, free of collisions on the values used. Commands are a function of the
change hash, or fail. Store and network operations may fail at any step; where an operation reports
failure it may nevertheless have taken effect (`lands`).

Where the code and its comments disagree the model follows the code:

- The comment on `getAncestorSet` says that the set includes the node itself; it does not, and the
  model proves strict ancestors.
- `AddEdge` names the source node when the target node is unknown; so does `UnknownNode` here.
- `Commit` may run on a staged writer that `Close` has cancelled, because `finishBlobUpload` keeps
  its own reference to the writer; the model has that interleaving.

Properties that do not hold for every input come with the exact condition, on what a caller has in
hand before the call, and with an input that fails:

- A label reparses to itself exactly when it is `Printable` (`LabelRoundTrip`), not so in
  `ColonLost`; a parsed one exactly under a condition on its text (`ParsedLabelPrintable`), not so in
  `InheritedColonLost`; the shorthand stands for the label exactly under the conditions of
  `ShorthandRoundTrip`, not so in `ShorthandLost`.
- A pattern reparses to itself exactly when it is `Printable` (`PatternRoundTrip`), not so in
  `BareTargetLost`; a parsed one exactly when its text is `KeptByPrinting`
  (`ParsedPatternPrintable`), not so in `DoubleSlashLost`.
- A printable label read as a pattern selects itself alone exactly when it is `PatternLike`
  (`LabelAsPattern`), not so in `AllSelectsMore`.

## Model

| member | source | states |
|---|---|---|
| Digraphs.CycleIffNotAcyclic | internal/dag/graph.go:175-183 | a closed path along edges exists if and only if some node is its own strict ancestor |
| CycleSearches.CycleSearch.DepthFirstSearch | internal/dag/graph.go:195-227 | exploring an unvisited node either stops with a closed path along edges or finishes it with the stack restored and every dependant finished before it |
| CycleSearches.CycleSearch.VisitNeighbor | internal/dag/graph.go:199-222 | a neighbour on the stack closes a cycle, any other is finished afterwards |
| CycleSearches.CycleSearch.CloseCycle | internal/dag/graph.go:207-219 | the neighbour is found on the stack, so the fallback for a missing index is dead, and the slice from it is a cycle |
| CycleSearches.FindCycle | internal/dag/graph.go:188-238 | reports a cycle if and only if the graph is not acyclic; the list is a closed path along edges |
| CriticalPaths.KahnOrder | internal/dag/graph.go:253-281 | the order is duplicate-free with dependencies first, and contains every node if and only if the graph is acyclic, parallel edges counted |
| CriticalPaths.LongestPaths | internal/dag/graph.go:296-329 | each record is a real path to its node with its sums, and no record is beaten by an extension of another |
| CriticalPaths.PathBounded | internal/dag/graph.go:296-340 | no competing path to a node has a larger total than the node's record |
| CriticalPaths.FindCriticalPath | internal/dag/graph.go:248-351 | succeeds if and only if the graph is non-empty and acyclic; then the list is a real path with its sums and no path from a source, or, without negative durations, no path at all, has a larger total |
| TargetGraphs.WithEdgeValid | internal/dag/graph.go:106-119 | appending to both lists keeps in and out edges mirrored with multiplicities and adds exactly one edge |
| TargetGraphs.DirectedTargetGraph.AddNode | internal/dag/graph.go:99-103 | adding is idempotent and keeps edges and existing nodes |
| TargetGraphs.DirectedTargetGraph.AddEdge | internal/dag/graph.go:106-119 | which of the three errors is returned when, and that exactly one mirrored edge is added otherwise |
| TargetGraphs.DirectedTargetGraph.GetDescendants | internal/dag/graph.go:141-151 | the list has exactly the strict descendants |
| TargetGraphs.DirectedTargetGraph.GetAncestors | internal/dag/graph.go:155-165 | the list has exactly the strict ancestors |
| TargetGraphs.DescendantsByFirstEdge | internal/dag/graph.go:141-151 | a strict descendant is a direct dependant or a strict descendant of one |
| TargetGraphs.AncestorsByLastEdge | internal/dag/graph.go:155-165 | a strict ancestor is a direct dependency or a strict ancestor of one |
| TargetGraphs.DirectedTargetGraph.GetSelectedSubgraph | internal/dag/graph.go:74-96 | the subgraph has the selected nodes and, with multiplicities, exactly the edges between distinct selected nodes |
| TargetGraphs.SubgraphAcyclic | internal/dag/graph.go:74-96 | such a subgraph of an acyclic graph is acyclic |
| OutputConflicts.AncestorCache.GetAncestorSet | internal/analysis/output_conflicts.go:162-194 | with any cache left by earlier queries the set is that of the strict ancestors, and the cache stays correct |
| OutputConflicts.AncestorCache.TargetsAreOrdered | internal/analysis/output_conflicts.go:144-160 | true if and only if one node is a strict ancestor of the other |
| OutputConflicts.PathWithinBySegments | internal/analysis/output_conflicts.go:130-137 | a path lies within a directory if and only if its segments extend the directory's |
| OutputConflicts.OverlapsShare | internal/analysis/output_conflicts.go:27-142 | two outputs overlap if and only if they have a place in common, where an image has its tag, a file its path and a directory all paths whose segments extend its own |
| OutputConflicts.DetectOutputConflicts | internal/analysis/output_conflicts.go:27-124 | every reported pair is a conflict, that is two overlapping outputs of targets neither of which is a strict ancestor of the other (two outputs of one target included), and nothing is reported if and only if there is no conflict |
| Analysis.CyclesAreDeclared | internal/analysis/analyze.go:14-35 | cycles of the graph are cycles of the declared dependency lists and conversely |
| Analysis.BuildGraph | internal/analysis/analyze.go:11-42 | a graph comes back only if its lists are the declared ones, it is acyclic and free of conflicts; each error names a declared dependency, cycle or conflict that is really there |
| Selections.BlockedAbove | internal/selection/build_selection.go:55-78 | an ancestor on the wrong platform, or above a blocked one, blocks the node |
| Selections.RequestedUnion | internal/selection/selector.go:52-83 | several patterns request, and skip for their platform, what each of them does |
| Selections.RequestedOne | internal/selection/selector.go:52-83 | one pattern requests the matching ones of the labels that are requested without a pattern |
| Selections.SelectTargetsForBuild | internal/selection/build_selection.go:23-51 | for any visiting order: fails if and only if a requested node has an off-platform ancestor; otherwise the requested nodes and all their ancestors are selected and both counts are exact |
| Selections.SelectionFitsWalker | internal/selection/build_selection.go:23-78 | the selection is closed under dependencies and on-platform, which is what the walker requires |
| Walkers.WalkSafety | internal/dag/graph_walker.go:97-275 | in every interleaving a callback runs at most once and only after the callback of every transitive dependency has returned without an error and that is recorded |
| Walkers.ReturnDecides | internal/dag/graph_walker.go:194-275 | what a callback returns decides its completion for good: an error is recorded as a failure, a success as a success with its cache result, a cancellation leaves no completion; when the walk has ended every returned result is recorded |
| Walkers.FailFastStopsStarts | internal/dag/graph_walker.go:194-239 | under fail-fast no node with dependencies becomes ready once a failure is recorded |
| Walkers.SilentStop | internal/dag/graph_walker.go:148-164 | Walk hides a cancellation only after a recorded failure under fail-fast |
| Walkers.StopReports | internal/dag/graph_walker.go:148-164 | Walk reports the cancellation that stops it unless a failure was recorded under fail-fast by then |
| Walkers.CancelledForCause | internal/dag/graph_walker.go:194-247 | the walk is cancelled only from outside or for a recorded failure under fail-fast |
| Walkers.WalkProgress | internal/dag/graph_walker.go:97-275 | on an acyclic graph with a dependency-closed selection some goroutine can act until everything has ended, without an interrupt |
| Walkers.WalkTerminates | internal/dag/graph_walker.go:97-275 | every step decreases a lexicographic measure |
| Walkers.WalkOutcome | internal/dag/graph_walker.go:194-275 | after an uncancelled walk exactly the selected nodes without a failed strict ancestor have a completion, and failed are exactly those whose callback returned an error |
| Walkers.AllSucceed | internal/dag/graph_walker.go:194-275 | an uncancelled walk without failures completes every selected node |
| Pipelines.PrepareWalk | internal/cmd/cmds/build.go:129-144 | after graph checking and selection succeeded, every walk over the result never gets stuck and, without failures, completes all selected nodes, among them every requested one |
| Pipelines.WalksWell | internal/dag/graph_walker.go:97-165 | acyclicity and a dependency-closed selection suffice for both |
| Executors.ColdUnique | internal/hashing/target_hasher.go:43-65 | the equations of a build from scratch determine both hashes of every target |
| Executors.ColdExists | internal/hashing/target_hasher.go:43-65 | they have a solution on every acyclic graph |
| Executors.EntryMatchesCold | internal/output/registry.go:374-376 | the output hash of an honest entry of a target's change hash is that of a build from scratch |
| Executors.EntryFitsTarget | internal/output/registry.go:398-437 | the outputs of an honest entry, in any order, are the declared ones, so the validation never rejects it |
| Executors.Improve | internal/execution/execute.go:628-629 | replacing one target's state by one that knows more keeps the invariant of all targets |
| Executors.Executor.GuaranteeIsRely | internal/execution/execute.go:692-711 | a step of a task that leads other flights and runs other callbacks keeps what this task relies on |
| Executors.Executor.YieldAgain | internal/execution/execute.go:692-711 | what a task relies on composes over any number of steps of other tasks |
| Executors.NoWaitCycle | internal/execution/execute.go:692-711 | tasks that wait only for flights of strict ancestors of what they lead never wait in a circle |
| Executors.Executor.DependencyHashes | internal/hashing/target_hasher.go:43-59 | collects the dependencies' output hashes of a build from scratch, or finds one missing, which cannot happen once they have completed |
| Executors.Executor.SetTargetChangeHash | internal/hashing/target_hasher.go:34-67 | the change hash becomes that of a build from scratch and is never changed again |
| Executors.Executor.LoadOutputs | internal/output/registry.go:316-378 | success means that the outputs are loaded, with the hash of a build from scratch; an honest entry whose outputs are intact never fails; a load counts for the callback that asks for it |
| Executors.Executor.OnTargetComplete | internal/execution/execute.go:575-638 | outputs collected in any order give the output hash of a build from scratch and an honest entry; targets without outputs pass their change hash on |
| Executors.Executor.PersistPreparedTarget | internal/execution/cache_writer.go:61-99 | only honest entries are published; with synchronous writes success means published (the write plans and their cleanup on these lines are in CacheWriters) |
| Executors.Executor.ExecuteTarget | internal/execution/execute.go:502-568 | may only be called when every direct dependency that is a target is loaded and hashed; success leaves the target executed, loaded and, with synchronous writes or nothing to upload, published; outside a re-run the start of the command is counted once |
| Executors.Executor.LoadDependencyOutputs | internal/execution/execute.go:643-718 | terminates on acyclic graphs, starts no command for a callback, and success means that every direct dependency is loaded and hashed |
| Executors.Executor.LoadDependency | internal/execution/execute.go:653-714 | one dependency ends loaded, from the cache or by a re-run; with an intact entry it always does |
| Executors.Executor.Rerun | internal/execution/execute.go:692-714 | success of the shared flight, led or followed, means that the dependency is loaded |
| Executors.Executor.EndFlight | internal/execution/execute.go:692-711 | the leader reports success only with the outputs loaded, and counts at most one successful re-execution |
| Executors.CountRerun | internal/execution/execute.go:692-711 | counting a re-execution that left the outputs loaded keeps every counter at most one |
| Executors.Executor.TryCache | internal/execution/execute.go:374-435 | an entry is used only for an untainted target; an untainted target with an intact entry uses it, a readable taint forces execution |
| Executors.Executor.TaskFunc | internal/execution/execute.go:356-455 | from completed dependencies, hit, miss, taint or failed load end in a completed target, or in a failure that, apart from unreliable infrastructure, only its own command causes; a taint ends in an execution, an intact entry in a hit; a hit starts no command and in minimal mode loads nothing, a success that is no hit starts the command exactly once |
| Executors.Executor.WalkCallback | internal/execution/execute.go:137-168 | the same for the callback that the walker runs, counted over everything between its start and its return |
| Executors.Build | internal/execution/execute.go:81-193 | for every cache of honest entries, set of taints, pattern of failing loads, mode and interference: completed targets have the hashes of a build from scratch and are closed under dependencies, the cache stays honest, each dependency is re-run at most once; no command is started twice by callbacks, and the hits are exactly the completed targets whose command none has started; hits load nothing in minimal mode, and no callback loads twice otherwise; reliable infrastructure completes exactly the targets that a build from scratch completes, tainted ones after execution, untainted ones with intact entries as hits |
| Executors.IncrementalBuild | internal/execution/execute.go:81-193 | after any edit an incremental build and a build from an empty cache agree on all hashes and, on reliable infrastructure, on which targets complete |
| Executors.BuildAgain | internal/execution/execute.go:81-193 | after a build with synchronous writes, building again with intact caches and reliable infrastructure hits on everything that both complete and starts no command for it; over all targets that the first build completed, dependencies first, and unless it is cut short while waiting, it completes all of them |
| Reruns.WaitsGoUp | internal/execution/execute.go:692-711 | a task waits only for an open flight, of a strict ancestor of every flight that it leads |
| Reruns.StepKeeps | internal/execution/execute.go:643-718 | every step of every task keeps the calls nested along dependencies, one leader for each flight, an open flight for each wait, and a cause for each failure |
| Reruns.FollowersAnswered | internal/execution/execute.go:643-718 | in every interleaving, when no task can move any more all have returned, so every follower has its report; success means that all dependencies are loaded, failure that the command of a strict ancestor may fail, and each command is re-run successfully at most once |
| Reruns.FailuresHappened | internal/execution/execute.go:692-714 | a task fails only after the command of a strict ancestor of its target has failed in this very run |
| Reruns.LoadedByStep | internal/execution/execute.go:653-714 | loaded is exactly what was loaded at the start, what came from the cache and what a command that succeeded has made; counted as re-run is exactly what succeeded |
| Reruns.RerunsEnd | internal/execution/execute.go:643-718 | no interleaving takes more steps than a number fixed at its start |
| BuildWalks.BuildMatchesCold | internal/execution/execute.go:137-170 | at every position of every run of the walker with callbacks that keep their contract: started callbacks find their dependencies completed, a recorded success has the hashes of a build from scratch (and is published and, if it was tainted, executed) and is a hit if and only if its command was not started, an intact untainted entry is a hit, no callback starts its command twice, a recorded failure on reliable infrastructure is that of the target's own command, entries stay honest |
| BuildWalks.BuildOutcome | internal/execution/execute.go:137-170 | an uncancelled walk on reliable infrastructure completes a selected target if and only if its own command and those of all targets that it transitively depends on succeed from scratch |
| BuildWalks.ThroughIsSucceeds | internal/execution/execute.go:137-170 | in a graph of targets only these are the targets that a build from scratch completes |
| BuildWalks.RerunsSucceed | internal/execution/execute.go:643-718 | on reliable infrastructure the tasks of started callbacks that load dependencies never fail, whichever loads do, and have all succeeded when none can move |
| DirectoryOutputs.DirectoryBuilder.WriteDirectoryRecursive | internal/output/handlers/dir_output_handler.go:265-366 | builds the directory's message, one child message per hash below it, and the uploads of exactly its files |
| DirectoryOutputs.DirectoryBuilder.SortedChildren | internal/output/handlers/dir_output_handler.go:121-134 | one message under each hash, in ascending order |
| DirectoryOutputs.Write | internal/output/handlers/dir_output_handler.go:137-211 | the plan holds the tree of the directory, its hash and every file |
| DirectoryOutputs.DirectoryInjective | internal/output/handlers/dir_output_handler.go:265-366 | equal messages come from equal directories: names, contents, executable bits, link targets, all the way down |
| DirectoryOutputs.TreeUnique | internal/output/handlers/dir_output_handler.go:121-134 | the tree does not depend on listing or insertion order |
| DirectoryOutputs.TreeHashIdentifiesDirectory | internal/output/handlers/dir_output_handler.go:448-461 | tree hashes are equal if and only if the directories are, so keeping a local directory with the same hash is right |
| DirectoryOutputs.SomeDepthFits | internal/output/handlers/dir_output_handler.go:524-580 | every directory fits some depth bound of the load |
| DirectoryOutputs.LoadDirectoryRecursive | internal/output/handlers/dir_output_handler.go:524-580 | rebuilds exactly the directory whose message it gets when files and children are present; whatever the store holds, success means that everything the message lists is there, with the stored contents, all the way down; an error blames a hash that is really missing |
| DirectoryOutputs.Load | internal/output/handlers/dir_output_handler.go:436-521 | restores exactly the directory that was written, whatever was at the path before; whatever the store holds, success means a kept local directory with that tree hash or one with exactly what the stored tree lists |
| CacheWriters.InvStep | internal/execution/cache_writer.go:110-134 | every step of every commit keeps the store, upload, cleanup and pending-count invariants |
| CacheWriters.NoDanglingResults | internal/execution/cache_writer.go:110-134 | in every interleaving everything a published result needs is in the store, and the positive-existence cache names nothing absent |
| CacheWriters.ResultsOfJobs | internal/execution/cache_writer.go:110-134 | every result in the store is the complete result that some commit was given for that change hash, or was there before and is unchanged; none is lost |
| CacheWriters.PublishedDirectoryStored | internal/output/handlers/dir_output_handler.go:47-68 | a published directory can be loaded back exactly |
| CacheWriters.StoreStep | internal/caching/cas.go:34-46 | writes and existence checks keep blobs under their own hash and the existence cache sound |
| CacheWriters.CleanedExactlyOnce | internal/execution/cache_writer.go:136-142 | on every path a commit that has ended has cleaned up each plan exactly once and is no longer pending |
| CacheWriters.SuccessPublishes | internal/execution/cache_writer.go:110-134 | a commit that reports success has published: under its change hash is the complete result of a commit with that hash, its own when no other has it |
| CacheWriters.FailsByStep | internal/execution/cache_writer.go:80-134 | a commit fails if and only if one of its writes, its publication or its submission has failed |
| CacheWriters.PendingCovers | internal/execution/cache_writer.go:71-108 | pending are exactly the asynchronous commits with write plans from submission to end; only one that is cleaning up after a failure may already be out |
| CacheWriters.CommitProgress | internal/execution/cache_writer.go:61-134 | a commit that has not ended can always take a step of its own |
| CacheWriters.StepsDrop | internal/execution/cache_writer.go:61-142 | every step of a commit, whatever fails, lowers a number that only its own steps change |
| CacheWriters.CommitsEnd | internal/execution/cache_writer.go:61-142 | the commits together take no more steps than that number allows at the start, and when none can take another step all have ended |
| ResourceManagers.StartsOnce | internal/execution/resource_manager.go:98-185 | each up command runs at most once and only for a registered resource; each resource registers once, after all its resource dependencies, whose results are nil |
| ResourceManagers.NilResults | internal/execution/resource_manager.go:70-93 | a resource's nil result means nil results for its dependencies and that its up command ran; a task's result is nil if and only if all resources it needs have nil results |
| ResourceManagers.UpDecides | internal/execution/resource_manager.go:115-260 | what the up command returns is the result of the start; once it has failed or could not be prepared the resource never has a nil result and no task that needs it goes on |
| ResourceManagers.NilReturned | internal/execution/resource_manager.go:208-260 | a nil result comes from an up command that returned without an error |
| ResourceManagers.FaultTaken | internal/execution/resource_manager.go:208-260 | what FailuresHaveCauses calls a fault is an up command that failed or could not be prepared in this run |
| ResourceManagers.NilIsFaultless | internal/execution/resource_manager.go:208-260 | a resource with a nil result has no fault |
| ResourceManagers.FailuresHaveCauses | internal/execution/resource_manager.go:98-185 | no start fails without its own command failing, a teardown, or a failed dependency |
| ResourceManagers.NothingStartsAfterSnapshot | internal/execution/resource_manager.go:130-146 | a recorded result is never replaced; after teardown's snapshot nothing registers and no up command runs |
| ResourceManagers.TeardownStopsStarts | internal/execution/resource_manager.go:130-138 | once a teardown has begun no further start begins |
| ResourceManagers.ReverseTeardown | internal/execution/resource_manager.go:285-315 | registered resources are handed to teardown in reverse order, each once, and none is left out |
| ResourceManagers.WaitsGoUp | internal/execution/resource_manager.go:108-127 | a start waits only for the flight of a strict ancestor |
| ResourceManagers.StartProgress | internal/execution/resource_manager.go:70-185 | on an acyclic graph some call, start or teardown can move until all is quiet |
| ResourceManagers.StepsDrop | internal/execution/resource_manager.go:70-315 | every step lowers a number that only the beginning of a teardown raises, by two |
| ResourceManagers.StartsEnd | internal/execution/resource_manager.go:70-315 | a run takes no more steps than that number allows at the start, and three more for each teardown that begins; a run over an acyclic graph that cannot go on has left no call, start or teardown unfinished |
| ResourceManagers.StepKeeps | internal/execution/resource_manager.go:98-315 | every step keeps the phases, loops, order, teardown and outcome invariants and forgets no result |
| ResourceManagers.ResolveResourceDependency | internal/execution/resource_manager.go:187-206 | finds a resource if and only if a chain of aliases leads to it, also with alias cycles and dangling aliases |
| MutexMaps.MutualExclusion | internal/maps/mutex_map.go:23-60 | in every interleaving at most one thread is between locking and unlocking a name |
| MutexMaps.SharedAndCounted | internal/maps/mutex_map.go:62-81 | the counter is the number of threads between inc and dec, all users of a name share the mutex in the map, none is deleted while used, Unlock always finds it |
| MutexMaps.OnlyUser | internal/maps/mutex_map.go:53-55 | with a zero counter the unlocking thread is the only user of the name |
| MutexMaps.EmptyWhenQuiet | internal/maps/mutex_map.go:45-60 | the map is empty when all threads are idle |
| MutexMaps.SomeThreadMoves | internal/maps/mutex_map.go:23-60 | unless all threads are idle one that is inside can move |
| MutexMaps.StepKeeps | internal/maps/mutex_map.go:23-60 | every step keeps the thread, mutex and name invariants |
| WorkerPools.JobsConserved | internal/worker/task_worker_pool.go:235-290 | racing Shutdown, a job runs at most once, a submission succeeds if and only if its job was queued or started, a failed one never runs, recovering never panics again, and the active counter is exact |
| WorkerPools.RejectedForCause | internal/worker/task_worker_pool.go:235-290 | a submission fails if and only if its Acquire gave up or it found the pool closed, at its check, after its time-out, or when sending panicked |
| WorkerPools.StartedInOrder | internal/worker/task_worker_pool.go:119-150 | jobs are started in the order in which they were accepted |
| WorkerPools.LimitsKept | internal/execution/scheduler.go:37-67 | at most maxWorkers tasks run, of one group at most its configured limit, or one, and the permits in use are those between Acquire and Release |
| WorkerPools.PermitFree | internal/execution/scheduler.go:37-67 | while fewer than that are in use Acquire goes through |
| WorkerPools.WorkerMoves | internal/worker/task_worker_pool.go:119-150 | in a pool that keeps the invariants, while an accepted job is unfinished some worker can move, also after Shutdown |
| WorkerPools.AcceptedJobsFinish | internal/worker/task_worker_pool.go:119-333 | the number of steps of a run is bounded; and when nothing can move any more but an Acquire that gives up or a Shutdown, every submission has returned and every accepted job has been run to its end |
| WorkerPools.StepKeeps | internal/worker/task_worker_pool.go:119-333 | every step keeps the job, worker, permit and counter invariants |
| OciProxies.StoredUnderDigest | internal/ociproxy/registry.go:347-473 | in every interleaving everything stored sits under the digest of exactly its bytes, the running digest and byte count match the persisted bytes, and a session starts at most one commit |
| OciProxies.CommitsAreUploads | internal/ociproxy/registry.go:369-473 | a commit is the in-order concatenation of what was copied from the session's bodies: all of every PATCH that was answered with success and of the final PUT, prefixes of the others; at most one commit per session |
| OciProxies.AnswersKept | internal/ociproxy/registry.go:308-544 | what a success answer promises holds for good: staged bytes of a PATCH, stored blob or manifest, last manifest digest |
| OciProxies.RefusedForCause | internal/ociproxy/registry.go:308-544 | a request fails if and only if some step decided against it: unknown or finished session, malformed or wrong digest, broken body, cancelled writer or failing store; so a PUT with the digest of the staged bytes is committed unless its writer was cancelled or the store failed |
| OciProxies.PutsCommitted | internal/ociproxy/registry.go:410-473 | a PUT that was answered with success has committed its session |
| OciProxies.LatestManifest | internal/ociproxy/registry.go:521-554 | a name stands for the digest of the manifest that was recorded under it last |
| OciProxies.CancelledForGood | internal/ociproxy/registry.go:598-639 | a session that Close or a broken body has cancelled takes no more bytes and is never committed afterwards |
| OciProxies.ResolveKeeps | internal/ociproxy/registry.go:453-468 | commit or cancel at the end of a PUT keeps all of this, also on a writer that was cancelled meanwhile |
| OciProxies.WrittenOk | internal/ociproxy/registry.go:615-625 | a chunk extends staged bytes, digest, count and the request's part alike |
| OciProxies.StepKeeps | internal/ociproxy/registry.go:347-639 | every step of every request and of Close keeps the store, session, request and commit invariants |
| ResourceIdentity.HashResource | internal/hashing/hash_resource.go:12-40 | the stream is the frames of label, commands, timeout, counted dependencies and counted exports in sorted key order |
| ResourceIdentity.UnframesFrames | internal/hashing/hash_resource.go:42-46 | framing is inverted by a decoder for every list of values |
| ResourceIdentity.DecodeStream | internal/hashing/hash_resource.go:12-46 | the stream of a resource decodes to exactly its definition |
| ResourceIdentity.StreamIdentifiesResource | internal/hashing/hash_resource.go:12-46 | resources with equal streams have equal definitions, labels included when printable |
| Sorting.SortedUnique | internal/hashing/hash_resource.go:24-33 | a set of keys has one sorted sequence, so map iteration order leaves no trace |
| Labels.LabelRoundTrip | internal/label/target_label.go:21-95 | a label reparses to itself if and only if its name is valid and its package has no colon |
| Labels.ShorthandRoundTrip | internal/label/target_label.go:98-101 | the shorthand reparses to the label if and only if it is printable, has a package and can be shortened |
| Labels.ParsedLabelPrintable | internal/label/target_label.go:21-65 | a parsed label is printable and reparses to itself if and only if its text is absolute or it is resolved against a package without a colon |
| Labels.RelativeLabel | internal/label/target_label.go:22-37 | a relative label names a target of the current package, "." being the root, and parses to what its canonical form parses to, errors included, unless that package has a colon |
| Labels.UnparsedTexts | internal/label/target_label.go:21-65 | which texts lack a prefix, a relative name or a package |
| Labels.ColonLost | internal/label/target_label.go:21-95 | the label a:b with the name c is one that does not reparse to itself |
| Labels.InheritedColonLost | internal/label/target_label.go:22-37 | the text :c, parsed in the package a:b, gives that label |
| Labels.ShorthandLost | internal/label/target_label.go:98-101 | the shorthand //a does not stand for //a:b |
| Labels.PrintInjective | internal/label/target_label.go:93-95 | distinct printable labels have distinct canonical forms |
| Patterns.PatternRoundTrip | internal/label/target_pattern.go:20-73 | a pattern reparses to itself if and only if its prefix has no colon and no ellipsis and it is recursive or has a target and no trailing slash |
| Patterns.ParsedPatternPrintable | internal/label/target_pattern.go:20-73 | a parsed pattern is printable and reparses to itself if and only if its text is absolute and recursive, absolute with a package part that does not end in two slashes, or relative to a package without colon, ellipsis and trailing slash |
| Patterns.RelativePattern | internal/label/target_pattern.go:21-35 | a relative pattern selects in the current package only, the target after its colon or all targets, and parses to what its printed form parses to if and only if the package has no colon, ellipsis or trailing slash; other names are errors |
| Patterns.RelativeNeedsColon | internal/label/target_pattern.go:21-25 | a text that does not start at the root is rejected for its missing colon if and only if it has none |
| Patterns.BareTargetLost | internal/label/target_pattern.go:20-73 | a non-recursive pattern without a target does not reparse to itself |
| Patterns.DoubleSlashLost | internal/label/target_pattern.go:68-71 | the text //a//:b parses to a pattern that keeps a slash and does not reparse to itself |
| Patterns.RecursiveMatchesSubtree | internal/label/target_pattern.go:193-218 | a recursive pattern matches exactly the labels whose package segments extend its prefix and whose name is the one it asks for, if it asks for one |
| Patterns.LabelAsPattern | internal/label/target_pattern.go:193-235 | a printable label read as a pattern selects exactly that label if and only if its name is not all and its package has no ellipsis and no trailing slash |
| Patterns.AllSelectsMore | internal/label/target_pattern.go:193-218 | the label of a target named all, read as a pattern, does not select that label alone |

## Left out

- Node identity: nodes are identified by their labels; two distinct node objects with one label are not modelled.
- Cloud, file system and remote backends, HTTP routing and headers, docker and OCI copies: a store is a map with fallible operations, a staged writer an append-only buffer that can be committed or cancelled.
- Shell execution, temporary files, environments, exports of resources, timeouts, git and jj: a command has a result determined by its inputs, or fails.
- The concrete hash functions, protobuf bytes and the target definition hash, whose parts are written unframed.
- Aliases and resources as inputs of change hashes: the hasher skips them, and so do the executor's theorems.
- Executors.Build: nobody taints targets or deletes entries while a build runs; commands of re-runs for dependants are counted apart from those that callbacks start, and loads are counted for callbacks in one order.
- Output checks, no-cache targets, a disabled cache and pushes: they use another output hash or do not gate the hit.
- Executors.Executor.Follow: a task that waits for another task's re-run stops with LeaderUnfinished when the model's run ends before the leader does, because a method cannot wait for others without a bound; Reruns has the waits themselves, and FollowersAnswered shows that each of them is answered.
- Executors.Executor.Walk: calls the callbacks in one order under interference of other tasks instead of on the walker's goroutines; BuildWalks has every interleaving of the walker.
- BuildWalks.BuildMatchesCold: that a callback keeps its contract is WalkCallback's proof, not repeated step by step inside the run; a result that a wait was cut short is excluded, for which RerunsSucceed and FollowersAnswered are the reason.
- Executors.Executor.PersistPreparedTarget: leaves out the write plans and their cleanup, which CacheWriters models.
- The lock that keeps two tasks from hashing or loading one target at once: the executor's theorems hold without it, and MutexMaps proves it separately.
- Walkers.WalkProgress: takes it that callbacks return, and return context.Canceled only after a cancellation.
- ResourceManagers.StartProgress: takes it that up commands return, which their timeout enforces.
- WorkerPools.AcceptedJobsFinish: tasks return, and the context of the pool is not cancelled; after a cancellation workers may leave queued jobs behind.
- MutexMaps.SharedAndCounted: threads unlock only what they hold, and fewer than 2^31 of them wait for one name.
- DirectoryOutputs.LoadDirectoryRecursive: the recursion has an explicit depth bound, because messages that contain their own hash cannot be excluded by the type; SomeDepthFits gives a bound for every real directory.
- DirectoryOutputs.Load: file modes are reduced to the executable bit, and a message with the same name twice is an error where the original would overwrite.
- CacheWriters.NoDanglingResults: nothing is deleted during a build, and for image outputs no uploads are followed.
- OciProxies.StoredUnderDigest: reads of blobs and manifests and the answers' headers are not modelled; the memory of the process ends with it.
- Cleaning of paths (`filepath.Clean`): outputs carry their cleaned path.
- The order of map iterations and of sorted node lists: every order is covered instead.
- Type, tag and platform filters are functions of the label.
- Durations are unbounded integers and printed timeouts are strings; strings are sequences of bytes, so lengths agree.
- The identity of a resource is cut to twelve characters of the digest; the theorems are about the stream that is hashed.
- ParsePartialTargetPattern, completions, loaders of BUILD files, configuration, tracing, the user interface and logging.
- The workspace lock file, whose guarantee depends on the operating system.
