# Verified core of a static data-race detector

A Dafny model of the algorithms behind the race detector, with proofs. LLVM values, types and
instructions are represented by integers and small datatypes. The model has four parts.

**Pointer analysis.** `PartialUpdateSolver` alternates a copy phase (iterative Tarjan, components
popped in topological order, cycles collapsed, edges skipped by flags and a lossy edge hash) with a
load/store phase that derives copy edges. `PartialUpdateSolver.dfy` keeps the mutable graph, the
work lists and the hash set; the hash is an arbitrary function. It is proved to end with the least
solution of the inclusion constraints as they were requested (`ConstraintSystem.dfy`, `Requests.dfy`), the same one
`AndersenWave` reaches, and to stay right when batches of nodes and constraints are added later.

**Happens-before and locks.** `HappensBeforeGraph.dfy` builds the sync edges, the sorted lists of
sync events and the closure, and answers reachability on the compressed graph. `Interleaving.dfy`
defines the runs of the thread traces and justifies both filters of the race check against every
state of every run, with the exact condition under which barrier edges mislead the first one;
`OrderExactness.dfy` shows that fork and join edges are neither too many nor too few.
`RaceDetection.dfy` puts the parts together and says which conflicts that a run reaches are candidates.

**Memory layout and GEP canonicalisation.** `Layout.dfy` is the structural walk of a type in which
arrays are collapsed; `LayoutIndex.dfy`, `LayoutManager.dfy` and `MemBlock.dfy` are the flattened
maps, their construction with the cache, and the lazily filled memory blocks. `GepSplitting.dfy` is
the splitting pass over the meaning of `getelementptr` in the LLVM Language Reference.

**Traces and pairs.** `TraceBuilder.dfy` is the mutually recursive construction of thread traces
with arbitrary runtime hooks, proved against the function in `TraceSpec.dfy`, about which
`TraceFacts.dfy` and `TraceMeaning.dfy` prove what every trace satisfies and which code its events come from; `Reporter.dfy`,
`GuardedBlocks.dfy`, `SharedMemory.dfy` and `RacePairs.dfy` cover call stacks, guarded blocks and the
enumeration of pairs.

`dafny verify dfyconfig.toml` checks the project.

## Reading notes

- Sets of nodes and objects are iterated in bit order in the source; the model takes them in an
  arbitrary order, so the results hold for any order. Maps keyed by thread id are iterated by id.
- `addConstraints` asserts that no edge enters an anonymous node (ConstraintGraph.h:102); requests
  are required to respect it. The iterator reserves one visit number, so graphs have fewer than
  2^32 - 1 nodes.
- A copy edge derived while the callback is registered is recorded by the callback and again by the
  caller; recording is idempotent and the model does it once.
- A comment in `buildTrace` (TraceBuilder.cpp:107) says an entry is allowed twice in one spawn chain.
  `isRecursiveThreadSpawn` counts the new thread as the first occurrence, so with n = 2 it is allowed
  once. The model follows the code, and that no entry repeats is proved. The main function is not
  counted by the code.
- A run executes one event at a time; the threads of one team that contain a barrier pass it
  together, as section 2.17.2 of the OpenMP API 5.0 specification says. Teams are an arbitrary map
  from threads to numbers. The code links the events of a barrier instruction across teams and
  across visits. The order is therefore right up to a state exactly if no barrier event executed so
  far has another one on its thread or in another team (`OrderKeptIff`). `BarrierExamples.dfy` has a
  trace for each of the two ways to fail. For a single pair the exact condition is
  `WronglyOrderedIff`. The lock filter needs no condition.
- `getGuardedBlocks` takes a block from its work list before asking whether it is empty; the model
  therefore requires a target with a successor.
- A layout without arrays does not check its offset. `IndexPhysicalOffset` says when its result is
  valid; `IndexMemoryBlock` still finds no object there.
- `hasAllConstantIndices` only accepts integer constants, but the pass collects every constant, so
  an undefined index can end up in a constant instruction that violates the assertions of
  `getGEPStepSize`. `SplitStepForms` gives the exact condition.
- Sizes and offsets are unbounded integers in the model of layouts; types are assumed to fit 64 bits.

## Model

| member | source | states |
|---|---|---|
| `SolverComparison.AnalyzeBoth` | src/PointerAnalysis/Solver/AndersenWave.h:32-92 | for every list of requests and every edge hash the collapsing solver and the wave solver end with the same points-to sets; every requested constraint holds in them, and they lie below every assignment in which all of them hold |
| `SolverComparison.AnalyzePartial` | src/PointerAnalysis/Solver/PartialUpdateSolver.h:188-320 | from an empty graph, the sets read through the super nodes are the least answer to the requests, as read off the list |
| `Requests.ApplyAllAsked` | src/PointerAnalysis/Graph/ConstraintGraph/ConstraintGraph.h:63-191 | what a list of requests adds up to: one node per pointer, two per object in the order of the requests, and exactly the constraints in the list |
| `Requests.LeastIsAnswer` | src/PointerAnalysis/Solver/PartialUpdateSolver.h:188-320 | the least solution of the resulting system is the least assignment in which all requested constraints hold |
| `SolverComparison.AnalyzeWave` | src/PointerAnalysis/Solver/AndersenWave.h:32-92 | the sets of the non-collapsing solver are the least answer to the requests |
| `PartialUpdateSolvers.PartialUpdateSolver.RunSolver` | src/PointerAnalysis/Solver/PartialUpdateSolver.h:188-320 | terminates (live representatives, then absent copy edges) with all work lists empty, all copy edges satisfied, all loads and stores expanded, and the least solution of the system |
| `PartialUpdateSolvers.PartialUpdateSolver.Solve` | src/PointerAnalysis/Solver/PartialUpdateSolver.h:322-357 | a first run and any number of batches added afterwards: in the end the least answer to all requests together |
| `PartialUpdateSolvers.PartialUpdateSolver.Resolve` | src/PointerAnalysis/Solver/PartialUpdateSolver.h:322-357 | from a fixpoint, adding one batch of requests and running again gives the least assignment in which the old and the requested constraints hold, although old nodes start as handled |
| `PartialUpdateSolvers.PartialUpdateSolver.AddBatch` | src/PointerAnalysis/Solver/PartialUpdateSolver.h:46-95 | requests made through the callback leave every unsatisfied copy edge and every unexpanded dereference flagged |
| `PartialUpdateSolvers.PartialUpdateSolver.AddConstraint` | src/PointerAnalysis/Solver/PartialUpdateSolver.h:54-95 | a new constraint of any kind extends the system by it, keeps the graph good and everything outstanding flagged |
| `PartialUpdateSolvers.PartialUpdateSolver.DerefNew` | src/PointerAnalysis/Solver/PartialUpdateSolver.h:75-90 | a load or store that arrives late is expanded over the points-to set its pointer already has |
| `PartialUpdateSolvers.PartialUpdateSolver.CopyPhase` | src/PointerAnalysis/Solver/PartialUpdateSolver.h:192-229 | if every unsatisfied copy edge is flagged, one pass over the popped components satisfies every copy edge of the whole graph, whatever the edge hash |
| `PartialUpdateSolvers.PartialUpdateSolver.ProcessCopyScc` | src/PointerAnalysis/Solver/PartialUpdateSolver.h:112-148 | popping a cycle merges its sets into the front node, collapses it and propagates, keeping the invariant of the pass |
| `PartialUpdateSolvers.PartialUpdateSolver.ProcessSingle` | src/PointerAnalysis/Solver/PartialUpdateSolver.h:171-222 | popping a single node: an edge skipped by the flag test is already satisfied, an edge taken becomes satisfied, and the pass invariant moves on by one component |
| `PartialUpdateSolvers.PartialUpdateSolver.ProcessEdge` | src/PointerAnalysis/Solver/PartialUpdateSolver.h:209-222 | an edge that is taken becomes satisfied by a union, its target is flagged if the set grew, and the pass invariant is kept |
| `PartialUpdateSolvers.PartialUpdateSolver.MergePts` | src/PointerAnalysis/Solver/PartialUpdateSolver.h:118-132 | the representative holds the union of the sets of the component, all others are emptied |
| `PartialUpdateSolvers.PartialUpdateSolver.ProcessCopy` | src/PointerAnalysis/Solver/SolverBase.h:477-488 | the target set becomes the union, and the result says whether it grew |
| `PartialUpdateSolvers.PartialUpdateSolver.RecordCopyEdge` | src/PointerAnalysis/Solver/PartialUpdateSolver.h:97-109 | the hash of the edge and the flags of both ends are recorded, nothing else changes |
| `PartialUpdateSolvers.PartialUpdateSolver.ProcessLoad` | src/PointerAnalysis/Solver/SolverBase.h:157-172 | afterwards every object the pointer may point to has its copy edge, each new edge recorded |
| `PartialUpdateSolvers.PartialUpdateSolver.ProcessStore` | src/PointerAnalysis/Solver/SolverBase.h:201-223 | the same for stores |
| `PartialUpdateSolvers.PartialUpdateSolver.DerefPhase` | src/PointerAnalysis/Solver/PartialUpdateSolver.h:231-262 | all dereferences are expanded, new copy edges are flagged, and without new edges the flags are as before |
| `PartialUpdateSolvers.PartialUpdateSolver.PointsToSets` | src/PointerAnalysis/Graph/ConstraintGraph/CGNodeBase.h:173-179 | reading each node through its super node |
| `CopyPasses.UnionPasses` | src/PointerAnalysis/Solver/PartialUpdateSolver.h:209-222 | one union on an edge of the popped node keeps the pass invariant for all other edges |
| `CopyPasses.PopSingle` | src/PointerAnalysis/Solver/PartialUpdateSolver.h:192-229 | a popped single node has no unsatisfied incoming edge from components still to come |
| `CopyPasses.CollapseComponent` | src/PointerAnalysis/Solver/PartialUpdateSolver.h:112-148 | collapsing a popped cycle keeps the state good and the pass invariant, every solution gives its members equal sets |
| `CopyPasses.PassEnds` | src/PointerAnalysis/Solver/PartialUpdateSolver.h:192-229 | when all components are popped no copy edge is unsatisfied |
| `CopyPasses.FixpointPending` | src/PointerAnalysis/Solver/PartialUpdateSolver.h:322-357 | a fixpoint has nothing outstanding, which is why old nodes may start as handled |
| `SolverInvariant.QuietIsLeast` | src/PointerAnalysis/Solver/PartialUpdateSolver.h:188-320 | a good state with all copies satisfied and all dereferences expanded resolves to the least solution |
| `SolverInvariant.CollapseKeeps` | src/PointerAnalysis/Graph/ConstraintGraph/ConstraintGraph.h:127-167 | quotienting the graph by nodes that are equal in every solution keeps the state good |
| `SolverInvariant.DeriveKeeps` | src/PointerAnalysis/Solver/SolverBase.h:157-223 | a copy edge derived from a load or store holds in every solution |
| `SolverInvariant.UnionKeeps` | src/PointerAnalysis/Solver/SolverBase.h:477-488 | propagation along an edge stays below every solution |
| `SolverInvariant.ObjectKeeps` | src/PointerAnalysis/Graph/ConstraintGraph/ConstraintGraph.h:171-191 | a new object with its address node keeps the state good |
| `SolverInvariant.ConstraintKeeps` | src/PointerAnalysis/Graph/ConstraintGraph/ConstraintGraph.h:63-123 | a new constraint together with its edge between representatives keeps the state good |
| `ConstraintSystems.LeastUnique` | src/PointerAnalysis/Solver/PartialUpdateSolver.h:188-320 | there is at most one least solution |
| `ConstraintSystems.TrimFits` | src/PointerAnalysis/Graph/ConstraintGraph/ConstraintGraph.h:171-191 | treating address-of as a copy from the anonymous node loses no precision |
| `ConstraintGraphs.ConstraintGraph.CollapseSccTo` | src/PointerAnalysis/Graph/ConstraintGraph/ConstraintGraph.h:127-167 | the new edge set is exactly the quotient: representatives are linked by a kind iff members were, self copies excepted; successor and predecessor sets stay mirror images, no edge touches a collapsed node, super links stay acyclic |
| `ConstraintGraphs.RedirectIsQuotient` | src/PointerAnalysis/Graph/ConstraintGraph/ConstraintGraph.h:127-167 | moving the edges of one node to another and erasing it is the one-node quotient |
| `ConstraintGraphs.QuotientStep` | src/PointerAnalysis/Graph/ConstraintGraph/ConstraintGraph.h:127-167 | collapsing node by node is collapsing the whole set |
| `ConstraintGraphs.ConstraintGraph.InsertConstraint` | src/PointerAnalysis/Graph/ConstraintGraph/CGNodeBase.h:111-147 | the edge between the super nodes is added to both sides, once, unless it is a self copy; the result says whether it is new |
| `ConstraintGraphs.ConstraintGraph.AddConstraints` | src/PointerAnalysis/Graph/ConstraintGraph/ConstraintGraph.h:63-123 | an address-of constraint becomes an edge from the anonymous node; other kinds are inserted as they are |
| `ConstraintGraphs.ConstraintGraph.GetSuperNode` | src/PointerAnalysis/Graph/ConstraintGraph/CGNodeBase.h:173-179 | following the links terminates at the representative |
| `ConstraintGraphs.ConstraintGraph.ClearConstraints` | src/PointerAnalysis/Graph/ConstraintGraph/CGNodeBase.h:182-230 | the node disappears from the sets of all its neighbours and its own sets are emptied, nothing else changes |
| `ConstraintGraphs.ConstraintGraph.AddObjNode` | src/PointerAnalysis/Graph/ConstraintGraph/ConstraintGraph.h:171-191 | an object node and its anonymous node, linked by address-of |
| `SccIterators.AllSccs` | src/PointerAnalysis/Graph/ConstraintGraph/SCCIterator.h:163-285 | exactly the components reachable from unset, uncollapsed nodes, each once, and no edge leads to a component emitted later |
| `Tarjan.EmittedMaximal` | src/PointerAnalysis/Graph/ConstraintGraph/SCCIterator.h:250-285 | two nodes that reach each other are emitted in the same component |
| `SccIterators.SccIterator.GetNextScc` | src/PointerAnalysis/Graph/ConstraintGraph/SCCIterator.h:250-285 | the next component, or none when the visit stack is empty, with the search invariant kept |
| `SccIterators.SccIterator.DfsVisitChildren` | src/PointerAnalysis/Graph/ConstraintGraph/SCCIterator.h:231-247 | descends until the top frame has no child left |
| `SccIterators.SccIterator.DfsVisitOne` | src/PointerAnalysis/Graph/ConstraintGraph/SCCIterator.h:213-228 | a new node gets the next number and is pushed on both stacks |
| `SccIterators.SccIterator.PopScc` | src/PointerAnalysis/Graph/ConstraintGraph/SCCIterator.h:250-285 | what is popped is exactly the top segment of the node stack |
| `SccIterators.SccIterator.NextSubGraph` | src/PointerAnalysis/Graph/ConstraintGraph/SCCIterator.h:163-187 | continues at the next unset node not visited yet, if there is one |
| `SccIterators.SccIterator.Next` | src/PointerAnalysis/Graph/ConstraintGraph/SCCIterator.h:189-198 | the next component of the current sub graph, or the first of the next one |
| `SccIterators.FindNextUnset` | src/PointerAnalysis/Graph/ConstraintGraph/SCCIterator.h:163-187 | the first unset bit after a position, or -1 |
| `Tarjan.EmitKeeps` | src/PointerAnalysis/Graph/ConstraintGraph/SCCIterator.h:250-285 | emitting the top segment keeps the invariant: strongly connected, maximal so far, in reverse topological order |
| `Tarjan.FoldKeeps` | src/PointerAnalysis/Graph/ConstraintGraph/SCCIterator.h:250-285 | handing the least number on to the parent frame keeps the invariant |
| `Tarjan.DescendKeeps` | src/PointerAnalysis/Graph/ConstraintGraph/SCCIterator.h:231-247 | visiting an unvisited child keeps the invariant |
| `Tarjan.SkipKeeps` | src/PointerAnalysis/Graph/ConstraintGraph/SCCIterator.h:231-247 | looking at a visited child keeps the invariant |
| `AndersenWaves.AndersenWave.RunSolver` | src/PointerAnalysis/Solver/AndersenWave.h:32-92 | terminates with the least solution |
| `AndersenWaves.AndersenWave.CopyPhase` | src/PointerAnalysis/Solver/AndersenWave.h:39-73 | one wave over the components satisfies every copy edge |
| `AndersenWaves.AndersenWave.ProcessComponent` | src/PointerAnalysis/Solver/AndersenWave.h:39-73 | the members of a cycle end with one common set |
| `AndersenWaves.AndersenWave.DerefPhase` | src/PointerAnalysis/Solver/AndersenWave.h:75-90 | everything is expanded; if nothing changed, no edge was added |
| `HappensBefore.CompressionExact` | src/Analysis/HappensBeforeGraph.cpp:308-396 | for events on different threads, the full event graph has a path iff the compressed graph of sync events leads from the next sync after the source to the previous sync before the target, for any set of sync edges |
| `HappensBeforeGraphs.HappensBeforeGraph.CanReach` | src/Analysis/HappensBeforeGraph.cpp:308-324 | true iff a path of program-order and sync edges exists |
| `HappensBeforeGraphs.HappensBeforeGraph.AreParallel` | src/Analysis/HappensBeforeGraph.h:27-29 | true iff neither event reaches the other |
| `HappensBeforeGraphs.HappensBeforeGraph.constructor` | src/Analysis/HappensBeforeGraph.cpp:157-283 | the edges are exactly those of forks, matched joins and barriers, and the closure is complete |
| `HappensBeforeGraphs.HappensBeforeGraph.AddEdges` | src/Analysis/HappensBeforeGraph.cpp:167-230 | every event contributes its sync edges and no others are added |
| `HappensBeforeGraphs.HappensBeforeGraph.VisitFork` | src/Analysis/HappensBeforeGraph.cpp:192-205 | an edge to the first event of the one thread the fork spawned, if it has events |
| `HappensBeforeGraphs.HappensBeforeGraph.VisitJoin` | src/Analysis/HappensBeforeGraph.cpp:206-219 | an edge from the last event of the matched thread, if there is one |
| `HappensBeforeGraphs.HappensBeforeGraph.VisitBarrier` | src/Analysis/HappensBeforeGraph.cpp:170-187 | edges both ways to the previous event of the same barrier |
| `HappensBeforeGraphs.HappensBeforeGraph.Closure` | src/Analysis/HappensBeforeGraph.cpp:240-282 | the work list, in which nodes are marked only when taken out, terminates with exactly the nodes reachable from the source |
| `HappensBeforeGraphs.HappensBeforeGraph.CloseAll` | src/Analysis/HappensBeforeGraph.cpp:240-282 | the closure is the reflexive and transitive one, for every sync event |
| `HappensBeforeGraphs.RepeatedVisit` | src/Analysis/HappensBeforeGraph.cpp:240-282 | taking out a node again moves the first unvisited entry forward: the measure for queued duplicates |
| `HappensBeforeGraphs.HappensBeforeGraph.AddSync` | src/Analysis/HappensBeforeGraph.cpp:285-295 | the list of a thread stays sorted and holds each sync event once |
| `HappensBeforeGraphs.HappensBeforeGraph.AddSyncEdge` | src/Analysis/HappensBeforeGraph.cpp:297-306 | the edge and both its ends are recorded |
| `HappensBeforeGraphs.HappensBeforeGraph.FindNextSync` | src/Analysis/HappensBeforeGraph.cpp:360-375 | the first sync event at or after an event, if any |
| `HappensBeforeGraphs.HappensBeforeGraph.FindPrevSync` | src/Analysis/HappensBeforeGraph.cpp:377-396 | the last sync event at or before an event, if any |
| `HappensBeforeGraphs.HappensBeforeGraph.FindNextSyncAfter` | src/Analysis/HappensBeforeGraph.cpp:345-358 | the first sync event strictly after an event, if any |
| `LockSets.LockSet.HeldLocks` | src/Analysis/LockSet.cpp:18-68 | the multiset of locks replayed up to the event, whether cached or not |
| `LockSets.HeldIsSurplus` | src/Analysis/LockSet.cpp:30-60 | a lock is held as often as its largest surplus of takings over releases in any last part of the trace |
| `LockSets.LockSet.SharesLock` | src/Analysis/LockSet.cpp:72-90 | true iff the two multisets have a lock in common |
| `LockSets.Intersects` | src/Analysis/LockSet.cpp:72-90 | the walk over two sorted sequences finds a common element iff there is one |
| `Interleavings.OrderKeptIff` | src/Analysis/HappensBeforeGraph.cpp:170-230 | for every assignment of threads to teams and up to any state of any run, everything executed had all it depends on executed, iff no barrier event executed so far has another one of the same barrier apart from it: on the same thread or in another team |
| `Interleavings.OrderSoundIff` | src/Analysis/HappensBeforeGraph.cpp:170-230 | the graph orders no run wrongly iff no run executes a barrier event that has another one apart from it; it suffices that each barrier is met by one team, once per thread |
| `Interleavings.OrderedNotParallel` | src/Analysis/HappensBeforeGraph.cpp:189-230 | in every such state an event is enabled only after everything that happens before it, so two ordered accesses are never both enabled |
| `Interleavings.WronglyOrderedIff` | src/Analysis/HappensBeforeGraph.cpp:170-230 | of two accesses that a run has both enabled, the graph puts one before the other iff some barrier has an executed event that leads to the second and an event not executed that the first leads to |
| `Interleavings.RunMostly` | src/Analysis/HappensBeforeGraph.cpp:189-230 | program order, fork and join edges are respected in every state of every run; only barrier edges can be wrong |
| `Interleavings.OrderedTogether` | src/Analysis/HappensBeforeGraph.cpp:189-230 | in traces where each barrier is met by one team and once per thread, barrier-free ones included, ordered events are never both enabled in any state of any run |
| `Interleavings.LockedNotParallel` | src/Analysis/LockSet.cpp:18-90 | in every state of every run of every trace, whatever the teams, two events holding a common lock are never both enabled |
| `Interleavings.RunLocks` | src/Analysis/LockSet.cpp:18-68 | in every state of every run threads run only after their fork, the locks that the steps took and released are those of the replay, and no two threads hold a common lock |
| `Interleavings.ReplayFollows` | src/Analysis/LockSet.cpp:36-56 | replaying one event is what a step does with the locks of its thread: one more when taken, one less when released if held |
| `Interleavings.RunInv` | src/RaceDetect.cpp:73-75 | in every state in which no executed barrier event has one apart from it, the order is kept as well |
| `Interleavings.CheckDismissal` | src/RaceDetect.cpp:73-75 | the filter dismisses a pair iff it is ordered or shares a lock; no state of any run has both enabled if they share a lock, or if they are ordered and no executed barrier event has one apart from it |
| `Interleavings.DismissedNotParallel` | src/RaceDetect.cpp:73-75 | the same about the two conditions themselves |
| `Interleavings.DismissedIff` | src/RaceDetect.cpp:73-75 | two accesses that a run has both enabled are dismissed iff a barrier separates them in the graph but not in that run |
| `RaceDetection.Analyze` | src/RaceDetect.cpp:119-146 | from the code to the candidates: a conflict that some run, for some teams, has both enabled is enumerated and not dismissed iff no barrier separates the two accesses in the graph but not in that run |
| `RaceDetection.DetectRaces` | src/RaceDetect.cpp:61-146 | the candidates are exactly the expected pairs that neither filter dismisses, with the same condition for the conflicts that a run reaches |
| `BarrierExamples.RepeatedBarrierOverorders` | src/Analysis/HappensBeforeGraph.cpp:170-187 | a counterexample: after a barrier that is met again, the edges order two writes that the run has side by side |
| `BarrierExamples.SharedBarrierOverorders` | src/Analysis/HappensBeforeGraph.cpp:170-187 | a second one: a parallel region entered twice, no thread meeting its barrier twice; the edges between the two teams order two writes of the first team that the run has side by side |
| `CreationOrders.OrderedOneWay` | src/Trace/Build/TraceBuilder.cpp:112-135 | with joins created after the joined thread, no two events are ordered both ways iff no barrier instruction is met by two events |
| `CreationOrders.EdgeForward` | src/Analysis/HappensBeforeGraph.cpp:192-219 | without barrier edges every program-order, fork and join edge goes forward in the builder's creation order |
| `CreationOrders.BuiltForksMatched` | src/Analysis/HappensBeforeGraph.cpp:58-66 | a built trace has exactly one thread for every fork event, as the graph asserts |
| `HappensBeforeGraphs.BarrierOrdersBothWays` | src/Analysis/HappensBeforeGraph.cpp:170-187 | consecutive events of a barrier are ordered both ways |
| `HappensBeforeGraphs.BarrierLeads` | src/Analysis/HappensBeforeGraph.cpp:170-187 | all events of a barrier instruction lead to each other, whichever thread or team they belong to |
| `HappensBeforeGraphs.ForkLeads` | src/Analysis/HappensBeforeGraph.cpp:192-205 | a fork happens before every event of the thread it spawned |
| `HappensBeforeGraphs.JoinLeads` | src/Analysis/HappensBeforeGraph.cpp:206-219 | every event of a thread happens before each join that was matched with it |
| `OrderExactness.HappensBeforeExact` | src/Analysis/HappensBeforeGraph.cpp:189-230 | in traces without locks and barriers, if some run executes b, the graph leads from a to b iff every run that executes b has executed a by then |
| `OrderExactness.ReducedRun` | src/Analysis/HappensBeforeGraph.cpp:189-230 | leaving everything that does not lead to b out of a run leaves a run |
| `TraceBuilders.BuildProgram` | src/Trace/ProgramTrace.cpp:31-45 | threads[i].id == i, the list is the preorder of the spawn tree, forks and threads correspond one to one, calls are bracketed and nested no deeper than there are functions, no entry repeats along a spawn chain, nothing but calls and joins precedes the first fork, every event comes from code of its kind, and without hooks the events of each thread are its code with callees in place |
| `TraceMeanings.TracedSourced` | src/Trace/Build/TraceBuilder.cpp:93-175 | whatever the hooks do, every event comes from a piece of code of its kind in some summary, with the memory, lock, barrier, entry or callee of that instruction |
| `TraceMeanings.TracedInlined` | src/Trace/Build/TraceBuilder.cpp:58-181 | with hooks that do nothing, a thread and every thread it spawns hold the code of their functions in order, callees bracketed in place, recursive calls and spawns cut |
| `TraceMeanings.StraightThread` | src/Trace/Build/TraceBuilder.cpp:93-144 | a function without calls and forks leaves one event for every piece of code, in order, each of its kind |
| `TraceMeanings.HookedMeans` | src/Trace/Build/TraceBuilder.cpp:81-91 | a hook is asked once, appends exactly its joins and may set the instruction to skip to |
| `TraceMeanings.SkippedRest` | src/Trace/Build/TraceBuilder.cpp:70-73 | until the instruction to skip to comes, nothing is recorded and no hook is asked |
| `TraceMeanings.SkipMeans` | src/Trace/Build/TraceBuilder.cpp:20-30 | code that a hook skips leaves only the joins of the hook; the instruction that ends skipping is not skipped |
| `TraceFacts.TracedArmed` | src/Trace/Build/TraceBuilder.cpp:75-79 | whatever the hooks do, no access, lock or barrier is recorded before the first fork of the program |
| `TraceFacts.TracedDepth` | src/Trace/Build/TraceBuilder.cpp:58-64 | whatever the hooks do, at no point of any thread are more calls open than there are functions, because no function is traced inside itself; open calls are left as they were |
| `TraceBuilders.BuildTrace` | src/Trace/Build/TraceBuilder.cpp:58-181 | terminates for every call graph (functions off the spawn chain, functions off the call stack, remaining code), restores the call stack, leaves open calls as they were and records exactly the specified events |
| `TraceBuilders.VisitIR` | src/Trace/Build/TraceBuilder.cpp:70-178 | one piece of code: skipping, hooks and dispatch, as specified |
| `TraceBuilders.VisitFork` | src/Trace/Build/TraceBuilder.cpp:99-132 | the fork event and the complete child, or nothing for a recursive spawn |
| `TraceBuilders.VisitCall` | src/Trace/Build/TraceBuilder.cpp:145-175 | nothing, an external call event, or a bracketed trace of the callee |
| `TraceBuilders.BuildThread` | src/Trace/ThreadTrace.cpp:35-42 | the next id, the spawn site, and a finished sub tree numbered in preorder |
| `TraceBuilders.PreVisit` | src/Trace/Build/TraceBuilder.cpp:81-91 | whatever a hook does, only join events are appended and the skip target set |
| `TraceBuilders.IsRecursiveThreadSpawn` | src/Trace/Build/TraceBuilder.cpp:35-55 | true iff the entry is on the chain of spawns and occurs often enough, itself included |
| `TraceBuilders.ThreadBuildState.ShouldSkipIR` | src/Trace/Build/TraceBuilder.cpp:20-30 | skips until the target instruction, which ends the skipping and is not skipped |
| `TraceBuilders.Flatten` | src/Trace/ProgramTrace.cpp:31-45 | the stack of threads produces the preorder of the tree |
| `TraceTrees.ForkKeeps` | src/Trace/Build/TraceBuilder.cpp:99-132 | a fork of an entry off the chain keeps threads and forks in bijection, chains free of repetition and the creation log ordered |
| `TraceTrees.PushKeeps` | src/Trace/Build/TraceBuilder.cpp:93-144 | any other event keeps them too; its id is its position |
| `TraceTrees.FramesPrefix` | src/Reporter/Reporter.cpp:82-94 | if the calls of a thread are bracketed, those of every prefix are |
| `Reporters.ComputeCallstack` | src/Reporter/Reporter.cpp:70-102 | the frames of the spawn site followed by the calls open on the thread itself, plus the fork if the event is one |
| `Reporters.CallstackFirst` | src/Reporter/Reporter.cpp:76-80 | the first event of a thread has the stack of the fork that spawned it, and its own call or fork |
| `Reporters.CallstackNext` | src/Reporter/Reporter.cpp:82-99 | from one event to the next the stack changes only by the call entered or left there, and by a fork's own site, which is there for the fork alone |
| `Reporters.ReplayCalls` | src/Reporter/Reporter.cpp:82-94 | replaying a thread never pops a frame of the parent |
| `Reporters.SpawnIsBelow` | src/Reporter/Reporter.cpp:76-80 | the stack of the spawn site is a prefix of the stack of every event of the thread |
| `Reporters.BuiltBracketed` | src/Reporter/Reporter.cpp:70-102 | every built program has the call brackets that the replay relies on |
| `GuardedBlocks.GetGuardedBlocks` | src/Analysis/OpenMP/OpenMP.cpp:55-98 | terminates despite duplicates with the least set that contains the target and every successor whose predecessors are all in it |
| `GuardedBlocks.PathsEnterAtTarget` | src/Analysis/OpenMP/OpenMP.cpp:55-98 | every path from outside to a guarded block passes through the target |
| `GuardedBlocks.GuardedEntry` | src/Analysis/OpenMP/OpenMP.cpp:79-86 | apart from the target, a guarded block has only guarded predecessors |
| `RacePairs.CheckAll` | src/RaceDetect.cpp:119-146 | each pair is checked exactly as often as expected: once per common object, the write first, two writes in thread order; the filter drops none |
| `RacePairs.ExpectedPairs` | src/RaceDetect.cpp:119-146 | the pairs expected, in one of the two orders and never both, are those on different threads with a common object and at least one write |
| `RacePairs.ExpectedOnce` | src/RaceDetect.cpp:119-146 | if every event names an object once, each pair is checked at most once per object |
| `RacePairs.GetSharedObjects` | src/Analysis/SharedMemory.cpp:104-121 | exactly the objects with at least one pair to check, each once |
| `RacePairs.RowsSharedMeans` | src/Analysis/SharedMemory.cpp:107-118 | the test on reader and writer counts means a writer and another accessing thread |
| `RacePairs.CheckWriter` | src/RaceDetect.cpp:123-145 | the writes of one thread against reads of other threads and writes of later ones |
| `SharedMemories.SharedMemory.constructor` | src/Analysis/SharedMemory.cpp:15-103 | every access of every event is recorded under its object and thread, as often as the event names the object |
| `SharedMemories.SharedMemory.Record` | src/Analysis/SharedMemory.cpp:56-62 | one access per named object, nothing else changes |
| `SharedMemories.SharedMemory.GetObjId` | src/Analysis/SharedMemory.cpp:16-25 | ids stay distinct and below the number of objects |
| `LayoutIndexing.BetweenIsWalk` | src/PointerAnalysis/Models/MemoryModel/FieldSensitive/Layout/Layouts.cpp:29-68 | for every type and offset the arithmetic on the flattened sub-array map is the structural walk, in layout offset and rewritten offset |
| `LayoutIndexing.IndexBetweenArrays` | src/PointerAnalysis/Models/MemoryModel/FieldSensitive/Layout/Layouts.cpp:29-68 | the loop computes that arithmetic |
| `LayoutIndexing.IndexArray` | src/PointerAnalysis/Models/MemoryModel/FieldSensitive/Layout/Layouts.cpp:194-204 | all elements of an array are indexed as one |
| `LayoutIndexing.SubArraysInOrder` | src/PointerAnalysis/Models/MemoryModel/FieldSensitive/Layout/ArrayLayout.h:34-60 | the sub-array map of a type is ordered, free of overlap, and loses exactly the bytes the type loses |
| `LayoutManagers.IndexPhysicalOffset` | src/PointerAnalysis/Models/MemoryModel/FieldSensitive/Layout/Layouts.cpp:110-123 | inside the type the structural walk; outside it fails, except that a layout without arrays returns the offset: the result is below the layout size iff the offset is inside |
| `Layouts.WalkBounds` | src/PointerAnalysis/Models/MemoryModel/FieldSensitive/Layout/Layouts.cpp:29-68 | the layout offset is below the maximum and the rewritten offset has every array index zeroed |
| `Layouts.WalkTwice` | src/PointerAnalysis/Models/MemoryModel/FieldSensitive/Layout/Layouts.cpp:59-62 | indexing again changes nothing |
| `Layouts.WalkIncreases` | src/PointerAnalysis/Models/MemoryModel/FieldSensitive/Layout/MemLayout.h:54-57 | layout offsets are strictly increasing on offsets without array indices |
| `Layouts.WalkOnto` | src/PointerAnalysis/Models/MemoryModel/FieldSensitive/Layout/MemLayout.h:54-57 | every layout offset below the maximum is reached |
| `Layouts.WalkElement` | src/PointerAnalysis/Models/MemoryModel/FieldSensitive/Layout/Layouts.cpp:194-204 | every element of an array is walked as the first one |
| `Layouts.WalkField` | src/PointerAnalysis/Models/MemoryModel/FieldSensitive/Layout/MemLayoutManager.h:162-204 | inside a field the walk of a struct is the walk of the field, moved to its offset |
| `LayoutManagers.MemLayoutManager.DFSTypeTree` | src/PointerAnalysis/Models/MemoryModel/FieldSensitive/Layout/MemLayoutManager.h:209-244 | the layout of the type, cached or new, with both sizes |
| `LayoutManagers.MemLayoutManager.GetStructLayout` | src/PointerAnalysis/Models/MemoryModel/FieldSensitive/Layout/MemLayoutManager.h:162-204 | fields and padding in order: elements, pointers, sub-arrays and sizes of the struct |
| `LayoutManagers.MemLayoutManager.GetCollapsedArrayLayout` | src/PointerAnalysis/Models/MemoryModel/FieldSensitive/Layout/MemLayoutManager.h:92-121 | one array holding the sub-arrays of its element |
| `LayoutManagers.MemLayoutManager.SetFieldLayout` | src/PointerAnalysis/Models/MemoryModel/FieldSensitive/Layout/MemLayoutManager.h:42-90 | the parts of a field are moved to the current offsets and both offsets advance |
| `LayoutManagers.MemLayoutManager.SetArrayElement` | src/PointerAnalysis/Models/MemoryModel/FieldSensitive/Layout/Layouts.cpp:140-142 | the sub-arrays of the element go into the array itself |
| `LayoutManagers.MergeSubArrays` | src/PointerAnalysis/Models/MemoryModel/FieldSensitive/Layout/Layouts.cpp:125-148 | inserting shifted sub-arrays into the ordered map appends them: no key is taken already |
| `LayoutManagers.ElementIsLeaf` | src/PointerAnalysis/Models/MemoryModel/FieldSensitive/Layout/MemLayoutManager.h:65-88 | a layout offset is an element (a pointer) iff a primitive or pointer (a pointer) of the type starts at the physical offset |
| `LayoutManagers.LeafField` | src/PointerAnalysis/Models/MemoryModel/FieldSensitive/Layout/MemLayoutManager.h:42-90 | what starts in a field of a struct is what starts in the type of the field |
| `LayoutManagers.LeafElement` | src/PointerAnalysis/Models/MemoryModel/FieldSensitive/Layout/MemLayoutManager.h:92-121 | what starts in an element of an array is what starts in the element type |
| `MemBlocks.Lookups` | src/PointerAnalysis/Models/MemoryModel/FieldSensitive/MemBlock.h:335-367 | over any sequence of lookups an object is found iff a field starts there, two lookups give the same object iff the offsets agree once array indices are zeroed, and the stored offset does not depend on the order |
| `MemBlocks.AggregateMemBlock.IndexMemoryBlock` | src/PointerAnalysis/Models/MemoryModel/FieldSensitive/MemBlock.h:335-367 | one lookup: the object of the slot, created if needed; objects already there stay |
| `MemBlocks.AggregateMemBlock.constructor` | src/PointerAnalysis/Models/MemoryModel/FieldSensitive/MemBlock.h:378-389 | one empty slot for every element |
| `MemBlocks.CacheIntoBitVector` | src/PointerAnalysis/Models/MemoryModel/FieldSensitive/Layout/MemLayout.h:70-87 | elements get their rank, all other offsets -1 |
| `MemBlocks.RankOrder` | src/PointerAnalysis/Models/MemoryModel/FieldSensitive/Layout/MemLayout.h:80-85 | the logical index is order preserving and stays below the number of slots |
| `MemBlocks.RankOnto` | src/PointerAnalysis/Models/MemoryModel/FieldSensitive/Layout/MemLayout.h:80-85 | every slot belongs to an element |
| `MemBlocks.GetLogicalOffset` | src/PointerAnalysis/Models/MemoryModel/FieldSensitive/Layout/MemLayout.h:101-109 | the rank of an element, -1 for everything else |
| `GepSplitting.SplitMeans` | src/PreProcessing/Passes/CanonicalizeGEPPass.cpp:55-137 | the emitted chain computes the address and type of the instruction it replaces, for every type, index list and valuation |
| `GepSplitting.SplitVariableGep` | src/PreProcessing/Passes/CanonicalizeGEPPass.cpp:62-129 | the loop emits the specified chain, which has the meaning of the original instruction and the required form of its variable indices |
| `GepSplitting.SplitForms` | src/PreProcessing/Passes/CanonicalizeGEPPass.cpp:90-118 | every emitted instruction with a variable index has the shape {v} or {0, v} |
| `GepSplitting.SplitStepForms` | src/PointerAnalysis/Models/MemoryModel/FieldSensitive/Layout/Util.cpp:29-55 | everything emitted meets the assertions of the step size iff no run of constants mixes an undefined index with others, one zero before it excepted |
| `GepSplitting.NoUndefRunsOk` | src/PointerAnalysis/Models/MemoryModel/FieldSensitive/Layout/Util.cpp:29-55 | without undefined indices the assertions always hold |
| `GepSplitting.UndefBreaksForm` | src/PointerAnalysis/Models/MemoryModel/FieldSensitive/Layout/Util.cpp:34-44 | a counterexample: an undefined index after a constant other than zero |
| `GepSplitting.GetGepStepSize` | src/PointerAnalysis/Models/MemoryModel/FieldSensitive/Layout/Util.cpp:29-55 | the size of the type the variable indexes, nothing for an undefined index |
| `GepSplitting.StepIsStride` | src/PointerAnalysis/Models/MemoryModel/FieldSensitive/Layout/Util.cpp:48-51 | the step size is the distance between addresses for neighbouring values of the variable |

## Left out

- Offset and special constraints: they depend on the instruction attached to a node.
- Immutable nodes: all nodes are mutable.
- Function pointers: resolving them is represented by an arbitrary batch of requests after each run.
- Join matching: the thread a join was matched with is given by a map, whatever heuristic found it.
- Event contexts: the context is carried along as the code does, nothing is claimed about it.
- OpenMP runtime policy: hooks are an arbitrary sequence of decisions that skip code, append joins or set a skip target.
- Further filters of the race check (thread-local data, aliasing, OpenMP loops and sections): not part of this model.
- Uncollapsed array layouts, zero-sized types, unbounded arrays, special-type callbacks and `isArrayExistAtOffset`: not part of this model.
- Expansion of nested constant expressions before the GEP split: indices are constants, undefined values or variables.
- GepSplitting.SplitVariableGep: one instruction on values; replacing the uses of the old instruction in its function is not represented.
- LayoutManagers.MemLayoutManager.DFSTypeTree: zero-sized aggregates, which get a layout with one element at offset zero, are excluded, because elements would overlap; layouts are values, so that sub-array objects are shared between layouts is not represented.
- HappensBeforeGraphs.LowerBound: a linear search stands for the binary search of the standard library.
- Printing, logging, command line, JSON output, source locations, deduplication of reports, preprocessing other than the GEP split.
