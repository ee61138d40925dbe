# Ufora: verified models of the algorithmic cores

Dafny models of the parts of the repository whose correctness is not visible from reading one function. Each model
follows the source branch by branch: what changes objects in place is a class with the same fields and loops, and its
methods are proved against functions and invariants about which the lemmas speak. `dafny verify dfyconfig.toml` checks
everything.

- **Strongly connected components** (`StronglyConnectedComponents.dfy`, `Reachability.dfy`): the recursive Tarjan
  search of pyfora, for arbitrary finite graphs.
- **The recompute engine** (`DependencyGraph*.dfy`): mutables and computed properties that discover their dependencies
  by reading, a queue of dirty properties by level, and any number of inverse indexes built on the same engine. A
  computation is a reading tree, of any finite length on every path: it returns a value, or reads a cell and continues.
  `State` describes the steps as functions, `Invariant` what holds between them, `Steps` and `Cleaning` that reading,
  notifying and cleaning keep it, `Progress` why draining ends and what it has computed, `Levels` at which level
  cleaning and queueing happen, `Clients` what client code may do, `DependencyGraph` is the mutable object, and
  `Examples` runs it.
- **Priority propagation** (`ComputationPriorities.dfy`, `ComputationGraph*.dfy`, `ComputationDependencyGraph.dfy`): the
  chaotic iteration that gives computations their priorities, with the priority order of the source, 64-bit depths
  included.
- **The offset allocator** (`SimpleMemoryAllocator.dfy`): best fit with coalescing over three maps, in 64-bit words.
- **Two reordering protocols** (`MultiChannel.dfy`, `ChannelDemuxer.dfy`): one numbered stream over several FIFO
  channels with an express channel, and numbered messages arriving in any order over a transport.
- **The argument quoting** of `list2cmdline` (`CommandLine.dfy`), against a reader for the rules in its documentation.
- **The object walk** (`PyObjectGraph.dfy`, `PyObjectOrder.dfy`, `PyObjectReading.dfy`, `PyObjectWalker.dfy`,
  `ObjectRegistry.dfy`, `PyObjectMirror.dfy`): how a cyclic, shared graph of live objects becomes registry entries, and
  the dependency graph computed from them, over a registry shared by many walks.
- **The heap accounting** (`MemoryHeap.dfy`) over an abstract mspace.

`Collections.dfy` holds what several modules need about sets and sums.

The main results, each over every input, state or run:

- `StronglyConnectedComponents.Compute`: the tuples are the strongly connected components, in reverse topological order.
- `DependencyGraph.Graph.Recompute`, `DependencyGraphProgress.DrainedIsCurrent`, `SameOutcome`: draining ends with every
  started property equal to its computation and every index exact, and the outcome does not depend on the history.
- `ComputationDependencyGraph.Graph.Update`, `UrgencyIsUpperBound`, `DepthIsUpperBound`, `UrgencyIsRequested`,
  `SettledGraphSays`: the iteration ends with every priority right, which is the greatest that any client's request
  leads to.
- `SimpleMemoryAllocator.TakeKeeps`, `ReleaseKeeps`, `DeterminedByUsed`, `FitsIffFreeRun`: the blocks tile the memory, the
  free structures follow from the allocated ones, and a block fits exactly when a free run of that length exists.
- `MultiChannel.RunIsValid`, `OnceAndOnlyOnce`, `ChannelsKeepTheirOrder`, `DispatchedInTurn`, `NothingHeldAtRestIff`:
  delivery once, in the order of each channel, out of turn on channel 0 only, with nothing held in the end, over every
  interleaving.
- `ChannelDemuxer.ReceivedKeeps`, `SettledIffNeverOverflows`, `NeverOverflowsIffSmall`, `ArrivalOrderDoesNotMatter`,
  `EndToEnd`: a prefix of the stream is written, whatever the order of arrival, and when exactly all of it is.
- `CommandLine.RoundTrip`, `LinesAreDistinct`: the quoted line is read back as the same arguments.
- `PyObjectMirror.WalkAndComputeGraph`, `DefineAll`, `PyObjectReading.ImageTells`: over a registry with any earlier
  contents, every entry reads back as its object, and ids and dependencies mirror the objects and their references, and
  stay so; the walk succeeds exactly when the depth-first walk of the object graph does, for classes that name their
  bases if and only if no reached object raises.
- `MemoryHeap.Heap.Realloc`, `Malloc`, `Free`: contents survive, and both sums stay exact.

Conventions: objects of one class whose fields are reached by pointer in the source are gathered in maps by identifier
where one operation touches many of them (the properties of the recompute engine, the Python objects of the walker).
Ranks, heights, snapshots and similar parameters are ghost: they appear in proofs only. Iteration over a set or a
dictionary picks elements in an arbitrary order. Exceptions and failed assertions are results (`ok`, `None`, `Raised`)
where the source lets them happen; where the source asserts something of its callers it is a precondition.

Where the code does less than its surroundings suggest, the model keeps the code. The exact condition under which the
expected property holds is proved, and a concrete run or input on which it fails is given:

- Rounding an allocation request up can wrap around the word; the allocator stays consistent if and only if it does not
  (`TakeRoundedKeepsIff`; `WrapExample`).
- Dropping a computation root erases its priority; the next update restores the priorities of all roots if and only if
  the dropped root was already queued or no client prioritises it (`DropThenUpdateSettlesIff`; `DroppedRootRun`).
- `checkInternalState` looks at every stored priority, while `update` settles the splits that are registered or queued:
  after an update the check passes if and only if the stored splits that are no longer registered agree with their roots
  (`ChecksIffUnregisteredSettled`, `UpdateThenChecksIff`; `StaleSplitRun`).
- When the awaited message of a demultiplexed channel meets a backlog at the limit, the swallowed assertion leaves the
  channel stuck for good; delivery keeps up if and only if this never happens (`SettledIffNeverOverflows`,
  `OverflowStalls`; `OverflowExample`), and it does in every order of arrival if and only if the whole stream stays below
  the limit (`NeverOverflowsIffSmall`; `FirstLastOverflows`). A repeated number spoils the byte count unless the replaced
  message was empty (`RepeatedNumberMiscounts`; `RepeatedExample`).
- After the largest 32-bit ordinal the sum with one wraps to zero, and MultiChannel holds messages that are due until
  the number 0 comes round. That nothing stays held once everything has arrived is a property of all runs of `n`
  messages if and only if `n` is below 2^32 - 1 (`DueIsHeldIffLastDispatched`, `NothingHeldAtRestIff`;
  `OvertakingRunHolds`).
- A class whose bases its class statement does not name is registered only if the walk has met the bases by then, so that
  the order of the walk decides: it succeeds if and only if the depth-first order meets them in time
  (`PyObjectMirror.WalkAndComputeGraph`; `OrderDecides`).

The shallower-than comparison used when folding priorities prefers the greater tree depth among equal levels; the model
follows the code (`DepthIsUpperBound`).

## Model

| member | source | states |
|---|---|---|
| `StronglyConnectedComponents.Compute` | packages/python/pyfora/StronglyConnectedComponents.py:28-73 | for every finite graph (cycles, self loops, successors that are not keys), edges being read off the dictionary itself: the tuples are disjoint and free of repetitions, hold exactly the nodes that are keys or reachable from keys, two nodes share a tuple if and only if each reaches the other, and no edge leads from a tuple to a later one |
| `StronglyConnectedComponents.SccFinder.StrongConnect` | packages/python/pyfora/StronglyConnectedComponents.py:38-67 | a call keeps the invariant of the search and returns with the stack either as before, the component of the node emitted, or extended by nodes that still lead to an open call |
| `StronglyConnectedComponents.SccFinder.Leave` | packages/python/pyfora/StronglyConnectedComponents.py:57-67 | the end of a call whose successors are all explored: its component is emitted, or its nodes still lead to an open call |
| `StronglyConnectedComponents.SccFinder.VisitSuccessor` | packages/python/pyfora/StronglyConnectedComponents.py:48-55 | one turn of the successor loop: the low link stays the number of a stack node reachable from the node and stays a bound for every edge crossing to the stack below |
| `StronglyConnectedComponents.SccFinder.VisitNew` | packages/python/pyfora/StronglyConnectedComponents.py:49-52 | the branch for a successor not visited before: its call may be made, and its low link is taken over |
| `StronglyConnectedComponents.SccFinder.PopDownTo` | packages/python/pyfora/StronglyConnectedComponents.py:59-65 | the pop loop removes exactly what lies above the stack of the call, the node included, top first |
| `StronglyConnectedComponents.PushStarts` | packages/python/pyfora/StronglyConnectedComponents.py:39-42 | numbering and pushing a node starts an exploration in which every stack node still reaches all nodes above it and leads back to an open call |
| `StronglyConnectedComponents.SeenOnStack` | packages/python/pyfora/StronglyConnectedComponents.py:53-55 | a successor on the stack lowers the link to a number that the node reaches |
| `StronglyConnectedComponents.SeenPopped` | packages/python/pyfora/StronglyConnectedComponents.py:49-55 | a successor that was popped may be skipped without losing any bound |
| `StronglyConnectedComponents.NewSuccessor` | packages/python/pyfora/StronglyConnectedComponents.py:50-52 | after the call for a new successor the smaller of the two links is again reachable and bounds all crossing edges |
| `StronglyConnectedComponents.StaysOnStack` | packages/python/pyfora/StronglyConnectedComponents.py:57-58 | a node whose link is below its number leaves its part of the stack leading back to an open call |
| `StronglyConnectedComponents.ComponentClosed` | packages/python/pyfora/StronglyConnectedComponents.py:57-67 | when the link equals the number, no edge leaves the popped nodes except into tuples already emitted |
| `StronglyConnectedComponents.ComponentIsStronglyConnected` | packages/python/pyfora/StronglyConnectedComponents.py:57-67 | the nodes above the stack of the call are exactly the nodes mutually reachable with any one of them: a maximal component |
| `StronglyConnectedComponents.FinishTopological` | packages/python/pyfora/StronglyConnectedComponents.py:25-26 | appending a component keeps the list in reverse topological order |
| `StronglyConnectedComponents.PopsComponent` | packages/python/pyfora/StronglyConnectedComponents.py:58-67 | emitting the component keeps the invariant and restores the stack of the caller |
| `StronglyConnectedComponents.AllFinished` | packages/python/pyfora/StronglyConnectedComponents.py:69-73 | with no call open, exactly the nodes reachable from keys are in tuples |
| `DependencyGraph.Graph.Recompute` | ufora/core/DependencyGraph.cpp:39-70 | ends from every valid state; afterwards the queue is empty, nothing is dirty, every started property has the value its computation gives on the stored values, mutables and live properties (although dependencies started on the way first returned default values), every index counts exactly its live properties, and no input was touched; the state reached and the count returned are those of taking turns on the lowest level |
| `DependencyGraph.Graph.RecomputeBelow` | ufora/core/DependencyGraph.cpp:72-103 | ends from every valid state, keeps it valid, leaves only entries at the given level or above, and took turns only below it |
| `DependencyGraph.Graph.Round` | ufora/core/DependencyGraph.cpp:45-63 | one round of either loop: a turn on the lowest level, a step of the measure that ends the loop |
| `DependencyGraph.Graph.NotifyChanged` | ufora/core/DependencyGraph.cpp:156-166 | exactly the live listeners become dirty besides what was, and the listener list is emptied |
| `DependencyGraph.Graph.Run` | ufora/core/DependencyGraph.hpp:172-194 | running a reading tree step by step is the reading function |
| `DependencyGraph.Graph.Get` | ufora/core/DependencyGraph.hpp:187-194 | what a computation is handed when it reads: the stored value of a mutable or a property, the default when there is none, and for an index slot the stored keys with their numbers |
| `DependencyGraph.Graph.Set` | ufora/core/DependencyGraph.hpp:122-129 | a write that differs from the stored value, or is forced, stores it and makes exactly the live listeners dirty; any other write changes nothing; valid states stay valid |
| `DependencyGraph.Graph.BindProperty` | ufora/core/DependencyGraph.hpp:268-279 | binding a new property whose computation ends whatever it reads, after however many reads, and reads only cells of lower rank installs it, not yet started, and keeps the state valid |
| `DependencyGraph.Graph.Peek` | ufora/core/DependencyGraph.hpp:187-194 | reading a property outside computations starts it, which makes it dirty, and returns the stored, possibly default, value |
| `DependencyGraph.Graph.constructor` | ufora/core/DependencyGraph.hpp:143-149 | a new graph is valid, holds nothing and has nothing to do, so every id can be bound |
| `DependencyGraph.Graph.Add` | ufora/core/DependencyGraph.hpp:302-328 | adding a property to an index that ranks above it and does not list it yet installs, starts and queues an updater for it under its key and keeps the counts of every index exact; a property may be in several indexes |
| `DependencyGraph.Graph.GetKeys` | ufora/core/DependencyGraph.hpp:330-334 | asking the index from outside keeps the state valid, and on a drained graph gives exactly the keys of the live properties that now have the value, with their number |
| `DependencyGraph.Graph.Update` | ufora/core/DependencyGraph.hpp:358-379 | the count of a key under a value changes by the amount; a zero count and an empty key set disappear; the readers of that value are notified |
| `DependencyGraph.Graph.DestroyProperty` | ufora/core/DependencyGraph.hpp:402-412 | destroying an unqueued property that nothing can read removes it and all its updaters, keeps the state valid and takes its key out of every index it is in, also while updaters of it are queued |
| `DependencyGraph.Graph.DropKeyProperties` | ufora/core/DependencyGraph.hpp:151-155 | the loop over what the property was told to do when destroyed takes out one record for each index it is in |
| `DependencyGraph.Graph.ChangeMinLevel` | ufora/core/DependencyGraph.hpp:201-207 | stores the least level given, raises the level of the property to it, changes no other level, and keeps every valid state valid: levels only schedule |
| `DependencyGraphSteps.RunReadingKeeps` | ufora/core/DependencyGraph.hpp:172-194 | a computation started on any valid state keeps it valid, subscribes to every cell it read, and returns its value under the current contents |
| `DependencyGraphSteps.GetCellKeeps` | ufora/core/DependencyGraph.hpp:115-120 | one read keeps the state valid and leaves the reader subscribed to a started cell |
| `DependencyGraphSteps.OnChangedKeeps` | ufora/core/DependencyGraph.cpp:156-166 | a notification keeps the state valid: whoever loses a subscription is dirty |
| `DependencyGraphSteps.WriteKeeps` | ufora/core/DependencyGraph.hpp:122-129 | storing a new value and notifying keeps the state valid |
| `DependencyGraphCleaning.UpdateKeysetAdjusts` | ufora/core/DependencyGraph.hpp:358-379 | an index update changes exactly one count by the amount and leaves no zero count |
| `DependencyGraphCleaning.ReindexKeeps` | ufora/core/DependencyGraph.hpp:392-397 | moving a key keeps each count equal to the number of updaters recording it |
| `DependencyGraphCleaning.RunUpdaterKeeps` | ufora/core/DependencyGraph.hpp:381-400 | after an updater ran it is subscribed to its property and its record is the value it read |
| `DependencyGraphCleaning.MakeCleanKeeps` | ufora/core/DependencyGraph.hpp:172-185 | after makeClean the stored value is what the computation means on the current contents |
| `DependencyGraphCleaning.CleanKeeps` | ufora/core/DependencyGraph.cpp:132-139 | cleaning a property keeps every invariant and dirties only properties of higher rank or newly started ones |
| `DependencyGraphCleaning.CleaningSpreads` | ufora/core/DependencyGraph.hpp:172-185 | cleaning a property makes its listeners dirty exactly when its value changes, and besides them only the properties that its computation started; it is itself clean |
| `DependencyGraphProgress.WeightFalls` | ufora/core/DependencyGraph.cpp:45-63 | exchanging a dirty property for any number of dirty properties of higher rank lowers the measure |
| `DependencyGraphProgress.TurnKeeps` | ufora/core/DependencyGraph.cpp:45-63 | each turn of the loop keeps the invariants and starts a property, lowers the measure or shortens the queue, whatever the levels are |
| `DependencyGraphProgress.EmptyQueueIsDrained` | ufora/core/DependencyGraph.cpp:45-46 | when the queue is empty nothing is dirty and every started property is up to date |
| `DependencyGraphProgress.DrainedIndexIsExact` | ufora/core/DependencyGraph.hpp:330-334 | after draining, the keys listed in an index under a value are exactly those of its live properties that have it, with their number |
| `DependencyGraphProgress.SameOutcome` | ufora/core/DependencyGraph.cpp:39-70 | two drained graphs with the same definitions and inputs agree on every started property, whatever their ranks, histories, levels and orders of cleaning |
| `DependencyGraphProgress.DrainedIsCurrent` | ufora/core/DependencyGraph.cpp:39-70 | with nothing dirty every started property has the value its computation gives, where a read gives the stored mutable, the stored property value, or the live properties that have the value asked for, counted by key |
| `DependencyGraphProgress.GivesOne` | ufora/core/DependencyGraph.hpp:172-194 | a computation gives at most one value on given contents |
| `DependencyGraphProgress.ReaderOfIndex` | ufora/core/DependencyGraph.hpp:330-334 | then a property that returns an index slot holds the keys of the live properties with that value, each with its number |
| `DependencyGraphProgress.ReaderOfProperty` | ufora/core/DependencyGraph.hpp:187-194 | and a property that returns a function of another one holds that function of its stored value |
| `DependencyGraphLevels.CleanedLevel` | ufora/core/DependencyGraph.hpp:172-185 | a cleaned property ends just above the highest level among the cells it read, but no lower than its least level; no other level changes |
| `DependencyGraphLevels.CleanedUpdaterLevel` | ufora/core/DependencyGraph.hpp:381-400 | an index updater ends just above its property, but no lower than its least level |
| `DependencyGraphLevels.MarkedAtLevel` | ufora/core/DependencyGraph.cpp:123-166 | what a notification makes dirty is queued at its level |
| `DependencyGraphClients.SetMutableKeeps` | ufora/core/DependencyGraph.hpp:122-129 | writes between recomputes keep the invariants |
| `DependencyGraphClients.BindPropertyKeeps` | ufora/core/DependencyGraph.hpp:268-279 | so does binding |
| `DependencyGraphClients.GetPropertyKeeps` | ufora/core/DependencyGraph.hpp:187-194 | so does a read from outside |
| `DependencyGraphClients.IndexAddKeeps` | ufora/core/DependencyGraph.hpp:302-328 | so does adding to the index |
| `DependencyGraphClients.DestroyKeeps` | ufora/core/DependencyGraph.hpp:402-412 | so does destroying a property: dead subscriptions stay behind in listener lists, and the entry of a queued updater in the queue, until its turn skips it |
| `DependencyGraphClients.SetMutableSays` | ufora/core/DependencyGraph.hpp:122-129 | a write, forced or different from what is stored, stores the value and makes exactly the live listeners dirty; any other write changes nothing |
| `DependencyGraphClients.DestroySays` | ufora/core/DependencyGraph.hpp:402-412 | destroying a property removes exactly it and its index updaters |
| `DependencyGraphExamples.AddOneScenario` | ufora/core/DependencyGraph.test.cpp:44-69 | the basic run of the repository's own test on a new graph: the default before the first recompute, then 11, still 11 after the mutable changed, and 21 after the next recompute |
| `DependencyGraphExamples.IndexScenario` | ufora/core/DependencyGraph.test.cpp:145-189 | a property in an index is listed once under its value after a recompute, and no longer once it is destroyed |
| `DependencyGraphExamples.EarlyDestroyScenario` | ufora/core/DependencyGraph.hpp:302-328 | so it is not listed when it is destroyed at once, its updater still queued |
| `DependencyGraphExamples.SweepEnds` | ufora/core/DependencyGraph.hpp:268-279 | reading an index entry and then one cell for each thing listed there, however many, is a computation that can be bound |
| `ComputationDependencyGraph.Graph.Update` | ufora/cumulus/ComputationDependencyGraph.cpp:171-265 | on acyclic dependencies: ends, leaves every stored root the priority computed for it and, in runs that drop a root only once no client prioritises it, every root and every registered split its own; every split that was waiting, registered or not, gets what is computed for it; every id whose stored priority differs from before is in the full output, where a split is listed only if its stored priority differs and a root only if a root dirty before the call leads to it, and the local output is the intersection with the local computations; in such runs a root is at least as urgent as every root with an edge to it, and at least one level deeper where equally urgent (a circular one makes it circular), and every registered split has the source, level and tree depth of its root |
| `ComputationDependencyGraph.Graph.PropagateRoots` | ufora/cumulus/ComputationDependencyGraph.cpp:181-242 | the outer loop ends and never takes the branch that declares roots circular |
| `ComputationDependencyGraph.Graph.PassOnce` | ufora/cumulus/ComputationDependencyGraph.cpp:183-222 | a pass settles the dirty roots of least height, so the next dirty set is higher, or the same one with those roots settled |
| `ComputationDependencyGraph.Graph.RunPass` | ufora/cumulus/ComputationDependencyGraph.cpp:187-217 | the inner loop ends with every root outside the new dirty set settled |
| `ComputationDependencyGraph.Graph.CheckRoot` | ufora/cumulus/ComputationDependencyGraph.cpp:189-216 | one turn of the inner loop keeps what the loop keeps, and a root leaves the roots to check or joins the next dirty set |
| `ComputationDependencyGraph.Graph.PropagateSplits` | ufora/cumulus/ComputationDependencyGraph.cpp:244-264 | in runs that keep every root settled or pending, every registered split has the adjusted priority of its root afterwards, and what differs from before is recorded |
| `ComputationDependencyGraph.Graph.ComputePriorityFor` | ufora/cumulus/ComputationDependencyGraph.cpp:299-329 | a root gets the greatest of the adjusted priorities of its clients and parents, a split that of its root adjusted by its depth |
| `ComputationDependencyGraph.Graph.ComputeRootPriority` | ufora/cumulus/ComputationDependencyGraph.cpp:305-328 | the two loops together find the greatest candidate, in whatever order they visit |
| `ComputationDependencyGraph.Graph.FoldClients` | ufora/cumulus/ComputationDependencyGraph.cpp:307-316 | the loop over the clients finds their greatest adjusted priority |
| `ComputationDependencyGraph.Graph.FoldParents` | ufora/cumulus/ComputationDependencyGraph.cpp:318-326 | the loop over the parents takes theirs in |
| `ComputationDependencyGraph.Graph.SetCumulusClientPriority` | ufora/cumulus/ComputationDependencyGraph.cpp:41-61 | the priority given (a circular one without split depth) is stored for this client and root, or withdrawn when it is null, no other is touched, the root becomes dirty, and every invariant is kept |
| `ComputationDependencyGraph.Graph.AddRootToRootDependency` | ufora/cumulus/ComputationDependencyGraph.cpp:63-74 | the edge from the first to the second root is stored, the second becomes dirty when the edge is new, and every invariant is kept |
| `ComputationDependencyGraph.Graph.DropCumulusClient` | ufora/cumulus/ComputationDependencyGraph.cpp:76-90 | every priority the client had set is gone, no other is, the roots it had registered on become dirty, and every invariant is kept |
| `ComputationDependencyGraph.Graph.SetDependenciesOf` | ufora/cumulus/ComputationDependencyGraph.cpp:92-124 | the computation depends on exactly the ids given and other computations on what they did before; a split is an orphan afterwards exactly if it was one or has just lost its last dependent, and is not among the ids given; the computation and its new dependencies are registered; every invariant is kept |
| `ComputationDependencyGraph.Graph.CollectOrphans` | ufora/cumulus/ComputationDependencyGraph.cpp:104-112 | exactly the dropped splits with no other dependent become orphans, the local ones also local orphans |
| `ComputationDependencyGraph.Graph.MarkComputationLocal` | ufora/cumulus/ComputationDependencyGraph.cpp:131-138 | the id is local and registered, and the local orphans stay the orphans that are local |
| `ComputationDependencyGraph.Graph.MarkComputationNonlocal` | ufora/cumulus/ComputationDependencyGraph.cpp:140-144 | the id is no longer local, and the local orphans stay the orphans that are local |
| `ComputationDependencyGraph.Graph.Drop` | ufora/cumulus/ComputationDependencyGraph.cpp:146-169 | the computation is gone from the stored priorities, the relations, the local ids and the orphans, what clients asked for stays, and what it leads to becomes dirty; validity is kept always, and completeness when no client prioritises the dropped root |
| `ComputationDependencyGraph.Graph.ClientsRequesting` | ufora/cumulus/ComputationDependencyGraph.cpp:416-439 | ends on any dependency relation and adds exactly the clients registered on a root from which the root of the id is reachable |
| `ComputationDependencyGraph.Graph.CheckInternalState` | ufora/cumulus/ComputationDependencyGraph.cpp:381-409 | answers true exactly when every stored priority is the computed one and every root with dependencies but no stored priority has none to store |
| `ComputationPriorities.DiffersIsInequality` | ufora/cumulus/ComputationPriority.hppml:159-167 | on priorities as update stores them, the comparison built from the order is plain inequality |
| `ComputationPriorities.GreatestIsUnique` | ufora/cumulus/ComputationPriority.hppml:134-157 | a fold with isShallower over dependent-adjusted priorities has one possible result |
| `ComputationGraphState.HeightGrows` | ufora/cumulus/ComputationDependencyGraph.cpp:187-217 | along a root-to-root edge of an acyclic relation the number of ancestors grows |
| `ComputationGraphPasses.CheckCoversAll` | ufora/cumulus/ComputationDependencyGraph.cpp:193-210 | checking one root leaves no unsettled root outside the roots to check and the new dirty set |
| `ComputationGraphPasses.CheckKeepsLowest` | ufora/cumulus/ComputationDependencyGraph.cpp:193-210 | checking cannot unsettle the dirty roots of least height again |
| `ComputationGraphPasses.PassAdvances` | ufora/cumulus/ComputationDependencyGraph.cpp:219-227 | after a pass that leaves the dirty set unchanged, the next one cannot |
| `ComputationGraphPasses.CheckSpreads` | ufora/cumulus/ComputationDependencyGraph.cpp:193-216 | checking touches only roots that the originally dirty roots lead to |
| `ComputationGraphPasses.SplitStepRecorded` | ufora/cumulus/ComputationDependencyGraph.cpp:251-262 | the splits recorded stay exactly those whose stored priority changed |
| `ComputationGraphPasses.SplitStep` | ufora/cumulus/ComputationDependencyGraph.cpp:251-262 | settling one waiting split keeps every other split settled or waiting, and the recorded changes exact |
| `ComputationGraphClients.SetDependenciesKeeps` | ufora/cumulus/ComputationDependencyGraph.cpp:92-124 | every orphaned split stays a split on which nothing depends, and no step restoring a dependency leaves it orphaned |
| `ComputationGraphClients.SetDependenciesSays` | ufora/cumulus/ComputationDependencyGraph.cpp:92-124 | afterwards the computation depends on exactly the ids given, and exactly the splits that were orphans or lost their last dependent, and are not among them, are orphans |
| `ComputationGraphClients.DropKeepsCompleteIff` | ufora/cumulus/ComputationDependencyGraph.cpp:146-169 | dropping keeps every root settled or pending if and only if, before the drop, the id is a split, is marked dirty, leads to itself, or no client prioritises it |
| `ComputationGraphClients.DroppedRootSettled` | ufora/cumulus/ComputationDependencyGraph.cpp:146-169 | the dropped root is left with the right (absent) priority if and only if no client and no remaining parent gives it one |
| `ComputationGraphMeaning.UrgencyIsUpperBound` | ufora/cumulus/ComputationDependencyGraph.cpp:299-329 | in a settled acyclic graph a root is at least as urgent as every client priority on a root that leads to it |
| `ComputationGraphMeaning.DepthIsUpperBound` | ufora/cumulus/ComputationDependencyGraph.cpp:299-329 | no path from a root requested with that urgency gives a greater depth: among equally urgent requests the fold prefers the deeper |
| `ComputationGraphMeaning.UrgencyIsRequested` | ufora/cumulus/ComputationDependencyGraph.cpp:299-329 | and exactly as urgent as one of them, its depth being that client priority and one more for each root on some path from there, up to the circular depth |
| `ComputationGraphMeaning.NullIffNotRequested` | ufora/cumulus/ComputationDependencyGraph.cpp:299-329 | so it has no priority if and only if no client requests it, directly or through others |
| `ComputationGraphMeaning.ChecksIffUnregisteredSettled` | ufora/cumulus/ComputationDependencyGraph.cpp:381-409 | in a complete state with nothing dirty the internal check passes if and only if the stored splits no longer registered under their roots agree with them; so it passes whenever every stored split is registered |
| `ComputationGraphMeaning.UpdateThenChecksIff` | ufora/cumulus/ComputationDependencyGraph.cpp:171-265 | the check after the update of a complete state passes if and only if every stored split that was neither registered nor waiting before the update already had the priority its root now calls for |
| `ComputationGraphMeaning.WaitingSplitsSettle` | ufora/cumulus/ComputationDependencyGraph.cpp:244-264 | an update of a complete state leaves every split that was waiting in agreement with its root |
| `ComputationGraphMeaning.DropThenUpdateSettlesIff` | ufora/cumulus/ComputationDependencyGraph.cpp:146-169 | the update after a drop restores the priorities of all roots if and only if the dropped root was dirty or no client prioritised it; otherwise the dropped root is left without the priority it should have |
| `ComputationGraphMeaning.SettledGraphSays` | ufora/cumulus/ComputationDependencyGraph.cpp:299-329 | in a complete state with nothing dirty a root is at least as urgent as every root with an edge to it, and at least one level deeper where equally urgent (a circular one makes it circular); every registered split has the source, level and tree depth of its root and its own split depth |
| `ComputationGraphMeaning.SettledSplitInherits` | ufora/cumulus/ComputationDependencyGraph.cpp:299-303 | a split is settled if and only if it has the source, level and tree depth of its root and its own split depth, or takes over as it is a priority without level or a circular one |
| `ComputationGraphRuns.EdgeRun` | ufora/cumulus/ComputationDependencyGraph.cpp:171-265 | a run on a new graph, with a client on the first root and an edge to the second: the first ends at the level asked for with depth 1, the second at the same level with depth 2 |
| `ComputationGraphRuns.StaleSplitRun` | ufora/cumulus/ComputationDependencyGraph.cpp:381-409 | a run that ends with a failing internal check: a root is dropped while its split stays stored, and is prioritised afterwards |
| `ComputationGraphRuns.DroppedRootRun` | ufora/cumulus/ComputationDependencyGraph.cpp:146-169 | a run that ends with a prioritised root whose priority is missing: it was dropped while a client prioritised it |
| `SimpleMemoryAllocator.Allocator.constructor` | ufora/core/SimpleMemoryAllocator.cpp:18-27 | one free block covers everything |
| `SimpleMemoryAllocator.Allocator.Allocate` | ufora/core/SimpleMemoryAllocator.cpp:29-67 | fails exactly when no free block is as long as the rounded request; otherwise takes the lowest of the smallest sufficient blocks; validity is lost exactly when rounding up wraps around the machine word; only the block returned is added, and short of wrapping it is the request up to the next multiple of the alignment |
| `SimpleMemoryAllocator.Allocator.FindBestFit` | ufora/core/SimpleMemoryAllocator.cpp:39-45 | finds the smallest sufficient block, the lowest on ties, if there is one |
| `SimpleMemoryAllocator.Allocator.FreeAtOffset` | ufora/core/SimpleMemoryAllocator.cpp:69-112 | an allocated offset is released and merged, any other is refused, the total size is ignored |
| `SimpleMemoryAllocator.Allocator.Glom` | ufora/core/SimpleMemoryAllocator.cpp:76-111 | the two merging steps compute the release |
| `SimpleMemoryAllocator.Allocator.MaxAllocatableBlockSize` | ufora/core/SimpleMemoryAllocator.cpp:114-119 | the length of a longest free block, zero if there is none |
| `SimpleMemoryAllocator.Allocator.CheckInternalConsistency` | ufora/core/SimpleMemoryAllocator.cpp:122-195 | no assertion of the check fails in a valid state |
| `SimpleMemoryAllocator.Allocator.CheckUsedBlocks` | ufora/core/SimpleMemoryAllocator.cpp:131-151 | the loop over allocated neighbours finds each gap to be one free block, and sums the sizes |
| `SimpleMemoryAllocator.Allocator.CheckFreeBlocks` | ufora/core/SimpleMemoryAllocator.cpp:154-189 | the loop over free neighbours finds them apart, with recorded upper bounds, and sums the sizes |
| `SimpleMemoryAllocator.TakeKeeps` | ufora/core/SimpleMemoryAllocator.cpp:47-64 | taking from a free block keeps the blocks tiling the memory without overlap, no two free blocks touching, and the upper bounds the exact inverse of the free ends |
| `SimpleMemoryAllocator.ReleaseKeeps` | ufora/core/SimpleMemoryAllocator.cpp:76-111 | so does releasing a block |
| `SimpleMemoryAllocator.DeterminedByUsed` | ufora/core/SimpleMemoryAllocator.cpp:18-112 | the free structures are a function of the allocated map |
| `SimpleMemoryAllocator.TakeThenRelease` | ufora/core/SimpleMemoryAllocator.cpp:29-112 | allocating and then freeing restores the state exactly |
| `SimpleMemoryAllocator.ReleasesCommute` | ufora/core/SimpleMemoryAllocator.cpp:69-112 | frees commute |
| `SimpleMemoryAllocator.NothingUsedIsInitial` | ufora/core/SimpleMemoryAllocator.cpp:18-112 | with everything freed, the state is the initial one |
| `SimpleMemoryAllocator.FitsIffFreeRun` | ufora/core/SimpleMemoryAllocator.cpp:38-42 | a free block is long enough if and only if some run of that many unallocated bytes exists |
| `SimpleMemoryAllocator.FitsIffAtMostLargest` | ufora/core/SimpleMemoryAllocator.cpp:114-119 | equivalently, if the size does not exceed the longest free block |
| `SimpleMemoryAllocator.TakeRoundedKeepsIff` | ufora/core/SimpleMemoryAllocator.cpp:34-66 | a successful allocation keeps the state valid if and only if rounding did not wrap |
| `SimpleMemoryAllocator.WrapExample` | ufora/core/SimpleMemoryAllocator.cpp:34-42 | a request one below the word size, with alignment 8, rounds to nothing and breaks the state |
| `SimpleMemoryAllocator.SizesAddUp` | ufora/core/SimpleMemoryAllocator.cpp:191-194 | allocated and free sizes add up to the total |
| `SimpleMemoryAllocator.GapIsFree` | ufora/core/SimpleMemoryAllocator.cpp:137-150 | between allocated neighbours lies nothing or exactly one free block |
| `SimpleMemoryAllocator.FreeNeighbours` | ufora/core/SimpleMemoryAllocator.cpp:161-187 | free neighbours never touch, and each ends at an allocated block or at the top |
| `MultiChannel.Endpoint.Write` | ufora/networking/MultiChannel.hpp:81-89 | a message gets the next 32-bit ordinal, with wrap-around, and is written at the end of the selected channel only |
| `MultiChannel.Endpoint.IncomingMessageOnChannel` | ufora/networking/MultiChannel.hpp:171-198 | a message on channel 0, or numbered at most one above the greatest ordinal dispatched, is dispatched at once, and with it the held messages that it releases; any other is held and nothing is dispatched |
| `MultiChannel.Endpoint.DispatchDelayedMessages` | ufora/networking/MultiChannel.hpp:224-248 | the loop dispatches held messages while the least is at most one above the last |
| `MultiChannel.ReceiveKeepsOrder` | ufora/networking/MultiChannel.hpp:171-224 | every arrival, in any interleaving, keeps the messages of each channel in order and ahead of those held |
| `MultiChannel.ReceiveLeavesGap` | ufora/networking/MultiChannel.hpp:226-248 | after every arrival the next ordinal to be dispatched is not held |
| `MultiChannel.ReceiveConserves` | ufora/networking/MultiChannel.hpp:171-248 | an arrival is held or dispatched once, and nothing else is lost or copied |
| `MultiChannel.RunIsValid` | ufora/networking/MultiChannel.hpp:81-248 | all of this holds after every run of sends and deliveries over FIFO channels, below 2^32 - 1 messages |
| `MultiChannel.OnceAndOnlyOnce` | ufora/networking/MultiChannel.hpp:171-248 | every message sent is travelling, held or dispatched, in exactly one of these ways, and dispatched at most once |
| `MultiChannel.DispatchedInTurn` | ufora/networking/MultiChannel.hpp:191-248 | in every reached state a dispatched message that did not come on channel 0 has an ordinal at most one above the greatest dispatched before it |
| `MultiChannel.ReceiveSays` | ufora/networking/MultiChannel.hpp:171-224 | an arrival on channel 0, or in turn, is dispatched next; any other is held while nothing is dispatched; either way the arrivals are those before and this one |
| `MultiChannel.HeldWaitsForTheNext` | ufora/networking/MultiChannel.hpp:208-224 | while a message is held, the message just above the greatest dispatched ordinal has been sent and has not arrived |
| `MultiChannel.EmptyChannelsMeanAllDispatched` | ufora/networking/MultiChannel.hpp:226-248 | once everything sent has arrived nothing is held, and exactly the messages sent have been dispatched |
| `MultiChannel.ChannelsKeepTheirOrder` | ufora/networking/MultiChannel.hpp:171-248 | the dispatched messages of a channel are the first ones sent on it, in order of sending |
| `MultiChannel.NoUrgentTrafficKeepsTheOrder` | ufora/networking/MultiChannel.hpp:208-224 | without channel-0 traffic the messages dispatched are the first ones sent, in order |
| `MultiChannel.DueIsHeldIffLastDispatched` | ufora/networking/MultiChannel.hpp:208-224 | a message on another channel numbered at most one above the greatest dispatched ordinal is held if and only if that ordinal is the largest of the word, where the sum with one wraps |
| `MultiChannel.AfterTheLastOrdinalAllIsHeld` | ufora/networking/MultiChannel.hpp:208-224 | once the largest ordinal has been dispatched, every numbered message on another channel is held, until the number 0 comes round |
| `MultiChannel.OvertakingRunHolds` | ufora/networking/MultiChannel.hpp:81-248 | for every number of messages from 2^32 - 1 on, a run that sends so many and delivers all of them but leaves messages held |
| `MultiChannel.NothingHeldAtRestIff` | ufora/networking/MultiChannel.hpp:226-248 | that nothing is held once everything sent has arrived holds of all runs with n messages if and only if n is below 2^32 - 1 |
| `ChannelDemuxer.Demuxer.OnMessageReceived` | ufora/networking/ChannelDemuxer.py:113-172 | a message for a known channel changes that channel by the arrival step and no other; a closed channel leaves the table; a message for an unknown one is counted and changes nothing else |
| `ChannelDemuxer.Demuxer.DrainMessageBacklog` | ufora/networking/ChannelDemuxer.py:175-202 | the loop writes consecutive messages, and an empty one disconnects the channel and is not counted |
| `ChannelDemuxer.Demuxer.Register` | ufora/networking/ChannelDemuxer.py:205-207 | a new channel enters the table under an unused identifier, which keeps the demuxer valid |
| `ChannelDemuxer.Demuxer.ChannelThread` | ufora/networking/ChannelDemuxer.py:208-230 | what is read is sent in order under consecutive numbers, followed by one empty message exactly when the channel is still in the table, that is, closed from this side |
| `ChannelDemuxer.ArriveKeeps` | ufora/networking/ChannelDemuxer.py:113-142 | every arrival of a new number keeps what is written, the backlog and the byte count exact; delivery falls behind exactly when the awaited message meets a backlog at the limit |
| `ChannelDemuxer.DrainKeeps` | ufora/networking/ChannelDemuxer.py:175-202 | draining leaves the awaited message absent or the channel closed |
| `ChannelDemuxer.ReceivedKeeps` | ufora/networking/ChannelDemuxer.py:113-202 | the invariant after every arrival order of distinct numbers |
| `ChannelDemuxer.WrittenIsAPrefix` | ufora/networking/ChannelDemuxer.py:113-202 | for every arrival order and any sizes, what is written is a run of non-empty messages from the start, and byteSize is the length of the backlog |
| `ChannelDemuxer.DeliversUpToTheGap` | ufora/networking/ChannelDemuxer.py:113-202 | short of the limit, exactly the messages before the first missing or empty one are written, and the channel is closed just when that one is the empty message |
| `ChannelDemuxer.SettledIffNeverOverflows` | ufora/networking/ChannelDemuxer.py:133-142 | delivery keeps up if and only if no awaited message ever met a backlog at the limit |
| `ChannelDemuxer.OverflowStalls` | ufora/networking/ChannelDemuxer.py:133-142 | once that happens nothing more is ever written |
| `ChannelDemuxer.NeverOverflowsIffSmall` | ufora/networking/ChannelDemuxer.py:133-142 | delivery keeps up in every order of arrival if and only if all messages together stay below the limit |
| `ChannelDemuxer.FirstLastOverflows` | ufora/networking/ChannelDemuxer.py:133-142 | with a stream that reaches the limit it fails when the first message is the last to arrive |
| `ChannelDemuxer.ArrivalOrderDoesNotMatter` | ufora/networking/ChannelDemuxer.py:113-202 | two arrival orders of the same messages lead to the same writes and the same state |
| `ChannelDemuxer.RepeatedNumberMiscounts` | ufora/networking/ChannelDemuxer.py:123-124 | when a waiting number arrives again the byte count stays right if and only if the message replaced was empty |
| `ChannelDemuxer.OverflowExample` | ufora/networking/ChannelDemuxer.py:133-142 | one awaited message as long as the limit is never written |
| `ChannelDemuxer.RepeatedExample` | ufora/networking/ChannelDemuxer.py:123-124 | number 1 arriving twice while number 0 is awaited: two bytes counted, one held |
| `ChannelDemuxer.EndToEnd` | ufora/networking/ChannelDemuxer.py:113-230 | for what the sending thread sends, and every order of arrival: what the receiver writes is a prefix of what the sender read, and the disconnection never overtakes data |
| `ChannelDemuxer.EndToEndComplete` | ufora/networking/ChannelDemuxer.py:113-230 | once everything has arrived all of it is written, and the channel is closed exactly when the sender closed it |
| `CommandLine.List2CmdLine` | ufora/util/SubprocessingModified.py:569-636 | the nested loops produce a line that the documented rules read back as the arguments |
| `CommandLine.RoundTrip` | ufora/util/SubprocessingModified.py:569-636 | for every list of strings, reading the written line by the five documented rules gives back the list |
| `CommandLine.LinesAreDistinct` | ufora/util/SubprocessingModified.py:569-636 | different lists never give the same line |
| `CommandLine.AppendArgument` | ufora/util/SubprocessingModified.py:602-634 | one argument is written with its separator already in place, quoted exactly when it is empty or has white space |
| `CommandLine.AppendCharacters` | ufora/util/SubprocessingModified.py:612-626 | the loop over the characters writes the text and withholds the backslashes at its end |
| `CommandLine.ReadWritten` | ufora/util/SubprocessingModified.py:574-592 | the rules read the written characters back, up to the backslashes withheld |
| `CommandLine.ReadEncoded` | ufora/util/SubprocessingModified.py:574-592 | the rules read one written argument back as one argument |
| `CommandLine.ReadLine` | ufora/util/SubprocessingModified.py:574-592 | and a whole line as its arguments, the last one still open |
| `CommandLine.QuoteFreeArgument` | ufora/util/SubprocessingModified.py:602-634 | an argument without quotation marks is written as it is, and in quotation marks, the backslashes at its end doubled, exactly when it is empty or has a blank or a tab |
| `CommandLine.QuotedIffBlank` | ufora/util/SubprocessingModified.py:602-634 | any argument is put in quotation marks exactly when it is empty or has a blank or a tab |
| `CommandLine.QuoteFreeIsCopied` | ufora/util/SubprocessingModified.py:612-626 | text without quotation marks is copied, backslashes included |
| `CommandLine.QuoteIsEscaped` | ufora/util/SubprocessingModified.py:617-622 | a quotation mark is written with a backslash, the backslashes before it doubled |
| `CommandLine.OneSpaceBetween` | ufora/util/SubprocessingModified.py:602-606 | arguments are separated by one space |
| `ObjectRegistry.Registry.ComputeDependencyGraph` | packages/python/pyfora/ObjectRegistry.py:131-134 | ends on every registry, whatever it holds; works out if and only if everything the id needs has an entry whose dependents can be told, and then returns exactly the ids reachable through the dependent ids, each with what its entry names, item by item: members, keys before values, free variables before the file, and for an instance its class, what the class depends on, and its members |
| `ObjectRegistry.Registry.PopulateGraphOfIds` | packages/python/pyfora/ObjectRegistry.py:136-142 | a call adds only ids the root needs, and everything they depend on, cycles or not; it fails only when something the root needs is missing |
| `ObjectRegistry.DependentsOfInstance` | packages/python/pyfora/ObjectRegistry.py:171-183 | the dependents of an instance are its class, what the class depends on, and its members, in this order |
| `ObjectRegistry.GraphIsStable` | packages/python/pyfora/ObjectRegistry.py:131-142 | entries made later do not change the graph of an id whose graph could be computed |
| `ObjectRegistry.ExploredIsReached` | packages/python/pyfora/ObjectRegistry.py:136-142 | a set explored from a root is what the root reaches |
| `PyObjectWalker.Walker.WalkPyObject` | packages/python/pyfora/PyObjectWalker.py:157-197 | over a registry with any earlier contents: the objects met, or the exception, are those of the depth-first walk as a function of the object graph; when the walk returns, a walked object has one id, every other object that has got an id on the way is reachable and its entry is its image, and ids given before are unchanged; earlier entries are untouched either way |
| `PyObjectWalker.Walker.constructor` | packages/python/pyfora/PyObjectWalker.py:136-149 | a new walker over a registry in use, with all its earlier entries |
| `PyObjectWalker.Walker.RegisterObject` | packages/python/pyfora/PyObjectWalker.py:199-237 | the entry made is the one for the kind of the object |
| `PyObjectWalker.Walker.RegisterBuiltinExceptionInstance` | packages/python/pyfora/PyObjectWalker.py:260-275 | the entry names the arguments by id |
| `PyObjectWalker.Walker.RegisterTuple` | packages/python/pyfora/PyObjectWalker.py:284-296 | the entry lists the ids of the members in order |
| `PyObjectWalker.Walker.RegisterList` | packages/python/pyfora/PyObjectWalker.py:298-313 | so does that of a list, but a list of primitives is stored whole and its members are not visited |
| `PyObjectWalker.Walker.RegisterDict` | packages/python/pyfora/PyObjectWalker.py:323-339 | the ids of the keys, and the ids of the values, each in the order of the items |
| `PyObjectWalker.Walker.WalkPairs` | packages/python/pyfora/PyObjectWalker.py:323-339 | the loop over the items walks each key before its value, and both lists of ids are in the order of the items |
| `PyObjectWalker.Walker.RegisterInstanceMethod` | packages/python/pyfora/PyObjectWalker.py:341-358 | the receiver by id |
| `PyObjectWalker.Walker.RegisterClassInstance` | packages/python/pyfora/PyObjectWalker.py:361-383 | the class first, and then what is known of the members |
| `PyObjectWalker.Walker.RegisterMembers` | packages/python/pyfora/PyObjectWalker.py:369-383 | an instance whose members can be told becomes an entry with its class and its members by id; one whose members cannot be told becomes unconvertible, its class keeping its id |
| `PyObjectWalker.Walker.RegisterWithBlock` | packages/python/pyfora/PyObjectWalker.py:385-465 | the resolved free variables and the source file by id |
| `PyObjectWalker.Walker.RegisterFunction` | packages/python/pyfora/PyObjectWalker.py:467-484 | the same for a function; without source text it becomes unconvertible |
| `PyObjectWalker.Walker.RegisterClass` | packages/python/pyfora/PyObjectWalker.py:486-505 | the same for a class, whose base classes must have ids by then: otherwise the walk ends |
| `PyObjectWalker.Walker.WalkScope` | packages/python/pyfora/PyObjectWalker.py:552-573 | free variables first, then the source file |
| `PyObjectWalker.Walker.WalkAll` | packages/python/pyfora/PyObjectWalker.py:284-313 | the ids of a sequence of objects, each walked in turn, stay valid while the rest is walked |
| `PyObjectWalker.Walker.WalkMembers` | packages/python/pyfora/PyObjectWalker.py:372-376 | the same for named members |
| `PyObjectWalker.FailedIsObstructed` | packages/python/pyfora/PyObjectWalker.py:157-197 | a walk ends with an exception only when it reaches an object that raises one, or a class with a base that its class statement does not name |
| `PyObjectOrder.OrderDecides` | packages/python/pyfora/PyObjectWalker.py:486-505 | that all bases are reached is not enough: a tuple of a base and its class is walked, the same tuple the other way round is not |
| `PyObjectGraph.ImageStable` | packages/python/pyfora/PyObjectWalker.py:284-383 | an entry does not change as more objects get ids |
| `PyObjectGraph.ImageDependents` | packages/python/pyfora/ObjectRegistry.py:144-170 | an entry that is not an instance depends on exactly the ids of the objects its owner refers to |
| `PyObjectGraph.InstanceDependents` | packages/python/pyfora/ObjectRegistry.py:171-183 | an instance depends on its class, its members, and what its class depends on |
| `PyObjectReading.ImageTells` | packages/python/pyfora/PyObjectWalker.py:199-505 | whatever the kind of object, its entry read back through the owners of the ids it names is the object: members in order under their names, keys as keys and values as values, class, receiver, bases, file and line; only an object that cannot be converted tells nothing |
| `PyObjectReading.VisitsAreParts` | packages/python/pyfora/PyObjectWalker.py:199-505 | the walk goes on to exactly the objects that a node is made of, and an entry names them all, except the class of an instance whose members are not known |
| `PyObjectReading.DictOrder` | packages/python/pyfora/PyObjectWalker.py:323-339 | in a dictionary each key is walked before its value, pair by pair |
| `PyObjectReading.ScopeOrder` | packages/python/pyfora/PyObjectWalker.py:552-573 | in a function, class or with-block the free variables are walked in order before the source file |
| `PyObjectReading.InstanceOrder` | packages/python/pyfora/PyObjectWalker.py:361-383 | in an instance the class is walked before the members, which follow in order when they are known |
| `PyObjectMirror.EveryIdIsDefined` | packages/python/pyfora/PyObjectWalker.py:157-197 | after a walk different objects have different ids, the ids with an entry are exactly the earlier ones and those handed out in the walk, and these are new |
| `PyObjectMirror.DependentsAreReferences` | packages/python/pyfora/ObjectRegistry.py:144-184 | the dependents of an id are the ids of the objects its owner, or the class of its owner, refers to |
| `PyObjectMirror.EntriesAreComplete` | packages/python/pyfora/ObjectRegistry.py:131-184 | after a walk the dependency graph of its root can be computed: no dependency leads to an id without an entry |
| `PyObjectMirror.DependencyGraphMirrorsObjects` | packages/python/pyfora/ObjectRegistry.py:131-142 | the ids an id needs are exactly the ids of the objects its object leads to through the references that entries name |
| `PyObjectMirror.LeadsIsReached` | packages/python/pyfora/PyObjectWalker.py:361-383 | entries name only references that are followed |
| `PyObjectMirror.ReachedIsWalked` | packages/python/pyfora/PyObjectWalker.py:157-197 | every object the root reaches through followed references has been walked |
| `PyObjectMirror.ReachedIsLedTo` | packages/python/pyfora/PyObjectWalker.py:361-383 | when the members of every instance are known, entries name every reference that is followed |
| `PyObjectMirror.CopyIsStable` | packages/python/pyfora/Executor.py:75-75 | what a walk copied stays a copy when other walkers add to the registry |
| `PyObjectMirror.CopyReadsBack` | packages/python/pyfora/PyObjectWalker.py:157-197 | once an object has been walked its entry in the registry reads back as the object |
| `PyObjectMirror.WalkAndComputeGraph` | packages/python/pyfora/Executor.py:203-206 | a new walker over a registry with any earlier contents, failed walks included: earlier entries are unchanged; if it succeeds, exactly the objects the root reaches have ids, all new, each with an entry that reads back as the object, and the dependency graph has exactly the ids of the objects the root leads to as keys, all ids when the members of every instance met are known; it succeeds if and only if the depth-first walk of the object graph does, which where reached classes name their bases is when no reached object raises |
| `PyObjectMirror.DefineAll` | packages/python/pyfora/Executor.py:235-239 | objects defined one after the other over one registry: in the end each has its own copy with ids of its own, untouched by the walks after it, and the first failure is that of an obstructed object |
| `MemoryHeap.Heap.MarkAllocated` | ufora/core/MemoryHeap.cpp:117-122 | a new page is recorded and the heap size stays the sum of the page sizes |
| `MemoryHeap.Heap.MarkUnallocated` | ufora/core/MemoryHeap.cpp:124-139 | the page-walking loop removes exactly the pages that tile the range, its lookups and its assertion never fail, and the heap size stays exact |
| `MemoryHeap.Heap.MMap` | ufora/core/MemoryHeap.cpp:141-149 | a mapping of the mspace is recorded, a refusal is not |
| `MemoryHeap.Heap.MUnmap` | ufora/core/MemoryHeap.cpp:151-159 | giving back pages of the mspace keeps every large allocation and all sums |
| `MemoryHeap.Heap.MRemap` | ufora/core/MemoryHeap.cpp:161-175 | moving pages of the mspace keeps every large allocation and all sums; equal sizes and refusals change nothing |
| `MemoryHeap.Heap.Malloc` | ufora/core/MemoryHeap.cpp:177-200 | a new live block, a page of its own marked large exactly from one page size on; a small block leaves the pages as they are, apart from the first page of the mspace; both sums stay exact |
| `MemoryHeap.Heap.Free` | ufora/core/MemoryHeap.cpp:202-224 | the block is gone, with its page if it is large and no page otherwise; both sums stay exact |
| `MemoryHeap.Heap.Realloc` | ufora/core/MemoryHeap.cpp:226-282 | a live block keeps its first bytes and all other blocks their contents; a large one stays large down to half a page, at its new size, and a small one becomes large from a page size on, no other page changing; a refusal changes nothing |
| `MemoryHeap.Heap.MoveToOtherPool` | ufora/core/MemoryHeap.cpp:237-274 | shrinking a large block below half a page always copies from a longer block, so the assertion on its size cannot fire; growing a small one to a page makes it large |
| `MemoryHeap.Heap.ResizeLarge` | ufora/core/MemoryHeap.cpp:250-262 | a remapped large block stays at least half a page long, its page being recorded at the new address with the new size |
| `MemoryHeap.Heap.ResizeSmall` | ufora/core/MemoryHeap.cpp:276-279 | the byte count follows the usable size, and no page changes |
| `MemoryHeap.Heap.MSize` | ufora/core/MemoryHeap.cpp:284-297 | the number of usable bytes of a live block |
| `MemoryHeap.Heap.DetachLargeAlloc` | ufora/core/MemoryHeap.cpp:343-359 | a large allocation leaves the accounts with its page, any other is refused and changes nothing |
| `MemoryHeap.Heap.Forget` | ufora/core/MemoryHeap.cpp:210-217 | a large allocation is one page, taken off both sums |
| `MemoryHeap.UntiledSum` | ufora/core/MemoryHeap.cpp:124-139 | taking a tiled range away lowers the sum of page sizes by its length and touches no other page |
| `MemoryHeap.ResizedIsLarge` | ufora/core/MemoryHeap.cpp:250-262 | resizing keeps every large allocation at least half a page long |

## Left out

Whole repository: threads, mutexes, callback schedulers, sockets, logging, clocks and timing counters. A locked method is one
step, and a callback an element of an output sequence. Weak pointers are liveness of identifiers.

- DependencyGraph.Graph.BindProperty: a computation reads only cells of lower rank; properties that read each other in a cycle, `bindWithPrior` (whose value depends on history) and computations that write are not modelled.
- DependencyGraph.Graph.Add: a property is added to an index once, and does not read that index, directly or through others; a second add replaces the updater in the source while the first may still be queued.
- DependencyGraph.Graph.DestroyProperty: only properties that no live computation can read, and only while they are not queued, since the queue keeps a queued property alive; that one nobody else holds is destroyed when its entry is taken is not modelled.
- DependencyGraph.Graph.RecomputeBelow: says nothing about the values of properties above the level, which may still be stale.
- Forced `markDirty` of a mutable other than through a forced write, and the teardown of a graph: no further state.
- ComputationDependencyGraph.Graph.Update: requires acyclic root-to-root dependencies; for cyclic ones the outer loop and makeCircular are not modelled, because the source gives no bound on the rounds.
- ComputationDependencyGraph.Graph.SetCumulusClientPriority: a circular client priority has split depth 0, as the constructors written out in the source make it.
- ComputationPriority's generated default constructor is taken to give source 0, no level and depths 0; the generator is not part of this model.
- The two-way maps and indexed maps are finite relations and maps; their own bookkeeping is not modelled.
- SimpleMemoryAllocator.Allocator.constructor: a positive total size and an alignment of at least 1 that divides it, as its only assertion demands; division by an alignment of 0 is not modelled.
- MultiChannel.RunIsValid: runs of fewer than 2^32 - 1 messages; what follows the wrap-around is described by `DueIsHeldIffLastDispatched`, `AfterTheLastOrdinalAllIsHeld` and `NothingHeldAtRestIff`. Ties in the priority queue, which its other components break, cannot occur in these runs. Disconnection is not modelled.
- ChannelDemuxer.Demuxer.DrainMessageBacklog: writes to the channel do not fail; encoding, and closing the whole demuxer, are not modelled.
- ChannelDemuxer.ReceivedKeeps: each number arrives once; for repeated numbers only the byte count is described (`RepeatedNumberMiscounts`).
- PyObjectWalker.Walker.WalkPyObject: after an exception that leaves the walk nothing is said of the walker, which the source drops, but the registry is described; pure-implementation mappings (whose instances get a new id on each visit), futures, id reuse, and the resolution of free variables from syntax trees, which is an input of the model, are left out. The base64 encoding of strings is not modelled.
- PyObjectWalker.Walker.RegisterDict: the dictionaries of the source are sequences in iteration order.
- ObjectRegistry.Registry.Define: stands for the fourteen define methods, which differ only in the entry they build.
- MemoryHeap.Heap.Malloc: the system and the mspace are parameters that hand out memory not in use; the size of a page is at least 2; the sums are mathematical integers, so sums past the machine word are not modelled. The destructor, trimming and validate are left out, and so is the assertion on the initial footprint.
- Base classes get ids but are not dependents, as in the source.
