# A model of the strategy run engine and its surroundings

The repository runs stock-selection strategies that users draw as graphs.  This project models, in
Dafny, the parts whose correctness is hard to see from one function at a time, and proves what they
promise.

- **The run engine** (`Engine`, `EngineInvariant`, `EngineSteps`, `Confluence`, `EngineSafety`,
  `SubDag`, `Scheduler`, `Execute`).  `Executor.Execute` is a main loop that owns the scheduler
  variables and goroutines that run one node each.  `Engine` is a transition system: every critical
  section is one action, a worker that has finished but has not been received from is a state of its own,
  as is one whose result has been received but not recorded yet, and any list of actions is an
  interleaving.  One invariant is proved for all of them, and from it
  confluence, coverage, cascade exactness, dispatch safety, deadlock freedom, bounds on slots and steps,
  and the agreement of a run up to a node with a full run.  `Scheduler` is the same scheduler as a
  class with the fields the loop mutates; `Execute` is the whole method, each turn of whose loop is
  matched by a run of the transition system, so that the theorems apply to what it returns.
- **The graph** (`Ordering`, `Graph`, `TopoSort`, `Closure`).  Validation, neighbours, Kahn's loop with a
  sorted queue, the breadth-first closures.
- **The stored form and the clone** (`ReactFlow`, `Remap`).
- **Circuit breakers, failover and the K-line cache** (`Breaker`, `Failover`, `KLine`).  The breaker of
  the data sources and that of the notification channels are one machine under different method names.
- **Smaller cores** (`EventBus`, `Drawdown`, `TradingDays`, `Retry`).

## How to read it

`Engine.After(c, cancelled, acts)` is the state after a run; `FinishedRun` says its loop has ended.
`TopoOrder` is a complete topological order, `KahnOrder` whatever Kahn's loop emits on a graph that may
have cycles, `Reaches` the proper-ancestor relation, `Sequential(c, o)` the evaluation of one node after
the other along `o`, with neither counters nor cascade nor concurrency.

## What the code does, where its comments say otherwise

- `Roots` promises a sorted list and returns list order (`types.go:157-174`); the executor sorts it
  (`EngineSteps.RootsUnsorted`).
- `Execute` checks `Validate` only, which accepts cycles.  The theorems about runs hold on cyclic graphs
  too: the records are those of the nodes with no cycle at or above them, plus the descendants of failed
  nodes (`Confluence.ExactlyOnce`, `TopoSort.KahnEmits`).  Only full coverage needs acyclicity.
- A node error that is `context.Canceled` while the run is alive is recorded as skipped without a
  cascade, so its children run (`executor.go:422-426`).  `DispatchSafety` therefore says of each
  predecessor that it succeeded *or* was skipped as cancelled.
- The comment above the return of `Execute` speaks of every node being skipped; the error depends on a
  node having failed.  The test for cancellation errors beside it never matches, because the first
  error is built from text.  `ErrorIffFailed` states what holds.
- `ExecuteToNode` drops the error of the inner run; only the status tells of a failure.
- `GetKLine` caches a partial day under the key of the whole day (`KLine.HalfDayCall` is a concrete
  call).  After a served call the cache agrees with the source exactly when every missing window brought
  in its whole day; that is so for every source exactly when each end of the range is a day boundary or
  lies in a day served from the cache (`KLine.WriteRightIffEndsWhole`).  A cut end that was served from
  the cache may return bars outside the range instead (`KLine.HalfDayHit`): the bars returned are right
  exactly when no bar cached for a hit day lies outside the range (`KLine.ServedRightIff`).
  `KLine.CallRightIff` joins the two for a given cache; knowing only which days are hits, and not what is
  cached for them, day alignment is the exact condition (`KLine.RightIffAligned`).  Even then a day cached
  strictly inside the fetched span comes back twice; `Copies` says exactly how often each bar is returned.
- `aggregateStatus` looks at records, not at nodes.  A graph in which every node has a predecessor runs
  nothing and is a success without an error (`EngineSafety.EmptyRunSucceeds`, `CycleRunsEmpty`); on acyclic graphs success
  means that every node succeeded.
- The comment above `MaxDrawdown` promises no value when every point is non-finite; the code returns 0,
  and so does the model (`Drawdown.NothingFinite`).
- The comment above `normalizeParams` promises an object or an array; numbers and truth values pass too,
  and a string whose content is again a string comes out as a string.
- Parsing undoes printing exactly when all params are JSON values other than null and strings
  (`ReactFlow.RoundTripIff`); `DoubleEncodedChanges` is a concrete failing input.

## Model

| member | source | states |
|---|---|---|
| Confluence.RunsAgreeWithSequential | backend/internal/orchestrator/executor.go:154-313 | Confluence: on an acyclic graph every interleaving of an uncancelled run ends with the records of evaluating the nodes one at a time in any topological order |
| Confluence.RunsAgree | backend/internal/orchestrator/executor.go:224-313 | Any two finished uncancelled runs record the same, cyclic graphs and different concurrency limits included |
| Confluence.ExactlyOnce | backend/internal/orchestrator/executor.go:114-169 | No node is dispatched twice, and the recorded nodes are exactly those Kahn's loop emits plus the descendants of recorded failures, cancelled or not, cycles and parallel edges allowed |
| Confluence.AcyclicCoverage | backend/internal/orchestrator/executor.go:303-313 | On an acyclic graph a finished run has one record for every node |
| Confluence.LocalEquation | backend/internal/orchestrator/executor.go:176-197 | Global cascade and counters amount to a local rule: each final record is determined by the records of the direct predecessors |
| Confluence.NothingForgotten | backend/internal/orchestrator/executor.go:154-169 | When the loop ends no node is left out whose predecessors are all recorded |
| Confluence.AgreesWithSequential | backend/internal/orchestrator/executor.go:303-313 | Along any topological prefix, cycles elsewhere or not, records equal the sequential evaluation |
| Confluence.RecordedExactly | backend/internal/orchestrator/executor.go:291-313 | A node is recorded at the end if and only if Kahn's loop emits it or a failed node reaches it |
| Confluence.KahnOrderFrom | backend/internal/orchestrator/types.go:209-221 | Every topological prefix extends to an order at which Kahn's loop stops, so such orders always exist |
| EngineSteps.InitInv | backend/internal/orchestrator/executor.go:105-123 | The start state satisfies the invariant |
| EngineSteps.InitialReadyExact | backend/internal/orchestrator/executor.go:110-117 | The initial queue is sorted, without repetition, and holds exactly the nodes without predecessors |
| EngineSteps.StepInv | backend/internal/orchestrator/executor.go:125-313 | Every action of the main loop, of a worker, and a cancellation keeps the invariant |
| EngineSteps.Always | backend/internal/orchestrator/executor.go:125-313 | The invariant (counters, queue, records, cascades, workers, values) holds after every interleaving |
| EngineSteps.ReceiveStep | backend/internal/orchestrator/executor.go:305-306 | Taking a result off the channel, before anything is recorded, keeps what holds of the variables and the workers |
| EngineSteps.RecordStep | backend/internal/orchestrator/executor.go:307-310 | Recording the result and keeping the first error keeps it, wherever its worker has got to meanwhile |
| EngineSteps.CascadeStep | backend/internal/orchestrator/executor.go:178-195 | The skip cascade keeps it, and the exactness of cascades |
| EngineSteps.EnqueueStep | backend/internal/orchestrator/executor.go:154-169 | Handling one child keeps it: a counter reaches zero exactly once, whatever was skipped meanwhile |
| EngineSteps.DrainStep | backend/internal/orchestrator/executor.go:279-287 | Dispatching the queue's head keeps it |
| EngineSteps.OwnStep | backend/internal/orchestrator/executor.go:241-276 | So does every step of a worker of its own: slot, look, inputs, body, giving the slot back |
| EngineSteps.CascadeExact | backend/internal/orchestrator/executor.go:178-195 | After a cascade the skipped nodes are the earlier ones and the descendants of the failure, no others, and no reported result is touched |
| EngineSafety.CascadeExactness | backend/internal/orchestrator/executor.go:176-197 | In every state outside a cascade, a node is skipped as upstream-failed if and only if a proper ancestor is recorded failed |
| EngineSafety.CascadeSparesStarted | backend/internal/orchestrator/executor.go:181-193 | A cascade never hits a node that is ready or was dispatched |
| EngineSafety.AlreadyCompletedUnreachable | backend/internal/orchestrator/executor.go:356-369 | A worker never finds its own node completed, so that branch is dead |
| EngineSafety.RecordsNeverOverwritten | backend/internal/orchestrator/executor.go:125-133 | The records after any prefix of a run are all there, unchanged, after the whole run |
| EngineSafety.DispatchSafety | backend/internal/orchestrator/executor.go:380-395 | When a node body runs, every predecessor has succeeded or been skipped as cancelled, no ancestor has failed, and its inputs are exactly the recorded payloads of its predecessors with its own params, type, subtype and id on top |
| EngineSafety.SlotsBounded | backend/internal/orchestrator/executor.go:224-276 | At most max(1, maxConcurrency) workers hold a slot, inFlight is the number of workers not yet received, and no more workers than nodes are ever started |
| EngineSafety.BodiesBounded | backend/internal/orchestrator/executor.go:224-248 | At most maxConcurrency node bodies run at once, one if that is not positive |
| EngineSafety.SlotGranted | backend/internal/orchestrator/executor.go:244 | A waiting worker is let in while no slot, or fewer than maxConcurrency, are held |
| EngineSafety.Progress | backend/internal/orchestrator/executor.go:241-313 | No deadlock: until the loop has ended some action other than a cancellation is enabled |
| EngineSafety.RunsAreBounded | backend/internal/orchestrator/executor.go:303-313 | No run makes more than nodes * (edges + 11) + 2 moves |
| EngineSafety.CarriedOn | backend/internal/orchestrator/executor.go:303-313 | Every uncancelled run can be carried on, uncancelled, until its loop has ended |
| EngineSafety.StepDecreases | backend/internal/orchestrator/executor.go:241-313 | Every enabled action strictly decreases one measure of the remaining work |
| EngineSafety.ReceivesBounded | backend/internal/orchestrator/executor.go:304-312 | The loop receives at most one result per node |
| EngineSafety.AggregateStatus | backend/internal/orchestrator/executor.go:477-498 | In any iteration order: failed if and only if some node failed, success if and only if all succeeded |
| EngineSafety.RecordsRight | backend/internal/orchestrator/executor.go:380-447 | In a finished uncancelled run, a record below a failure is the upstream-failed skip; any other is what the outcome of the node's own body becomes (payload and success, error and failure, panic and failure, cancellation and skip), called with its type and subtype on exactly the recorded payloads of its predecessors and its own definition |
| EngineSafety.FirstFailureKept | backend/internal/orchestrator/executor.go:307-309 | The error kept is the first failure recorded |
| EngineSafety.CancelledStart | backend/internal/orchestrator/executor.go:291-301 | A context cancelled before the start leaves every node skipped as cancelled, and starts no worker |
| EngineSafety.ErrorIffFailed | backend/internal/orchestrator/executor.go:315-335 | After every run an error is kept if and only if the status is failed, and it names a failed node |
| EngineSafety.SuccessMeansEmitted | backend/internal/orchestrator/executor.go:477-498 | The status of a finished run is success if and only if every node that Kahn's loop emits succeeded |
| EngineSafety.SuccessIffAllSucceeded | backend/internal/orchestrator/executor.go:477-498 | On an acyclic graph success means that every node of the graph succeeded |
| EngineSafety.SuccessCoversIffAcyclic | backend/internal/orchestrator/executor.go:303-317 | A successful run has recorded every node if and only if the graph is acyclic |
| EngineSafety.EmptyRunSucceeds | backend/internal/orchestrator/executor.go:303-317 | Where every node has a predecessor nothing is recorded, the status is success and there is no error |
| EngineSafety.CycleRunsEmpty | backend/internal/orchestrator/executor.go:303-317 | The concrete failing input: two nodes in a cycle are a valid graph of this kind, whose run ends at once |
| EngineSafety.BeforeCancellation | backend/internal/orchestrator/executor.go:125-133 | Whatever was recorded before a cancellation stays, and is what every finished uncancelled run, and on an acyclic graph the sequential evaluation, records |
| Scheduler.Loop.constructor | backend/internal/orchestrator/executor.go:105-123 | The loop's variables start as the transition system's start state |
| Scheduler.Loop.RecordResult | backend/internal/orchestrator/executor.go:125-133 | Status, record and, when there is one, payload are written, nothing else |
| Scheduler.Loop.NextReady | backend/internal/orchestrator/executor.go:138-147 | Pops the head, or answers with the empty string exactly when the queue is empty |
| Scheduler.Loop.EnqueueChildren | backend/internal/orchestrator/executor.go:154-169 | The loop over the successors is the step-by-step handling of each in order |
| Scheduler.Loop.CascadeSkip | backend/internal/orchestrator/executor.go:178-195 | The cascade loop skips exactly the descendants that have no record |
| Scheduler.Loop.OnNodeDone | backend/internal/orchestrator/executor.go:176-197 | Record, cascade on failure, enqueue, in this order, as in the transition system |
| Scheduler.Loop.Accept | backend/internal/orchestrator/executor.go:305-310 | One turn on a received result: count, first failure, record, cascade, enqueue |
| Scheduler.Loop.DrainReady | backend/internal/orchestrator/executor.go:279-287 | Dispatches the whole queue, head first, and counts each |
| Execute.BuildInputs | backend/internal/orchestrator/executor.go:380-395 | The inputs are the non-nil payloads of the predecessors with the node's own settings on top |
| Execute.RunOneNode | backend/internal/orchestrator/executor.go:341-447 | A recorded node answers with its record, a dead context with a skip; otherwise its own body is called with its type and subtype on the payloads of its predecessors and its own definition, and a returned payload is a success, an error a failure with that error, a panic a failure, a cancellation, or any error once the context has died, a skip |
| Execute.Turn | backend/internal/orchestrator/executor.go:304-312 | One turn of the loop, with the context cancelled before it, during it or not at all, is a run of the transition system from any quiet state |
| Execute.RunLoop | backend/internal/orchestrator/executor.go:303-313 | The loop ends, and what it leaves is the end of some run of the transition system, uncancelled when the context is |
| Execute.ExecuteDag | backend/internal/orchestrator/executor.go:75-336 | Refused exactly when invalid, with a defect that is there; the first unregistered type aborts; early cancellation skips every node; otherwise, whenever the context is cancelled, the records of a run, on an acyclic graph one for every node; undisturbed the sequential ones, each what its own body's outcome becomes; with an error naming a failed node exactly when the status is failed |
| Execute.FirstUnknown | backend/internal/orchestrator/executor.go:94-103 | Finds the first node whose type is not registered, if there is one |
| Execute.SkipAll | backend/internal/orchestrator/executor.go:291-301 | Every node, and nothing else, is recorded as cancelled |
| Execute.ExecuteToNode | backend/internal/orchestrator/executor.go:506-564 | Refused exactly when the part of the graph that leads to the target is invalid, hence never on a valid graph; the first node of that part with an unregistered type stops the run before any record; nodes that do not lead to the target are skipped as not in its path, whatever happens to the context; with every type of the path registered the records are those of a run of the path, and in an undisturbed run the target and its ancestors have the records every uncancelled full run gives them; the status is failed if and only if some node failed, and success if and only if every record of the path is one |
| SubDag.ExecuteToNodeAgrees | backend/internal/orchestrator/executor.go:506-564 | Sub-graph agreement node by node, for any two interleavings and concurrency limits, and for cyclic graphs |
| SubDag.RecordsSame | backend/internal/orchestrator/executor.go:519-544 | On any set of nodes closed under predecessors, the sub-graph run and the full run record the same |
| SubDag.SubDagValid | backend/internal/orchestrator/executor.go:532-542 | The sub-graph of a valid graph is valid, has exactly the path's nodes, and keeps every edge into the path |
| SubDag.PathSetOfTarget | backend/internal/orchestrator/executor.go:519-530 | The nodes leading to a target are closed under predecessors |
| SubDag.BuildSubDag | backend/internal/orchestrator/executor.go:532-542 | The two filter loops keep the path's nodes and inner edges in order |
| SubDag.MarkOutside | backend/internal/orchestrator/executor.go:549-562 | Every node outside the path without a record gets the not-in-path skip, others are unchanged |
| Closure.CollectDescendants | backend/internal/orchestrator/executor.go:451-468 | Exactly the nodes properly reached from the start, other than it, each once |
| Closure.CollectPath | backend/internal/orchestrator/executor.go:519-530 | Exactly the target and the nodes that reach it; ends on cyclic graphs too |
| Closure.DescendantsExact | backend/internal/orchestrator/executor.go:451-468 | The search function is sound, complete and free of repetition |
| Graph.Validate | backend/internal/orchestrator/types.go:62-97 | Accepts exactly the valid graphs and otherwise names a defect that is really there |
| Graph.DefectMeansInvalid | backend/internal/orchestrator/types.go:62-97 | Every kind of defect contradicts validity |
| Graph.NodeById | backend/internal/orchestrator/types.go:113-123 | Finds a node with the id if and only if there is one |
| Graph.SuccessorsOf | backend/internal/orchestrator/types.go:129-140 | The heads of the edges leaving the node, in edge order, repetitions included |
| Graph.PredecessorsOf | backend/internal/orchestrator/types.go:144-155 | The tails of the edges entering the node, in edge order |
| Graph.NeighboursConcat | backend/internal/orchestrator/types.go:129-155 | The neighbour lists of consecutive edges are put one after the other |
| Graph.NeighboursOfOne | backend/internal/orchestrator/types.go:129-155 | One edge gives its target to its source and its source to its target, and nothing else |
| EngineSteps.RootsExact | backend/internal/orchestrator/types.go:159-174 | The roots are the nodes without predecessors, each once |
| EngineSteps.RootsUnsorted | backend/internal/orchestrator/types.go:157-174 | A concrete graph whose roots come unsorted |
| TopoSort.Sort | backend/internal/orchestrator/types.go:180-226 | On a valid graph it succeeds if and only if there is no cycle; the result is a topological order of all nodes and the lexicographically least one |
| TopoSort.Kahn | backend/internal/orchestrator/types.go:209-221 | The loop emits a topological prefix that cannot be extended, each element the least available |
| TopoSort.KahnEmits | backend/internal/orchestrator/types.go:209-225 | A node is emitted if and only if no cycle lies at or above it |
| TopoSort.KahnSetUnique | backend/internal/orchestrator/types.go:209-221 | All orders at which the loop can stop emit the same nodes |
| TopoSort.CompleteIffAcyclic | backend/internal/orchestrator/types.go:222-225 | The length test detects a cycle exactly |
| TopoSort.GreedyIsLeast | backend/internal/orchestrator/types.go:176-179 | Taking the least available node each time gives the lexicographically least of all topological orders |
| TopoSort.SortIgnoresListOrder | backend/internal/orchestrator/types.go:176-226 | The result depends on the node ids and edge pairs only, so permuting or repeating list entries changes nothing |
| TopoSort.InDegrees | backend/internal/orchestrator/types.go:184-193 | The in-degree table counts each node's incoming edges |
| TopoSort.SortTable | backend/internal/orchestrator/types.go:194-196 | Sorting the successor lists in place keeps their contents, in whatever order the map is walked |
| TopoSort.ReleaseAll | backend/internal/orchestrator/types.go:213-220 | After the inner loop the counters and the queue are exact again |
| Ordering.LessExact | backend/internal/orchestrator/types.go:228-253 | The order of ids is that of strings: the first difference decides, else the shorter one comes first |
| Ordering.SearchInsert | backend/internal/orchestrator/types.go:238-253 | The binary search finds the lower bound |
| Ordering.InsertSorted | backend/internal/orchestrator/types.go:238-253 | The list stays sorted and gains exactly the one id |
| Ordering.SortStrings | backend/internal/orchestrator/types.go:228-236 | The array ends sorted and a permutation of itself |
| Ordering.SortedUnique | backend/internal/orchestrator/types.go:228-236 | There is only one sorted arrangement of a list, so the sort is determined by its contract |
| ReactFlow.RoundTripIff | backend/internal/orchestrator/dag.go:33-194 | Printing and parsing gives back the same valid graph if and only if it is valid and every node's params are plain |
| ReactFlow.NormalizeCases | backend/internal/orchestrator/dag.go:169-194 | Missing, null and empty-string params become an empty object, a string its content decoded once, any other value itself; broken ones and strings that do not decode are refused |
| ReactFlow.NormalizeIdempotentIff | backend/internal/orchestrator/dag.go:169-194 | Normalizing twice is normalizing once, and the result is plain, if and only if the input is not a string whose content is a JSON null or a JSON string |
| ReactFlow.ParamsSurviveIff | backend/internal/orchestrator/dag.go:151-194 | One node's params survive printing and normalizing if and only if they are plain |
| ReactFlow.DoubleEncodedChanges | backend/internal/orchestrator/dag.go:176-194 | Params that are a string holding a string change on the way: the excluded case, with a concrete input |
| ReactFlow.MarshalDag | backend/internal/orchestrator/dag.go:103-163 | The document has exactly the keys of the stored form, in list order: id, type, data with subtype and params, a position when there is one; source and target, and id and handles when they are not empty |
| ReactFlow.NodeReadIff | backend/internal/orchestrator/dag.go:40-52 | A node object denotes exactly the node whose fields stand under those keys, absent and null ones empty, wrong kinds refused |
| ReactFlow.EdgeReadIff | backend/internal/orchestrator/dag.go:53-59 | The same for an edge object |
| ReactFlow.NormalizeAllExact | backend/internal/orchestrator/dag.go:69-81 | Parsing changes nothing of the nodes but their params, and fails if and only if some params cannot be normalized |
| ReactFlow.ParseDag | backend/internal/orchestrator/dag.go:33-93 | Succeeds exactly on documents that denote a valid graph, and tells a malformed document, the first node with unusable params, and a defect of the graph apart |
| ReactFlow.NodeRoundTrip | backend/internal/orchestrator/dag.go:40-131 | A node decodes to itself up to the raw form of its params, its optional position included |
| ReactFlow.EdgeRoundTrip | backend/internal/orchestrator/dag.go:132-148 | An edge decodes to itself, id and optional handles included |
| Remap.RemapDag | backend/internal/orchestrator/strategy_service.go:459-492 | Every node keeps its type, subtype, params and position under its id with the suffix; on a valid graph every edge keeps its handles with the ids of both ends and its own suffixed; the map sends each id to its new one |
| Remap.SuffixInjective | backend/internal/orchestrator/strategy_service.go:467-469 | Different ids stay different |
| Remap.EdgesKept | backend/internal/orchestrator/strategy_service.go:478-490 | On a valid graph no edge is dropped, and each is renamed in place |
| Remap.CloneEdge | backend/internal/orchestrator/strategy_service.go:478-490 | The clone has an edge between two renamed ids if and only if the graph has it between the ids |
| Remap.CloneValid | backend/internal/orchestrator/strategy_service.go:459-492 | The clone of a valid graph is valid |
| Remap.CloneSuccessors | backend/internal/orchestrator/strategy_service.go:459-492 | Successor lists commute with the renaming, order and repetitions included |
| Remap.ClonePredecessors | backend/internal/orchestrator/strategy_service.go:459-492 | Predecessor lists commute with the renaming |
| Remap.CloneDescendants | backend/internal/orchestrator/executor.go:451-468 | The descendants of a cloned node are the clones of its descendants, in the same order |
| Remap.CloneReaches | backend/internal/orchestrator/strategy_service.go:459-492 | Reachability is the same in graph and clone |
| Remap.CloneAcyclic | backend/internal/orchestrator/strategy_service.go:459-492 | The clone has a cycle if and only if the graph has one |
| Breaker.CircuitBreaker.constructor | backend/internal/datasource/breaker.go:69-93 | Starts closed and empty; non-positive settings are replaced by the defaults |
| Breaker.WithDefaults | backend/internal/datasource/breaker.go:73-81 | Field by field: a positive setting is kept, else 5 failures, 5 minutes, 10 minutes |
| Breaker.RecentExact | backend/internal/datasource/breaker.go:205-214 | Pruning keeps exactly the failures newer than the cutoff, each as often as before |
| Breaker.CircuitBreaker.Gc | backend/internal/datasource/breaker.go:205-214 | The in-place compaction keeps exactly the failures newer than the cutoff, in order |
| Breaker.CircuitBreaker.Allow | backend/internal/datasource/breaker.go:106-134 | Closed admits and prunes; open admits if and only if the cooldown is over, and that call is the probe of the half-open breaker; half-open admits if and only if no probe is out; a refusal changes nothing |
| Breaker.CircuitBreaker.RecordSuccess | backend/internal/datasource/breaker.go:137-150 | Closes a half-open breaker and forgets its failures, changes nothing else |
| Breaker.CircuitBreaker.RecordFailure | backend/internal/datasource/breaker.go:153-174 | Reopens a half-open breaker with a fresh cooldown, notes the failure of a closed one and trips it if and only if the window holds the threshold, leaves an open one alone |
| Breaker.CircuitBreaker.State | backend/internal/datasource/breaker.go:179-187 | An open breaker reads half-open, with no probe out, if and only if its cooldown is over; nothing else changes |
| Breaker.CircuitBreaker.FailureCount | backend/internal/datasource/breaker.go:196-201 | Prunes and counts the failures inside the window |
| Breaker.ClosedWindow | backend/internal/datasource/breaker.go:153-214 | Over any history with a nondecreasing clock: while closed, fewer than the threshold are stored, and the pruned list equals the never-pruned record of failures since the last close, seen through the window |
| Breaker.TripsExactly | backend/internal/notify/circuit.go:179-201 | A failure trips the closed breaker if and only if the failures since the last close inside the window, this one included, reach the threshold |
| Breaker.ProbesSeparated | backend/internal/datasource/breaker.go:106-134 | Calls admitted outside Closed are pairwise at least one cooldown apart, stale outcomes included |
| Breaker.ProbesInStretch | backend/internal/notify/circuit.go:124-157 | At most 1 + L / cooldown of them fall into a stretch of length L |
| Breaker.NothingBeforeCooldown | backend/internal/datasource/breaker.go:106-134 | After opening at t nothing is admitted before t + cooldown, whatever is called |
| Breaker.OneProbePerEpisode | backend/internal/datasource/breaker.go:118-130 | Once the probe is out, a half-open breaker admits nothing until an outcome arrives |
| Breaker.ReopensAfterCooldown | backend/internal/datasource/breaker.go:118-125 | After any history that leaves the breaker open, a call is admitted if and only if the cooldown is over, and leaves it half-open with the probe out |
| Breaker.HalfOpenAdmitsProbe | backend/internal/datasource/breaker.go:126-131 | After any history that leaves it half-open, a call is admitted if and only if no probe is out |
| Breaker.ProbeSucceeds | backend/internal/datasource/breaker.go:137-145 | A probe that succeeds closes the breaker, forgets its failures, and the next call is admitted |
| Breaker.ProbeFails | backend/internal/datasource/breaker.go:153-166 | A probe that fails opens it again, for a whole cooldown from then on and no longer |
| Breaker.ReadThenProbe | backend/internal/datasource/breaker.go:179-187 | A read after the cooldown leaves the next call to be the probe |
| Breaker.ErrorsTrip | backend/internal/datasource/breaker.go:153-174 | As many failing admitted calls as the threshold inside one window leave the breaker open: nothing is admitted until a cooldown after the last of them, and then the next call is |
| Breaker.AnswersKeep | backend/internal/datasource/breaker.go:137-150 | Any number of answered calls leave a closed breaker closed with its failures as they were, every call admitted |
| Failover.RouteOnce | backend/internal/datasource/manager.go:413-461 | A refused source is not called and its breaker is asked and read; an error is recorded on the breaker as a failure, an answer as a success; the notes name the outcome, with a switch note after another source |
| Failover.CallChain | backend/internal/datasource/manager.go:468-495 | The answer is that of the first source admitted and succeeding; each breaker up to it has exactly one ask and the outcome of its own source added to its history, later ones are untouched; else the first error met |
| Failover.FirstErrorExact | backend/internal/datasource/manager.go:480-493 | The error handed back is that of the first called source that erred, none when nobody erred |
| Failover.CallRounds | backend/internal/datasource/manager.go:468-495 | Any number of walks over the same chain: each starts with the breakers as the one before left them |
| Failover.ErringSourceSkipped | backend/internal/datasource/manager.go:426-444 | A source that errs at threshold walks inside one window is skipped by the next walk until, and only until, a cooldown after its last error |
| Failover.AnsweringSourceKept | backend/internal/datasource/manager.go:446-460 | A source behind a closed breaker that only answers is never skipped, and its failures stay noted |
| Failover.CalledExactly | backend/internal/datasource/manager.go:468-490 | Each source is called at most once, in chain order: exactly the admitted ones up to the winner |
| Failover.OneOutcomePerCall | backend/internal/datasource/manager.go:428-455 | The outcome notes match the called sources one to one, in order: a success for an answer, a failure with its error for an error |
| Failover.SwitchChain | backend/internal/datasource/manager.go:437-459 | With distinct non-empty names the switch notes form one unbroken from-to chain over the sources called |
| Failover.PairsAt | backend/internal/datasource/manager.go:437-459 | The chain's links: each switch goes from the source called before to the one called next |
| KLine.SplitByDay | backend/internal/datasource/manager.go:393-408 | One window per calendar day, adjacent, the first and last cut to the range, none when the range is empty |
| KLine.MemoryCache.Get | backend/internal/datasource/redis_cache.go:114-126 | A live entry is returned; an expired one is deleted and reads as absent; other entries stay |
| KLine.MemoryCache.Set | backend/internal/datasource/redis_cache.go:129-141 | Exactly one entry is written; it expires at the clock plus the lifetime asked for, or plus a microsecond when that is not positive |
| KLine.LookUp | backend/internal/datasource/manager.go:225-241 | Windows are split into hits and misses in order; hits were live, misses are not, the missed entries and no others are gone, and merged bars are the source's bars of the hit days |
| KLine.Span | backend/internal/datasource/manager.go:251-261 | The coalesced range runs from the first missing start to the last missing end |
| KLine.BucketByDay | backend/internal/datasource/manager.go:270-276 | Each day's bucket holds exactly the fetched bars of that day, in order |
| KLine.Store | backend/internal/datasource/manager.go:279-290 | Every missing day, barless ones too, holds its bucket for the configured lifetime; nothing else changes |
| KLine.AlignedCopies | backend/internal/datasource/manager.go:219-277 | For aligned ranges each of the source's bars comes back once, or twice exactly when its day was cached strictly between the first and last missing day |
| KLine.GetKLine | backend/internal/datasource/manager.go:207-295 | The argument errors; hits and misses tile the range, hits were live before and misses are not live after; the answer is the cached bars of the hit days in order and then the fetched ones; a failed fetch writes nothing and returns the cached part; a served call writes every missing day for the lifetime asked for; afterwards the cache agrees with the source if and only if every missing window brought in its whole day, and every bar comes back its exact number of times, for aligned ranges once or, strictly inside the fetched span, twice |
| KLine.CallTwice | backend/internal/datasource/manager.go:225-290 | The same call again, ending within the lifetime of the first: the days the first fetched are hits, and those it found cached as far as their own entries live; when that is all of them it is served even with the sources down |
| KLine.WriteRightIffEndsWhole | backend/internal/datasource/manager.go:284-289 | For a cache and the hits and misses of a call: what is written agrees with every source the kept entries agree with, if and only if each end of the range is a day boundary or lies in a day served from the cache |
| KLine.ServedRangeIff | backend/internal/datasource/manager.go:219-277 | The bars returned are, as a set, the source's bars of the range if and only if no bar of a hit day lies outside it |
| KLine.ServedRightIff | backend/internal/datasource/manager.go:219-277 | For every source the kept entries agree with, that holds if and only if no bar cached for a hit day lies outside the range: the cache alone decides it |
| KLine.CallRightIff | backend/internal/datasource/manager.go:207-295 | For a given cache: a call is right in what it returns and in what it caches, for every source the kept entries agree with, if and only if no cached bar of a hit day lies outside the range and no missing day is cut |
| KLine.RightIffAligned | backend/internal/datasource/manager.go:207-295 | Knowing only which days are hits, not what is cached for them: a call is right in both respects for every cache and every source it agrees with, if and only if its range is day-aligned |
| KLine.HalfDayCall | backend/internal/datasource/manager.go:284-289 | A concrete failing call: asking an empty cache for the second half of a day caches an empty whole day, and the bar of the first half is lost |
| KLine.HalfDayHit | backend/internal/datasource/manager.go:225-241 | A concrete call that returns too much: while the whole day is cached, a call for its second half returns the bar of the first half |
| KLine.WholeDayIffAgrees | backend/internal/datasource/manager.go:284-289 | A window agrees with its day in every source if and only if it is the whole day |
| KLine.WriteBackAgreesIff | backend/internal/datasource/manager.go:279-290 | After the write-back the cache agrees with the source if and only if every missing window brought in its whole day |
| KLine.Session | backend/internal/datasource/manager.go:207-295 | From an empty cache on, over any aligned calls with entries expiring in between, the cache agrees with the source; every well-formed call with a source up is served, every served answer has as a set exactly the source's bars of its range, none more than doubled, and a partial answer has only bars of its range |
| EventBus.MemBus.Subscribe | backend/internal/orchestrator/eventbus.go:71-75 | A new open empty channel is appended to its run's list; nothing else changes |
| EventBus.MemBus.Unsubscribe | backend/internal/orchestrator/eventbus.go:76-90 | The channel is closed and listed nowhere, once; every other channel and listing stays; calling it again does nothing |
| EventBus.MemBus.Publish | backend/internal/orchestrator/eventbus.go:93-115 | Every channel listed under the run is tried once, taken in with fewer than 64 waiting and dropped otherwise; all other channels are as they were |
| EventBus.NeverPanics | backend/internal/orchestrator/eventbus.go:71-115 | In no interleaving is a closed channel sent to or a channel closed twice |
| EventBus.Conservation | backend/internal/orchestrator/eventbus.go:93-115 | At every moment the events published on a run while subscribed are those tried on the channel and those still due from publishers in their loops; the tried ones were taken in or dropped, those taken in are received or still queued, in order |
| EventBus.PublisherOrder | backend/internal/orchestrator/eventbus.go:93-115 | Each publisher's events are tried on a channel in that publisher's order, none lost or repeated |
| EventBus.AcceptedInOrder | backend/internal/orchestrator/eventbus.go:93-115 | The events taken in are a subsequence of the events tried |
| EventBus.ArriveInOrder | backend/internal/orchestrator/eventbus.go:93-115 | The events a reader has received from one publisher are a subsequence of what that publisher published, in its order |
| EventBus.DropsOnlyWhenFull | backend/internal/orchestrator/eventbus.go:107-119 | An event is dropped only with 64 pending, and the counter is the sum of all drops |
| EventBus.Always | backend/internal/orchestrator/eventbus.go:71-119 | Lists, histories, counters and publishers in their loops stay consistent after every interleaving |
| Drawdown.MaxDrawdown | backend/internal/perf/calculator.go:56-80 | None for fewer than two points; else the largest drop from a positive running peak over all finite values |
| Drawdown.ValuesExact | backend/internal/perf/calculator.go:62-65 | The values scanned are all the finite ones, in order |
| Drawdown.WorstIsLargestDrop | backend/internal/perf/calculator.go:43-80 | For positive prices the running-peak result is the largest relative drop over all pairs of an earlier and a later price, and no other number is |
| Drawdown.NothingFinite | backend/internal/perf/calculator.go:43-80 | A path of two non-finite points has the result zero |
| Drawdown.LargestDropRange | backend/internal/perf/calculator.go:43-80 | It is unique and lies in [0, 1) |
| Drawdown.ScaleInvariant | backend/internal/perf/calculator.go:43-80 | Scaling the path does not change it |
| TradingDays.NextTradingDay | backend/internal/calendar/trading_day.go:138-147 | The first trading day strictly after, or the day itself and a false flag when the next 366 days have none |
| TradingDays.PreviousTradingDay | backend/internal/calendar/trading_day.go:151-160 | The same backwards |
| TradingDays.ScansInverse | backend/internal/calendar/trading_day.go:138-160 | On trading days the two scans are converse to each other |
| TradingDays.PreviousUndoesNext | backend/internal/calendar/trading_day.go:138-160 | From a trading day forward and back again: the backward scan succeeds and ends where the forward one began |
| TradingDays.Walk | backend/internal/perf/service.go:140-158 | The days used are the 1st, 3rd and 5th trading days strictly after the date; the walk fails if and only if it stands before 366 idle days after fewer than five trading days |
| TradingDays.NthUnique | backend/internal/perf/service.go:140-158 | The n-th trading day after a date is unique |
| Retry.Retry | backend/internal/notify/retry.go:54-117 | At most Attempts calls; which of success, abort, cancel or exhaustion ends it, after which attempt, and with which error: the last attempt's, or the context's own when a wait is cut short or no attempt was made; the total wait is the sum of the backoffs begun and at most initial + (Attempts - 2) * max |
| Retry.EndingUnique | backend/internal/notify/retry.go:54-117 | The described ending is determined by what the calls and the context do |
| Retry.BackoffClosed | backend/internal/notify/retry.go:109-113 | From the second on, the wait is initial * 2^(k-1) capped at the maximum |
| Retry.TotalBackoffClosed | backend/internal/notify/retry.go:57-113 | The first wait is the initial one; n uncapped waits total initial * (2^n - 1) |
| Retry.WithDefaults | backend/internal/notify/retry.go:32-43 | Field by field: a positive setting is kept, else 3 attempts, one second, thirty seconds |
| Retry.TotalBackoffBound | backend/internal/notify/retry.go:99-113 | The first n waits total at most initial + (n - 1) * max |
| Retry.CandidateOrder | backend/internal/notify/manager.go:199-217 | Primary first, then the fallbacks in their order of first appearance, each non-empty name exactly once |
| Retry.FirstOnesExact | backend/internal/notify/manager.go:199-217 | Keeping first appearances loses no name and repeats none |

## Left out

- Execute.RunLoop: one node body at a time, in an arbitrary order, with the context cancelled at any point before, in or after a body; arbitrary interleavings of the bodies are covered by the transition system, on which all theorems about runs are stated.
- Execute.RunOneNode: node bodies are pure functions of type, subtype and inputs; timeouts, panics, errors and payloads arrive as their outcome, shared run variables, timestamps, durations, published events and the wording of errors are not modelled.
- Execute.ExecuteToNode: agreement with full runs is stated for undisturbed runs, because a cancellation may hit the two runs at different nodes.
- Ordering.SortStrings: ids are compared as character sequences, which stands for the byte order of the program.
- EngineSafety.DispatchSafety: a predecessor whose id is one of the four reserved input keys is hidden by the node's own settings, as in the program; the statement says so key by key.
- Breaker.CircuitBreaker.Allow: clock readings are arguments, integers in nanoseconds; calls from several goroutines are a sequence in the order they take the lock.
- Failover.CallChain: one walk by one goroutine, with two clock readings per source; logging and errors of the health repository are not modelled, the other typed helpers walk the same way, and a refused source's state is read as for the log line.
- KLine.GetKLine: a day is 24 hours in one fixed-offset location; a source is a fixed list of bars answering half-open ranges, with their source tag set; keys are triples, so stock codes and periods without ':' are assumed; entries hold bars, not their JSON text; a missing cache and failing cache calls are not modelled.
- ReactFlow.ParseDag: abstract JSON values over reals; byte layout, number precision, case-insensitive and unknown keys, and the distinction of an invalid document from an empty text are not modelled, and the decoding of a string's content is a parameter of which only one fact is assumed, that a JSON text is not the string it denotes.
- Remap.RemapDag: the random suffix is a parameter; node order by id, hence the sorted sequence, is not claimed to be preserved.
- EventBus.MemBus.Publish: one call by itself; several publishers in their loops at once are the interleavings of the second half of the module.
- Drawdown.MaxDrawdown: reals instead of floating point; NaN and infinities are the values that are skipped.
- TradingDays.Walk: whether a day is a trading day is a fixed predicate; the calendar's holiday cache, which can answer differently the second time, is not modelled.
- Retry.Retry: durations are unbounded integers; outcomes of the calls and the moments at which the context is found done are parameters.
- The sending loop of the notification manager and the recovery of an opened channel, because it skips every channel whose breaker is not closed.
- Win rate, average and median returns: plain sums and one more sort.
- Strategy persistence, scheduling by cron expression, HTTP handlers, authentication, configuration, logging, Redis, language-model clients, the concrete node bodies, the frontend and the Python services.
