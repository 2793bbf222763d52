# AutoAgent: model and proofs

A Dafny model of the algorithms at the core of AutoAgent, a workflow compiler with an
asynchronous runtime and a monitoring UI, and proofs of what these algorithms promise.
`dafny verify dfyconfig.toml` checks everything.

| part | files |
|---|---|
| loop analysis of a compiled graph | `Digraph`, `NaturalLoops`, `WorkflowGraph`, `LoopPasses`, `AcyclicityPass`, `ComponentSearch`, `LoopRegions`, `LoopNesting`, `LoopCompiler` |
| orthogonal edge routing | `BinaryHeap`, `RouteSearch`, `RouteGeometry`, `Visibility`, `GridSuffices`, `EdgeRouting` |
| one Invocation's control loop, lifecycle and mailbox | `InvocationLifecycle`, `DriveLoop`, `BatchEndings` |
| optimistic Context commits | `ContextPaths`, `ContextTree`, `ContextCommit` |
| parallel unit workers, retry and fallback | `UnitWorkers` |
| batching of streamed user events | `EventBatcher` |
| coalescing of language model streams | `StreamCoalescing` |
| flattening of child Workflows | `FreshIds`, `ExpandedIds`, `Expansion`, `ExpansionNames`, `ExpansionEdges`, `ExpansionChoices` |
| event projection and its cache | `Projection`, `ProjectionMeans`, `ProjectionShown` |
| shared | `Options`, `Lists`, `Sorting`, `SlashText` |

## How to read the model

- Nodes and edges of a compiled graph are their positions in insertion order, which is
  what the compiler orders by. Executions of an Invocation are their positions too:
  the program gives each a fresh UUID.
- Coordinates are real numbers; rounding is not modelled.
- What cannot be computed from the modelled state is a parameter: what the Scheduler does
  with transitions, whether a hook or an Operator fails, when a timer fires, in which
  order tasks run. Statements hold for every value of these parameters, and whole runs
  are sequences of turns in any order.
- A method that changes state is proved against a function of the old state, or against
  the property it must establish; the lemmas are about those functions and properties. What
  a specification function means is stated apart from it, with the source's numbers written
  out: by the fields before and after, by coordinates, or by places in the list of events.
- The compiler runs its loop passes inside one method; here each pass is a method of its
  own, called in the same order. A `ghost` argument or result is what only a proof needs.

## What the proofs found

- `LOOP_OVERLAP_INVALID` and the second `LOOP_ENTRY_INVALID` can never be reported: once the
  component pass has succeeded, natural loops of different headers are disjoint or strictly
  nested, and an edge from outside always enters a natural loop at its header. Both reports
  are dead branches in `LoopCompiler`.
- A fail-fast recovery that meets a ready request it may not replay returns `interrupted`
  with the mailbox still open, and the jobs prepared before in the same batch are started all
  the same: their tasks run for executions that are over. `BatchEndings.EndMeans` says which
  batches end so, `DriveLoop.BatchLeads` what they leave, `DriveLoop.InterruptedWithWork`
  is such a run.
- When the event loop gives up on a stream, by cancellation or time-out, its flush overtakes
  every batch that the producing thread still has on its way
  (`EventBatcher.FlushKeepsOrderExactly`), and the mailbox never gets back in order
  (`EventBatcher.OrderExactly`); `EventBatcher.OvertakingHappens` is such a run. Streams that
  reach their end stay in order, and deadlines never overtake.
- Simplifying a line that runs straight out and back leaves two equal points in a row
  (`RouteGeometry.SpikeCollapses`). A simplified line turns at every inner point and repeats
  none exactly when no straight run of the line ends where it began
  (`RouteGeometry.SimplifiedTurnsExactly`).
- Local ids may contain slashes, and then nodes of nested Workflows can get one expanded id:
  exactly those whose addresses agree part by part (`ExpansionNames.DistinctExactly`).
  `ExpansionNames.SlashesCollide` gives, for every local id with a slash, Workflows with
  unique local ids whose expansion repeats it. Without slashes ids are all different.
- The projection relies on events of one execution naming one node. An event that moves an
  execution leaves its old node with a count that is one too high; every view along a run
  shows every node right exactly when there is no such event
  (`ProjectionShown.ShownRightExactly`).
- While the history is not loaded, a cursor below the bootstrap's checkpoint shows the fold of
  the loaded events only (`Projection.ProjectionAt`).
- The summary a node shows in the projection is not always its latest execution's: it is
  that of the execution, named by `ProjectionShown.ShownFor`, whose call was the last to
  complete since the node's last own event (`ProjectionShown.NodeShows`).

## Model

| member | source | states |
|---|---|---|
| WorkflowGraph.BuildGraph | autoagent/core/compiler/compiler.py:585-612 | the incoming and outgoing tables list exactly the edges, and the neighbour tables exactly the neighbours without repetition |
| WorkflowGraph.InferEntries | autoagent/core/compiler/compiler.py:614-653 | the entries are exactly the nodes no edge enters, in order |
| LoopPasses.ReachableNodes | autoagent/core/compiler/compiler.py:693-700 | exactly the nodes some walk from an entry reaches |
| LoopPasses.ComputeDominators | autoagent/core/compiler/compiler.py:702-726 | the iteration ends, and every reachable node's set is exactly the nodes on all walks to it from the entries |
| LoopPasses.UpdateNode | autoagent/core/compiler/compiler.py:710-726 | one in-place update keeps every set above the true dominators and shrinks the total when it changes anything |
| LoopPasses.FixpointOnWalk | autoagent/core/compiler/compiler.py:708-726 | at a fixpoint each listed node lies on every walk to the node |
| LoopPasses.FixpointExact | autoagent/core/compiler/compiler.py:702-726 | a fixpoint above the true dominators is the true dominators |
| LoopRegions.CollectBackEdges | autoagent/core/compiler/compiler.py:728-735 | groups exactly the edges whose target dominates their source, one group for each header |
| ComponentSearch.StronglyConnectedComponents | autoagent/core/compiler/compiler.py:970-1016 | the components partition all nodes, and two nodes share one exactly when each reaches the other |
| ComponentSearch.Finder.Visit | autoagent/core/compiler/compiler.py:982-1011 | a visit finishes what it can reach: it emits whole components and leaves a stacked node with a true low link |
| ComponentSearch.Finder.Scan | autoagent/core/compiler/compiler.py:990-999 | after the successors are scanned the low link is attained by a reachable stacked node and bounds all of them |
| ComponentSearch.Finder.PopComponent | autoagent/core/compiler/compiler.py:1004-1011 | popping down to the root takes exactly the stack above it |
| ComponentSearch.RootMaximal | autoagent/core/compiler/compiler.py:1001-1011 | what is popped at a root is everything mutually reachable with it |
| LoopRegions.CheckEntries | autoagent/core/compiler/compiler.py:740-783 | reports nothing exactly when every cyclic component is entered at one node only; a report names a real component and edge |
| AcyclicityPass.CheckAcyclic | autoagent/core/compiler/compiler.py:785-823 | visits as many nodes as are reachable exactly when the reachable graph without back edges has no cycle |
| AcyclicityPass.StuckOnCycle | autoagent/core/compiler/compiler.py:794-812 | a reachable node that is never visited means a cycle among the kept edges |
| LoopPasses.CollectLoop | autoagent/core/compiler/compiler.py:825-841 | the reverse walk collects exactly the header and the nodes that reach a back edge without passing the header |
| NaturalLoops.LoopDominated | autoagent/core/compiler/compiler.py:683-690 | a loop's header dominates every node of the loop |
| NaturalLoops.LoopReachable | autoagent/core/compiler/compiler.py:830-835 | once every component has one entry, no loop contains an unreachable node, although the reverse walk does not test reachability |
| NaturalLoops.LoopClosedUnderPredecessors | autoagent/core/compiler/compiler.py:889-904 | every arc into a natural loop's node other than the header comes from the loop, so an edge from outside targets the header |
| NaturalLoops.EntryInLoopIsHeader | autoagent/core/compiler/compiler.py:900-904 | an entry inside a loop is its header |
| NaturalLoops.LoopsLaminar | autoagent/core/compiler/compiler.py:843-861 | once every component has one entry, loops of different headers are disjoint or strictly nested |
| LoopRegions.LoopsAreLaminar | autoagent/core/compiler/compiler.py:843-861 | the collected candidates are laminar, so the overlap report is unreachable |
| LoopRegions.HasOverlap | autoagent/core/compiler/compiler.py:843-861 | the pairwise test is true exactly when two candidates overlap without strict nesting |
| NaturalLoops.CycleCaptured | autoagent/core/compiler/compiler.py:683-690 | every reachable cycle of a reducible graph lies in one loop, passes its header, and the header dominates it |
| NaturalLoops.ReducibleLeavesNoCycle | autoagent/core/compiler/compiler.py:785-823 | when all reachable cycles are captured by headers, removing back edges leaves none |
| LoopRegions.CollectCandidates | autoagent/core/compiler/compiler.py:825-841 | one candidate for every header, with exactly its natural loop and its back edges |
| LoopNesting.FindParent | autoagent/core/compiler/compiler.py:867-877 | the parent is a strict superset of least size, absent only when there is none |
| LoopNesting.ParentInnermost | autoagent/core/compiler/compiler.py:867-877 | the parent is contained in every other strict superset, so it is unique |
| LoopNesting.ComputeDepth | autoagent/core/compiler/compiler.py:933-937 | the depth is one more than the parent's, zero without a parent |
| LoopNesting.StackFor | autoagent/core/compiler/compiler.py:954-965 | a node's stack lists all regions containing it, each the parent of the next |
| LoopNesting.SortedStackIsChain | autoagent/core/compiler/compiler.py:954-965 | sorting by depth puts the region of depth k at place k, directly inside the one before |
| LoopCompiler.CompileLoopRegions | autoagent/core/compiler/compiler.py:674-968 | refuses for entries exactly when some cyclic component has several, compiles exactly when all have one and every reachable cycle has a dominating header, and then regions, nesting and stacks are exact and every reachable cycle is captured |
| LoopCompiler.CandidateMakesRegion | autoagent/core/compiler/compiler.py:879-952 | a region's internal, entry, exit and back edges are exactly those of its loop, each listed once in order |
| LoopCompiler.CyclesCaptured | autoagent/core/compiler/compiler.py:683-690 | every reachable cycle lies in an emitted region and passes its header |
| BinaryHeap.MinHeap.Push | ui/src/graphRouting.ts:449-459 | adds exactly the value and keeps the heap ordered |
| BinaryHeap.MinHeap.Pop | ui/src/graphRouting.ts:461-485 | removes exactly one value, none of the others scores less; nothing only when empty |
| BinaryHeap.MinHeap.SiftDown | ui/src/graphRouting.ts:466-484 | moving the hole down restores the order and keeps the values |
| BinaryHeap.RootIsLeast | ui/src/graphRouting.ts:461-466 | in an ordered heap no value scores less than the root |
| RouteSearch.SearchOrthogonalPath | ui/src/graphRouting.ts:274-339 | ends; nothing exactly when no route leads to the end, otherwise the points of a route with the least of all costs: the absolute differences of the coordinates along it, and 24 at every place where one of the meeting segments is vertical and the other is not |
| RouteSearch.CostFromCoordinates | ui/src/graphRouting.ts:303-314 | the cost the search adds up along a route is that of its points, by their coordinates |
| RouteSearch.TurnsExactly | ui/src/graphRouting.ts:303-310 | on a line along the axes the 24 is charged exactly where it moves along one axis and then along the other |
| RouteSearch.ThreePoints | ui/src/graphRouting.ts:303-314 | an L costs its length and 24, three points on one line cost the length alone |
| RouteSearch.Expand | ui/src/graphRouting.ts:306-326 | offering a popped state's cost to its neighbours keeps all that the search relies on |
| RouteSearch.FrontierBound | ui/src/graphRouting.ts:299-305 | every route not settled yet costs at least some queued estimate |
| RouteSearch.PopIsOptimal | ui/src/graphRouting.ts:299-305 | the cheapest queued state is a lower bound for every unsettled route |
| RouteSearch.ConsistentStep | ui/src/graphRouting.ts:322-323 | cost plus distance to the end never falls along a route |
| RouteSearch.SettledNotImproved | ui/src/graphRouting.ts:315-319 | a settled state is never given a lower cost |
| RouteSearch.DropStale | ui/src/graphRouting.ts:302-302 | dropping an entry whose cost is out of date loses no state |
| RouteSearch.TracePath | ui/src/graphRouting.ts:328-338 | following the previous links ends and yields the route's points from the start |
| RouteGeometry.SegmentIntersectsExact | ui/src/graphRouting.ts:142-160 | an axis-aligned segment is reported exactly when a real point of it is strictly inside the rectangle; an inclined one always |
| RouteGeometry.SimplifyKeepsShape | ui/src/graphRouting.ts:406-422 | simplifying keeps both ends and axis alignment |
| RouteGeometry.SimplifyAddsNothing | ui/src/graphRouting.ts:406-422 | every point of the simplified line is on the original one, so it avoids what that avoids |
| RouteGeometry.SimplifiedTurnsExactly | ui/src/graphRouting.ts:406-422 | a simplified line turns at every inner point and repeats none exactly when no straight run of the line ends where it began |
| RouteGeometry.RepeatsDropped | ui/src/graphRouting.ts:407-412 | dropping repeats keeps exactly the first point and those that differ from the one before, in order |
| RouteGeometry.SpikeCollapses | ui/src/graphRouting.ts:413-421 | a line straight out and back is reduced to two equal points |
| RouteGeometry.DroppedOnOneLine | ui/src/graphRouting.ts:413-421 | without repeated points, dropped points and their neighbours lie on one line |
| RouteGeometry.RouteMidpoint | ui/src/graphRouting.ts:118-140 | the label lies on the line at half its length |
| Visibility.ConnectVisibleNeighbors | ui/src/graphRouting.ts:253-272 | links exactly the consecutive points that see each other, both ways |
| Visibility.BuildVisibilityNeighbors | ui/src/graphRouting.ts:231-251 | neighbours are exactly the points next to each other in a row or column with nothing in between |
| Visibility.GridPoints | ui/src/graphRouting.ts:206-214 | the points are exactly the grid points that no obstacle has inside, each indexed once |
| Visibility.VisibleRouteIsClear | ui/src/graphRouting.ts:253-272 | a route over visible neighbours is axis-aligned and has no point inside an obstacle |
| Visibility.GridLineIsRoute | ui/src/graphRouting.ts:231-272 | every line along the grid that avoids the obstacles is drawn by a route over visible neighbours, at the same cost |
| Visibility.RouteIsGridLine | ui/src/graphRouting.ts:231-272 | every route over visible neighbours draws a line along the grid that avoids the obstacles |
| GridSuffices.GridIsEnough | ui/src/graphRouting.ts:191-229 | for every line along the axes that avoids the boxes there is one on the grid of their sides, of start and of end that does so too and costs no more |
| GridSuffices.SlidCost | ui/src/graphRouting.ts:303-314 | moving all points of one column to another changes the cost of a line by at most what its pieces there gain in length |
| GridSuffices.ToColumns | ui/src/graphRouting.ts:191-214 | column by column a line comes onto the grid, avoiding what it avoided, at no more cost |
| EdgeRouting.FallbackJoins | ui/src/graphRouting.ts:341-362 | the detour goes from start straight to a height 18 above or below everything, whichever is nearer, across and straight to end; the crossing is inside no obstacle |
| EdgeRouting.RouteBetween | ui/src/graphRouting.ts:191-229 | among boxes of positive size, a cheapest of all lines along the axes that avoid them, on the grid or not, and exactly when there is none the detour; among any boxes a cheapest visible route, clear of all of them, or the detour |
| EdgeRouting.SearchBetween | ui/src/graphRouting.ts:191-229 | a cheapest route over the free grid points; the detour only when an end is inside an obstacle or no visible route exists |
| EdgeRouting.SearchedIsCheapest | ui/src/graphRouting.ts:191-229 | among boxes of positive size the searched route costs no more than any line along the axes that avoids them |
| EdgeRouting.RouteSingleEdge | ui/src/graphRouting.ts:162-189 | an axis-aligned line from the middle of the source's right side to the middle of the target's left side, between stubs of 18 a cheapest of all lines that avoid the boxes, or the detour, simplified; when searched only the stubs can be inside an obstacle |
| InvocationLifecycle.Invocation.MarkNodeCompleted | autoagent/core/runtime/invocation.py:287-299 | completes the execution and enqueues its transition |
| InvocationLifecycle.Invocation.MarkNodeFailed | autoagent/core/runtime/invocation.py:301-316 | fails the execution and enqueues its transition |
| InvocationLifecycle.Invocation.MarkNodeWaiting | autoagent/core/runtime/invocation.py:318-354 | records the wait key and the transition, or refuses a key already waited on after the execution was marked |
| InvocationLifecycle.Invocation.CancelActiveNodeExecutions | autoagent/core/runtime/invocation.py:393-402 | cancels every unfinished execution and no other, and clears the queues |
| InvocationLifecycle.Invocation.InterruptActiveNodeExecutions | autoagent/core/runtime/invocation.py:404-413 | interrupts every unfinished execution and no other, and clears the queues |
| InvocationLifecycle.Mailbox.FinishTask | autoagent/core/runtime/mailbox.py:29-40 | a task in flight leaves and its result arrives if the mailbox accepts; an unknown task is refused |
| InvocationLifecycle.Mailbox.Abandon | autoagent/core/runtime/mailbox.py:73-89 | hands back what had arrived and what dropped tasks still report; nothing is in flight, undelivered or accepted any more |
| DriveLoop.DriveStep | autoagent/core/executor/workflow_executor.py:465-663 | one pass keeps every running execution backed by exactly one task or result, or returns with nothing unfinished; what is left decides the ending; a batch of ready requests ends the pass exactly when its first request that neither starts nor is skipped says so, and an interrupted batch leaves the mailbox open with its prepared jobs started |
| BatchEndings.EndMeans | autoagent/core/executor/workflow_executor.py:850-1082 | a batch goes through exactly when no request has an unknown node, a forbidden replay under fail-fast, or a node at its limit counting the starts before it; the first that has interrupts the batch for a forbidden replay and fails it otherwise |
| DriveLoop.InterruptsExactly | autoagent/core/executor/workflow_executor.py:862-909 | without unknown nodes and limits a batch is interrupted exactly when it holds a forbidden replay under fail-fast |
| DriveLoop.InterruptedWithWork | autoagent/core/executor/workflow_executor.py:496-519 | a run that returns interrupted with a task in flight for an interrupted execution and a mailbox that accepts |
| DriveLoop.Drive | autoagent/core/executor/workflow_executor.py:465-663 | the same over any interleaving of passes and workers, for any Scheduler; in every state an execution is completed only by a produced result that was applied to it or by a resume |
| DriveLoop.SubmitReadyRequests | autoagent/core/executor/workflow_executor.py:850-1082 | goes through, fails or is interrupted exactly as the first stopping request says; going through, every request but forbidden replays gets one execution, in order, running with a job or failed for want of an input, and nothing else is added |
| DriveLoop.VerdictMeans | autoagent/core/executor/workflow_executor.py:861-909 | an unknown node or a reached limit fails, a replay beyond the policy interrupts under fail-fast and is skipped otherwise, any other request starts |
| DriveLoop.SubmitBatch | autoagent/core/executor/node_executor.py:276-373 | every job becomes one task or one result, nothing else changes hands |
| DriveLoop.ApplyMessages | autoagent/core/executor/workflow_executor.py:534-555 | every message is applied in order and the mailbox emptied; a result for an unknown execution cannot occur |
| DriveLoop.ApplyResult | autoagent/core/executor/workflow_executor.py:1157-1368 | a broken result, an overrun, a failed binding or a key already waited on fails exactly the result's execution, any other produced result completes it, a free key pauses it; the transition is enqueued last |
| DriveLoop.AppliedMeans | autoagent/core/executor/workflow_executor.py:1157-1368 | the same said of the function that specifies whole batches of messages |
| DriveLoop.ResultSettles | autoagent/core/executor/workflow_executor.py:1157-1368 | the execution a result names is running, and settling it keeps everything backed, handed over once and within limits |
| DriveLoop.ExecutionStarts | autoagent/core/executor/workflow_executor.py:924-949 | starting an execution below its node's limit keeps the invariant |
| DriveLoop.TaskReports | autoagent/core/executor/node_executor.py:389-398 | a finished background task hands its result to the execution it ran for |
| DriveLoop.NothingPendingIsQuiet | autoagent/core/executor/workflow_executor.py:557-663 | with no task, message, wait or queued work left no execution is unfinished |
| DriveLoop.Conclude | autoagent/core/executor/workflow_executor.py:557-663 | the Invocation waits exactly when a wait is open, else ends as deferred, else completes exactly when an execution of an exit node is completed, else fails |
| DriveLoop.FinishFailed | autoagent/core/executor/workflow_executor.py:1907-1957 | nothing unfinished, queued, in flight or deliverable is left |
| DriveLoop.Cancel | autoagent/core/executor/workflow_executor.py:717-738 | a cancelled Invocation leaves nothing unfinished, queued, in flight or deliverable |
| DriveLoop.Resume | autoagent/core/executor/workflow_executor.py:776-848 | settles exactly the execution that waits on the key and puts the loop's invariant back; an unknown key changes nothing |
| DriveLoop.Recover | autoagent/core/executor/workflow_executor.py:306-421 | after a crash, an Invocation that was never started is started; executions lost with their process are interrupted and requeued exactly where their policy allows a replay, and the loop's invariant holds; a changed definition, or a forbidden replay under fail-fast, interrupts everything; an ended or waiting one is left alone |
| DriveLoop.PrepareRequest | autoagent/core/executor/workflow_executor.py:861-948 | stops exactly for an unknown node, a reached limit, or a forbidden replay under fail-fast; a forbidden replay is otherwise skipped and the ending deferred; every other request adds one execution and, when its input can be prepared, one job |
| DriveLoop.Start | autoagent/core/executor/workflow_executor.py:206-229 | a new Invocation satisfies the loop's invariant |
| ContextPaths.EscapeRoundTrip | autoagent/core/runtime/context.py:148-161 | the merge's decoding undoes the escaping of any key |
| ContextPaths.PathRoundTrip | autoagent/core/runtime/context.py:134-161 | splitting and decoding a path gives back the segments it was written from |
| ContextPaths.OverlapExact | autoagent/core/runtime/context.py:173-178 | the string test holds exactly when one segment list is a prefix of the other |
| ContextTree.ChangedPathsExact | autoagent/core/runtime/context.py:129-145 | the listed paths are exactly the paths of the changed locations |
| ContextTree.ChangedPathsDistinct | autoagent/core/runtime/context.py:129-145 | no path is listed twice |
| ContextTree.ChangesApart | autoagent/core/runtime/context.py:129-145 | no changed location lies above another |
| ContextTree.ChangedReadsDiffer | autoagent/core/runtime/context.py:129-145 | a listed location reads differently in the two trees |
| ContextTree.UntouchedReadsSame | autoagent/core/runtime/context.py:129-145 | a location that overlaps no listed one reads the same in both trees |
| ContextTree.MergeRemoves | autoagent/core/runtime/context.py:152-170 | merging a changed location succeeds and leaves exactly the other changes |
| ContextTree.DiffThenMerge | autoagent/core/runtime/context.py:91-104 | merging the changed paths in any order turns one tree into the other |
| ContextTree.NothingListedWhenEqual | autoagent/core/runtime/context.py:71-76 | nothing is listed exactly when the trees are equal |
| ContextCommit.RuntimeContext.CommitIsolated | autoagent/core/runtime/context.py:61-106 | a published commit makes data and metadata those of the working copy, one revision on, with that revision on exactly the changed paths; a conflict names exactly the changed paths that overlap one stamped above the base; otherwise nothing changes |
| ContextCommit.CommitMeans | autoagent/core/runtime/context.py:61-106 | the same said of the function that specifies histories |
| ContextCommit.MergeChanges | autoagent/core/runtime/context.py:91-104 | the merge arrives at the working copy and no lookup fails |
| ContextCommit.StampsSuffice | autoagent/core/runtime/context.py:104-105 | the latest revision of each path is enough to tell whether any commit above a base changed it |
| ContextCommit.RefusedExactlyOnClash | autoagent/core/runtime/context.py:77-90 | over any history a commit is refused exactly when a changed location overlaps one changed above its base; the refusal names exactly those and changes nothing |
| ContextCommit.NoLostUpdate | autoagent/core/runtime/context.py:61-106 | over any history a published commit leaves what later revisions than its base wrote as it was |
| ContextCommit.PublishedIsRead | autoagent/core/runtime/context.py:61-106 | over any history what a published commit wrote is read until a later commit changes a location that overlaps it |
| ContextCommit.UnchangedExactlyWhenEqual | autoagent/core/runtime/context.py:71-76 | a commit publishes nothing exactly when the working copy is equal |
| ContextCommit.PublishBinding | autoagent/core/executor/workflow_executor.py:1747-1789 | both Contexts become their working copies, one revision on if anything was written, or neither changes |
| UnitWorkers.CallBudget.Consume | autoagent/core/executor/node_executor.py:558-572 | takes one attempt unless none is left; an absent budget never ends |
| UnitWorkers.CallSequence.Next | autoagent/core/executor/node_executor.py:575-585 | each call number is one more than the last |
| UnitWorkers.UnitPool.Take | autoagent/core/executor/node_executor.py:970-981 | a worker takes the next unit, or returns when there is none, and the pool's invariant holds |
| UnitWorkers.UnitPool.Begin | autoagent/core/executor/node_executor.py:1038-1062 | the next attempt gets a fresh number, or the unit fails at the ladder's or the budget's end |
| UnitWorkers.UnitPool.AttemptEnds | autoagent/core/executor/node_executor.py:1065-1158 | a success is the unit's result, a failure moves to the next try or operator; either is put on record with its number, operator and reason |
| UnitWorkers.UnitPool.CancelOthers | autoagent/core/executor/node_executor.py:1001-1024 | after a failed unit every other worker stops and no one is active |
| UnitWorkers.Run | autoagent/core/executor/node_executor.py:957-1024 | over every interleaving each claimed unit is in exactly one place, each call number belongs to exactly one attempt, attempts climb the fallback ladder |
| UnitWorkers.TookOk | autoagent/core/executor/node_executor.py:970-981 | claiming a unit keeps every unit in at most one place and the workers within the limit |
| UnitWorkers.CalledOk | autoagent/core/executor/node_executor.py:1038-1056 | starting an attempt keeps call numbers unique and within the budget |
| UnitWorkers.FailureOk | autoagent/core/executor/node_executor.py:1104-1150 | a failed attempt leads to the next rung: another try, then the next operator |
| UnitWorkers.AttemptsByPlace | autoagent/core/executor/node_executor.py:1038-1158 | a result's k-th attempt is at operator k divided by the number of tries; it is a retry except at an operator's first try, and that a fallback except at the first operator; only the last of a successful unit succeeded |
| UnitWorkers.CancelledOk | autoagent/core/executor/node_executor.py:1001-1024 | cancelling keeps the accounts: dropped units and calls are still counted once |
| UnitWorkers.WithinBudgetAndLimit | autoagent/core/executor/node_executor.py:558-572 | attempts started never exceed the budget nor workers the limit |
| UnitWorkers.AllUnitsAnswered | autoagent/core/executor/node_executor.py:957-1024 | when all workers have returned without a failure every unit has its output |
| UnitWorkers.Aggregate | autoagent/core/executor/node_executor.py:1562-1670 | outputs in unit order, one for each unit, exactly when none failed; otherwise the failure of the lowest failed unit |
| UnitWorkers.SummaryAddsUp | autoagent/core/executor/node_executor.py:1853-1867 | the counts are the numbers of units with an output, with an error and without a result, and add up to all |
| EventBatcher.StreamEventBatcher.AppendLocked | autoagent/core/executor/node_executor.py:182-193 | the spec is pending or in the batch taken at 32; the first of a batch begins a generation and its deadline |
| EventBatcher.StreamEventBatcher.FlushGeneration | autoagent/core/executor/node_executor.py:208-215 | a stale deadline flushes nothing, the current one flushes all that is pending; a running deadline keeps the order |
| EventBatcher.StreamEventBatcher.FlushNow | autoagent/core/executor/node_executor.py:177-180 | delivers all that is pending, ahead of every batch on its way |
| EventBatcher.Run | autoagent/core/executor/node_executor.py:106-234 | over every interleaving the state is that of its turns; the order of batches is kept when no turn overtakes, and only then if no spec occurs twice or the loop appends none |
| EventBatcher.RunKeeps | autoagent/core/executor/node_executor.py:106-234 | over every run nothing is lost or doubled, batches hold at most 32 and those on their way exactly 32, pending specs always have a deadline, and the order is kept when no turn overtakes |
| EventBatcher.StepTakes | autoagent/core/executor/node_executor.py:182-215 | pending specs leave exactly when one more makes 32, the stream is flushed, the current deadline fires or the thread's return is learned; otherwise an appended spec is added to them |
| EventBatcher.StepDelivers | autoagent/core/executor/node_executor.py:177-234 | what the loop takes it delivers at once, a batch of the thread when its callback runs |
| EventBatcher.OrderExactly | autoagent/core/executor/node_executor.py:106-234 | delivered batches and those on their way are in the order taken exactly when no turn overtook, for thread-fed streams whatever the specs are, and for all turns when no spec occurs twice |
| EventBatcher.FinishedExactly | autoagent/core/executor/node_executor.py:106-234 | with specs that are all different a finished run has delivered them in the order of appending exactly when no turn overtook |
| EventBatcher.LoopAppendKeepsOrderExactly | autoagent/core/executor/node_executor.py:182-199 | a full batch the loop delivers itself keeps the order exactly when every batch on its way equals it |
| EventBatcher.LoopStreamInOrder | autoagent/core/executor/node_executor.py:161-180 | a stream the loop consumes never has a batch on its way and stays in order through any number of flushes |
| EventBatcher.ThreadStreamComplete | autoagent/core/executor/node_executor.py:1318-1342 | a stream whose thread runs to its end stays in order, and when the loop has run what was asked of it the mailbox holds exactly what was appended |
| EventBatcher.FinishedIsComplete | autoagent/core/executor/node_executor.py:106-234 | any run that leaves nothing pending or on its way has delivered every appended spec, in order if no turn overtook |
| EventBatcher.DeadlineOvertakesNothing | autoagent/core/executor/node_executor.py:201-215 | when the current deadline fires no batch is on its way |
| EventBatcher.AddedByThreadOk | autoagent/core/executor/node_executor.py:182-199 | appending keeps the accounts of appended, pending and taken specs and the deadline rule |
| EventBatcher.FlushKeepsOrderExactly | autoagent/core/executor/node_executor.py:177-180 | a flush keeps the batches in the order they were taken exactly when no batch is on its way |
| EventBatcher.OvertakingHappens | autoagent/core/executor/node_executor.py:177-199 | a run from a fresh batcher in which a flush delivers a later spec before a full batch of zeros; the specs still come in the order of appending only when that spec is a zero too |
| EventBatcher.DrainedIsComplete | autoagent/core/executor/node_executor.py:106-234 | flushed and drained, the mailbox holds every appended spec, in order if nothing was overtaken |
| StreamCoalescing.CoalesceStream | autoagent/ai/operators/llm_call.py:79-171 | every emitted chunk merges consecutive received ones; between two mergeable kinds it is cut only at 32 characters or where the timer fires, and never later; only cancellation leaves a rest |
| StreamCoalescing.EveryScheduleReadsSame | autoagent/ai/operators/llm_call.py:79-171 | for every schedule the output reads like the input: all characters in order with their kind, tool ids and names, and their state at each completed response; a cancelled stream lacks fewer than 32 trailing characters |
| StreamCoalescing.ScheduleDetermines | autoagent/ai/operators/llm_call.py:79-171 | the received chunks and the timer determine the output |
| StreamCoalescing.CutsAreNeeded | autoagent/ai/operators/llm_call.py:138-195 | between text and text, reasoning and reasoning, or tool deltas of one index whose ids and names do not contradict, a cut has 32 characters before it or the timer fired there |
| StreamCoalescing.CutsAreTimely | autoagent/ai/operators/llm_call.py:138-171 | an emitted group has fewer than 32 characters before its last chunk |
| StreamCoalescing.ReadMerge | autoagent/ai/operators/llm_call.py:174-222 | reading two mergeable chunks is reading their merge |
| StreamCoalescing.MeaningKept | autoagent/ai/operators/llm_call.py:79-171 | merged groups read like their chunks, and there are no more of them |
| StreamCoalescing.Reduce | autoagent/ai/operators/llm_call.py:235-260 | a stream reduces to a response exactly when it completes once |
| StreamCoalescing.CoalescingKeepsResponses | autoagent/ai/operators/llm_call.py:79-171 | coalescing changes no completed response |
| FreshIds.GenerateEdgeId | autoagent/core/compiler/id_generation.py:4-13 | ends with an unused id, the base or the first free number from 2 |
| FreshIds.DecimalReads | autoagent/core/compiler/id_generation.py:4-13 | the suffix is the decimal text of its number |
| ExpansionEdges.ExpandChildWorkflows | autoagent/core/compiler/expansion.py:22-44 | ids are all different exactly when no two addresses agree part by part; unique local ids without slashes suffice; without problems every edge joins two nodes of the result |
| Expansion.ExpandWorkflow | autoagent/core/compiler/expansion.py:47-232 | always ends, with the groups of the source nodes and the Workflow's own edges between their entries and exits; a Workflow inside itself expands to nothing |
| Expansion.ExpandChildNode | autoagent/core/compiler/expansion.py:243-349 | embeds what the chosen entry reaches in the expanded child, or nothing with the problem named |
| ExpansionChoices.EmbeddingChoice | autoagent/core/compiler/expansion.py:282-349 | a child is embedded exactly when its selectors, or only candidates, name an entry and then an exit that the entry reaches, and then with these |
| ExpansionChoices.EntryMarks | autoagent/core/compiler/expansion.py:326-336 | the chosen entry is an entry of the result exactly when the placeholder is one, every other embedded node is none |
| ExpansionChoices.OwnGroupMeans | autoagent/core/compiler/expansion.py:98-121 | a node that is no placeholder becomes one node at its own address, with a problem exactly when it has a selector |
| ExpansionChoices.LocalIdMeans | autoagent/core/compiler/expansion.py:125-132 | an edge keeps the id its author gave; otherwise it is named after its ends, with the first free number from 2 when that is taken |
| ExpansionChoices.ProblemFreeExactly | autoagent/core/compiler/expansion.py:47-232 | a Workflow expands without problems exactly when it is not inside itself, its nodes do, no mapped edge leads to a placeholder, and inside another Workflow no edge leads to an entry |
| ExpansionChoices.EmbeddingProblemFree | autoagent/core/compiler/expansion.py:243-349 | a placeholder has no problem exactly when it asks for no behaviour of its own, its child has none, and an entry and an exit can be chosen |
| ExpansionEdges.EmbeddingKeepsSuccessors | autoagent/core/compiler/expansion.py:298-309 | the embedded nodes are exactly the least closed set from the entry, each with the outgoing edges it has in the child |
| ExpansionEdges.ChildSuccessorsKept | autoagent/core/compiler/expansion.py:282-349 | in the flattened Workflow every node a child's entry reaches is there with the outgoing edges it has in the child alone; only the exit gets the placeholder's edges besides |
| ExpansionEdges.FlattenedSuccessors | autoagent/core/compiler/expansion.py:80-179 | every node of a group keeps the group's edges, followed at the exit by the edges the Workflow draws from there |
| ExpansionEdges.OwnEdgeJoins | autoagent/core/compiler/expansion.py:125-179 | an edge of a Workflow leads from the exit of what its source was expanded to, to the entry of what its target was expanded to |
| ExpansionEdges.ExpansionKnown | autoagent/core/compiler/expansion.py:47-232 | without problems every node has endpoints and both ends of every edge are nodes of the result |
| Expansion.ReachableNodeIds | autoagent/core/compiler/expansion.py:399-421 | the least set with the entry that is closed under the edges |
| Expansion.SelectBoundary | autoagent/core/compiler/expansion.py:352-396 | the selected candidate, or the only one, or the right problem |
| ExpansionEdges.PruningKeepsSuccessors | autoagent/core/compiler/expansion.py:302-316 | every kept node keeps its outgoing edges |
| ExpansionEdges.PruningKeepsEnds | autoagent/core/compiler/expansion.py:302-316 | both ends of every kept edge are kept |
| Expansion.ExpandEdges | autoagent/core/compiler/expansion.py:125-179 | one edge for each source edge, between the resolved endpoints, under the author's id or the first unused one |
| ExpansionNames.LocalsDistinct | autoagent/core/compiler/expansion.py:76-132 | no two edges of a Workflow get the same local id, whichever ids authors gave |
| ExpansionNames.AddressesDistinct | autoagent/core/compiler/expansion.py:114-178 | with unique local ids no two nodes and no two edges of an expansion have one address, at any depth |
| ExpansionNames.DistinctExactly | autoagent/core/compiler/expansion.py:450-451 | expanded ids are all different exactly when no two addresses agree part by part |
| ExpansionNames.PlainIdsDistinct | autoagent/core/compiler/expansion.py:450-451 | unique local ids without slashes give unique expanded ids |
| ExpandedIds.JoinExact | autoagent/core/compiler/expansion.py:450-455 | two qualified ids are equal exactly when all parts between slashes are |
| ExpandedIds.JoinInjective | autoagent/core/compiler/expansion.py:450-455 | slash-free segments are determined by the qualified id |
| ExpansionNames.SlashesCollide | autoagent/core/compiler/expansion.py:47-232 | for every id with a slash, Workflows with unique local ids expand without a problem to two nodes with that id |
| Projection.ProjectEvents | ui/src/projection.ts:10-174 | the loop is the fold that skips events taken in already and stops beyond the limit |
| ProjectionMeans.StateMeans | ui/src/projection.ts:34-37 | the state is that of the last event that sets it, a changed Invocation's or waiting; created before any |
| ProjectionMeans.WaitsMean | ui/src/projection.ts:126-151 | a wait is open exactly when some event created it and no later one resumed it |
| ProjectionMeans.PhaseMeans | ui/src/projection.ts:152-160 | the phase is that of the last phase event |
| ProjectionMeans.CallsMean | ui/src/projection.ts:76-78 | a call has the state its last event gave it, and is listed exactly when there is one |
| ProjectionMeans.ExecutionMeans | ui/src/projection.ts:76-207 | an execution is known exactly when an event names it; its state and node are its last event's, and its counts are the numbers of its calls that completed, failed, retried, fell back and timed out since it was known |
| ProjectionMeans.NodeMeans | ui/src/projection.ts:208-235 | a node is shown exactly when an event is about it; its last occurrence, the number of its skips and the instance of the last one are those of its events |
| ProjectionMeans.IdleNodeMeans | ui/src/projection.ts:208-235 | a node that never ran shows its last occurrence and no execution |
| ProjectionMeans.EdgeMeans | ui/src/projection.ts:42-75 | an edge shows its last evaluation |
| Projection.ResumeIsReplay | ui/src/projection.ts:10-174 | going on from the view at an earlier sequence gives the view from nothing |
| Projection.LoadedPartSuffices | ui/src/projection.ts:28-33 | from a view that reaches what was not loaded, the loaded events are enough |
| Projection.TailUnseen | ui/src/projection.ts:28-33 | later events do not change an earlier view |
| Projection.CachedProjection | ui/src/App.tsx:1736-1774 | whatever was cached or evicted, the result is the direct fold of the whole journal when a usable checkpoint covers what is not loaded, and otherwise that of the loaded events; at most 256 views stay and all are right |
| Projection.ProjectionAt | ui/src/App.tsx:508-525 | the view at a cursor is that of the whole journal when the history is loaded or the cursor has reached the checkpoint; below the checkpoint only the loaded events count |
| Projection.ViewsSurviveGrowth | ui/src/App.tsx:1736-1774 | events added at the tail keep every cached view right |
| Projection.ProjectTakes | ui/src/projection.ts:28-33 | a view is the fold of exactly the events after its base and within the limit |
| Projection.EdgeCountsExact | ui/src/projection.ts:44-80 | an edge's counters are the numbers of its evaluations; its state is failed after any failure, else selected after any selection, else the last outcome |
| Projection.ExecutionsNumbered | ui/src/projection.ts:176-236 | while executions keep their node, the k-th of a node has sequence k and a node's count is the number of its executions |
| Projection.SequencesExact | ui/src/projection.ts:182-188 | a node's sequences are exactly 1 to its count |
| ProjectionShown.MovedExecution | ui/src/projection.ts:176-236 | after an event that moves an execution its old node shows one too many, and its new node is numbered 1 to its count exactly when the execution's sequence was the next one there |
| ProjectionShown.MoveWitness | ui/src/projection.ts:176-236 | two events naming different nodes for one execution leave the first node with a count of one and no execution |
| ProjectionShown.ShownRightExactly | ui/src/projection.ts:176-236 | every view along a run shows every node right exactly when all events of an execution name one node |
| ProjectionShown.NodeShows | ui/src/projection.ts:82-174 | a node shows its latest execution and that one's state, and the summary of the execution whose call completed last since the node's last own event, or of the latest when there was none |

## Left out

- Scheduler decisions (scopes, fan-in, loop boundaries): `DriveLoop` takes whatever the Scheduler enqueues, fails or defers as given.
- Persistence, event records, checkpoints, timing and resource usage figures.
- User hooks, Operator bodies, contract validation, registry lookups: their results are parameters.
- Task switches inside one pass of the loop: workers take turns between passes, which reach the mailbox only at the same points.
- An exception that leaves the loop and the cleanup that follows it.
- Aliasing of NodeExecution objects and of nested Context values: both are values here, replaced in place of being edited.
- Non-string Context keys, equality across Python types, and deep copies, which are the identity on values.
- CoalesceStream: an exception thrown into the generator at a yield, the closing of the provider's stream, and payload fields that a chunk's kind does not use.
- UnitPool: an Operator that swallows its cancellation and goes on (a cancelled worker stops at once here); input validation, concurrency slots, timeouts and stream consumption inside one attempt; backing off is a state between two attempts.
- Aggregate: user-defined aggregators and output contracts.
- StreamEventBatcher: the mapping of chunks to specs, and the clock; deadlines fire at any time after they were set.
- SearchOrthogonalPath: which of several cheapest routes is returned.
- Visibility.BuildVisibilityNeighbors: the order in which neighbours are listed.
- RouteBetween: avoidance of obstacles by the detour's vertical parts, which the code does not establish.
- Lane offsets of parallel edges and the choice of edges to reroute after a node moves: easy members.
- ExpandWorkflow: references to node objects instead of ids, hook scopes, and diagnostic texts; problems are listed by kind only.
- CachedProjection: the text of cache keys, which are their parts here.
- Projection: operator call details, inputs, outputs, errors and times; ties between executions with equal sequence, which occur only after an execution changed its node.
- `mergeEvents` and the event history cache: easy members.
- Providers, HTTP, the command line, settings, layout and UI components.
