# GRegion: a verified model of CGraph's region scheduler

A CGraph `GRegion` is a group of elements that the graph runs as one unit.
The region is built in two stages:

- `init` analyses the elements once. It turns them into a schedule: a
  sequence of *layers*. Each layer holds *chains* (clusters) that may run in
  parallel, and a chain is a run of elements executed one after the other.
- `run` then executes the schedule layer by layer and ends with a
  consistency check.

Around these two sit the lifecycle hooks:

- `beforeRun` and `afterRun` reset or decrement the region's dependency
  counters.
- `addElement`, `getElementNum`, `isElementDone` and `setThreadPool` guard
  and query the region's own fields.

The model is in seven modules.

- `Types`: statuses, the arena of elements, chains and layers, plus a few
  facts about sequences. Every pointer of the source is an index into the
  arena, a `seq` of element records. Each record holds `runnable`,
  `linkable`, `done`, `leftDepend`, the size of `dependence_`, and the
  successors `run_before_` in iteration order.
- `Chains`: the walk that extends a chain through linkable elements that
  are the only successor of the one before. It also holds the proof that a
  walk which never ends has met a cycle.
- `Hooks`: collaborators whose code is not part of this model become
  function parameters:
  - a cluster's mock `process(true)`;
  - the thread pool's commit-and-get;
  - `isElementsDone`;
  - each element's `beforeRun` and `afterRun`.

  `UntilFailure` is the `CGRAPH_FUNCTION_CHECK_STATUS` loop: call each in
  order and return the first status that is not OK.
- `Layering`: `GRegion::analyse` as pure functions (`SeedLayer`, `Gather`,
  `NextLayer`, `Passes`, `Schedule`), together with lemmas about them.
- `Scheduling`: what the whole schedule guarantees, stated against the graph
  it started from.
- `Execution`: `run`, `checkFinalStatus` and `afterRun` as functions, with
  their lemmas.
- `Region`: the `GRegion` class. Its fields are the source's fields, and its
  methods are the source's loops. Each method is proved to compute exactly
  what the matching function says, so every lemma about the functions holds
  of the methods.

A chain walk in the source can go round forever. That happens when it meets
a cycle of linkable, single-successor elements. The model does not loop: the
walk reports `Diverges` when its next element is already in the chain.
`DivergenceIsCycle` proves that the source's loop condition then holds
forever, and the analysis reply is `Hangs`.

Where the code behaves otherwise than one might expect, the model follows
the code:

- The bound of the layering loop counts processed chains, not elements
  (line 179).
- A cycle is not reported as a structural error.
  - A cycle between chains that does not trap a walk ends at the bound
    (line 171).
  - A cycle that traps a walk hangs the walk (lines 160-165, 197-203).
- A failing chain in `run` does not stop the other chains of its layer,
  which were all committed before any result is read (lines 81-85). The
  first failing result, in commit order, is returned before
  `checkFinalStatus` (lines 87-90).
- The final check compares the count with the size of the manager's element
  set (line 256). Chains are counted with repetition.
- One might expect no element to appear twice in a schedule. The code does
  not guarantee that:
  - `duplications` only keeps an element from *starting* a second chain in
    one pass;
  - the first layer has no such set at all.

  `SeedLayerSharesMember` gives a graph whose first layer holds an element
  in two chains. `LaterLayerSharesMember` shows the gathering step building
  such a layer from the layer `[[0], [1]]`. Both examples mark linkable an
  element that has two predecessors. `is_linkable_` is set by the code that
  builds the pipeline, which is not part of this model. The model takes
  each element's `linkable` flag as given, so these examples assume that the
  builder may set the flag on such an element.
- `CGRAPH_FUNCTION_CHECK_STATUS` is read as "return `status` unless it is
  OK". `CGRAPH_ASSERT_NOT_NULL` and `CGRAPH_ASSERT_INIT` are read as
  returning a null-pointer error and an init-state error.

All paths below are relative to the repository root.

## Model

| member | source | states |
|---|---|---|
| Chains.Extend | src/GraphCtrl/GraphElement/GRegion/GRegion.cpp:160-165 | A finished walk keeps the chain it started from as its prefix, stays in the arena and repeats no element. It stops at the first member that does not have exactly one successor, or whose successor is not linkable. |
| Chains.Continues | src/GraphCtrl/GraphElement/GRegion/GRegion.cpp:160-161 | The walk goes on from an element exactly when it has one successor and that successor is linkable. |
| Chains.Next | src/GraphCtrl/GraphElement/GRegion/GRegion.cpp:162-163 | The walk moves to the only successor, which lies in the arena and is linkable. |
| Chains.ExtendLinked | src/GraphCtrl/GraphElement/GRegion/GRegion.cpp:160-164 | Every member a walk adds is the only successor of the member before it, and is linkable. |
| Chains.ClosedCycle | src/GraphCtrl/GraphElement/GRegion/GRegion.cpp:160-165 | A linked chain whose tail continues back to one of its members closes a cycle on which the walk's loop condition always holds. |
| Chains.DivergenceIsCycle | src/GraphCtrl/GraphElement/GRegion/GRegion.cpp:160-165 | A walk that diverges extends to a linked path whose suffix is such a cycle, so the source's loop never ends there. |
| Chains.SeedChain | src/GraphCtrl/GraphElement/GRegion/GRegion.cpp:155-165 | A first-layer chain starts at its head, stays in the arena and repeats nothing. Each later member is the only successor of the one before and is linkable. It ends where the loop condition fails. |
| Chains.LinkedMembersLinkable | src/GraphCtrl/GraphElement/GRegion/GRegion.cpp:160-164 | Every member after the head of a linked chain is linkable. |
| Chains.LaterChain | src/GraphCtrl/GraphElement/GRegion/GRegion.cpp:192-203 | A later-layer chain has the same properties, but ends at a member that is not linkable or does not continue. A non-linkable head stays alone. Every member of a chain longer than one is linkable. |
| Chains.HeadDivergenceIsCycle | src/GraphCtrl/GraphElement/GRegion/GRegion.cpp:155-203 | A diverging first-layer or later-layer walk from a head meets a cycle on which both loop conditions hold forever. |
| Hooks.SameShapeValid | src/GraphCtrl/GraphElement/GRegion/GRegion.cpp:176 | A state with the same shape as a well-formed graph is well-formed. |
| Hooks.ProcessAll | src/GraphCtrl/GraphElement/GRegion/GRegion.cpp:82-85 | Calling a hook on every item gives one status per item. A hook that keeps the shape leaves the shape unchanged. |
| Hooks.FirstFailing | src/GraphCtrl/GraphElement/GRegion/GRegion.cpp:176-177 | The position returned is the first status that is not OK, or the length when all are OK. |
| Hooks.UntilFailure | src/GraphCtrl/GraphElement/GRegion/GRegion.cpp:175-178 | A stop-at-first-failure loop over a hook that keeps the shape leaves the shape unchanged. |
| Hooks.UntilFailureIsFirstFailing | src/GraphCtrl/GraphElement/GRegion/GRegion.cpp:175-178 | Stopping at the first failure reports exactly the first non-OK status of the full sequential trace, in the state right after that call. When every call is OK it reports OK in the final state. |
| Hooks.FailureIsFirstFailing | src/GraphCtrl/GraphElement/GRegion/GRegion.cpp:116-119 | A loop that stops with a failure stops at the first failing item, in the state after it. |
| Layering.SeedHeads | src/GraphCtrl/GraphElement/GRegion/GRegion.cpp:150-153 | The first-layer heads are exactly the manager's elements that are runnable and not linkable. They are distinct when the elements are. |
| Layering.IsSeedHead | src/GraphCtrl/GraphElement/GRegion/GRegion.cpp:151 | A first-layer chain starts at an element that is runnable and not linkable. |
| Layering.SeedHeadsInOrder | src/GraphCtrl/GraphElement/GRegion/GRegion.cpp:150-153 | The heads appear in the manager's iteration order: each is at a position of the elements, and the positions increase. |
| Layering.SeedLayer | src/GraphCtrl/GraphElement/GRegion/GRegion.cpp:149-167 | The first layer holds one chain per seed head, in order, each the head's first-layer chain, and it stays in the arena. |
| Layering.SeedDivergence | src/GraphCtrl/GraphElement/GRegion/GRegion.cpp:150-167 | The first layer is abandoned only when the walk from some seed head never ends. |
| Layering.Members | src/GraphCtrl/GraphElement/GRegion/GRegion.cpp:195-202 | Every element of every chain of a layer is a member. |
| Layering.MemberSuccessors | src/GraphCtrl/GraphElement/GRegion/GRegion.cpp:183-184 | The successors of a chain's members stay in the arena. |
| Layering.LayerSuccessors | src/GraphCtrl/GraphElement/GRegion/GRegion.cpp:182-184 | The candidates of the next layer stay in the arena. |
| Layering.MemberSuccessorOrigin | src/GraphCtrl/GraphElement/GRegion/GRegion.cpp:183-184 | Every successor of a chain is a successor of one of its members. |
| Layering.MemberSuccessorIncluded | src/GraphCtrl/GraphElement/GRegion/GRegion.cpp:183-184 | Every successor of every member is a successor of the chain. |
| Layering.SuccessorOrigin | src/GraphCtrl/GraphElement/GRegion/GRegion.cpp:182-184 | Every candidate is a successor of some member of some chain of the previous layer. |
| Layering.SuccessorIncluded | src/GraphCtrl/GraphElement/GRegion/GRegion.cpp:182-184 | Every successor of every member of every chain of the previous layer is a candidate. |
| Layering.Gather | src/GraphCtrl/GraphElement/GRegion/GRegion.cpp:181-208 | The gathered chains stay in the arena. |
| Layering.NextLayer | src/GraphCtrl/GraphElement/GRegion/GRegion.cpp:181-208 | The layer after `prev` is gathered from the successors of its members, and it stays in the arena. |
| Layering.MemberOrigin | src/GraphCtrl/GraphElement/GRegion/GRegion.cpp:195-202 | A member of a layer lies in one of its chains. |
| Layering.GatherSound | src/GraphCtrl/GraphElement/GRegion/GRegion.cpp:181-208 | `duplications` is exactly the members of the gathered chains. Each chain has a runnable head among the candidates and is that head's chain. No head lies in an earlier chain, so no element starts two chains in one pass. Every runnable candidate lies in some chain. A hang comes from a runnable candidate whose walk never ends. |
| Layering.NextLayerSound | src/GraphCtrl/GraphElement/GRegion/GRegion.cpp:181-208 | The layer after `prev` has those properties for the successors of `prev`, or some runnable successor's walk never ends. |
| Layering.Passes | src/GraphCtrl/GraphElement/GRegion/GRegion.cpp:171-214 | The loop runs at most `total + 1 - run` rounds and appends at most one layer per round, each with the state it was built in. The graph keeps its shape. |
| Layering.PassesStepAt | src/GraphCtrl/GraphElement/GRegion/GRegion.cpp:171-214 | Each appended layer follows the previous one by a `Step`. Every chain of the previous layer was mock-processed with no failure, and the layer is non-empty and gathered from its successors. |
| Layering.PassesShapeAt | src/GraphCtrl/GraphElement/GRegion/GRegion.cpp:171-214 | Every state a layer was built in has the starting state's shape. |
| Layering.PassesStop | src/GraphCtrl/GraphElement/GRegion/GRegion.cpp:171-214 | The loop ends after its last layer. On a failure the status is that of mock-processing the last layer. On a hang the last layer's gathering never ends. |
| Layering.Schedule | src/GraphCtrl/GraphElement/GRegion/GRegion.cpp:143-217 | The analysis runs at most one round more than the manager has elements, and appends at most two layers more. The first layer is the seed layer, appended even when empty, in the starting state. An abandoned first layer hangs with no layers. |
| Scheduling.ContinuesShape | src/GraphCtrl/GraphElement/GRegion/GRegion.cpp:160-161 | The walk's test and its next element are the same in every state of the same shape. |
| Scheduling.LinkedShape | src/GraphCtrl/GraphElement/GRegion/GRegion.cpp:160-164 | A chain is linked in a state exactly when it is linked in a state of the same shape. |
| Scheduling.LoopsForeverShape | src/GraphCtrl/GraphElement/GRegion/GRegion.cpp:160-165 | An endless cycle in a state is one in every state of the same shape. |
| Scheduling.ScheduleStep | src/GraphCtrl/GraphElement/GRegion/GRegion.cpp:171-214 | Consecutive layers follow each other by a `Step`. |
| Scheduling.ScheduleShape | src/GraphCtrl/GraphElement/GRegion/GRegion.cpp:171-214 | Every state in which a layer is built has the starting graph's shape. |
| Scheduling.ScheduleLaterLayer | src/GraphCtrl/GraphElement/GRegion/GRegion.cpp:175-213 | Each layer after the first is non-empty. It is built after every chain of the layer before it was mock-processed without failure. It is a later layer of the successors of that layer. |
| Scheduling.ScheduleInRange | src/GraphCtrl/GraphElement/GRegion/GRegion.cpp:143-217 | Every layer points into the arena. |
| Scheduling.SeedChainAt | src/GraphCtrl/GraphElement/GRegion/GRegion.cpp:150-166 | Each first-layer chain starts at a runnable, non-linkable manager element (the `i`-th seed head). It is linked, repeats nothing, and ends at the first member that does not continue. |
| Scheduling.SeedCovers | src/GraphCtrl/GraphElement/GRegion/GRegion.cpp:150-166 | Every runnable, non-linkable manager element heads a first-layer chain. |
| Scheduling.SeedHeadsDistinct | src/GraphCtrl/GraphElement/GRegion/GRegion.cpp:150-166 | First-layer chains have distinct heads. |
| Scheduling.LaterChainAt | src/GraphCtrl/GraphElement/GRegion/GRegion.cpp:181-204 | Each later-layer chain starts at an element that is runnable when the layer is built. That element is a successor of a member of a chain of the layer before. The chain is linked in the starting graph, all its members are linkable when it has more than one, and no earlier chain of the layer holds its head. |
| Scheduling.LaterCovers | src/GraphCtrl/GraphElement/GRegion/GRegion.cpp:182-205 | Every successor of a member of a layer that is runnable when the next layer is gathered lies in some chain of that next layer. |
| Scheduling.ScheduleStops | src/GraphCtrl/GraphElement/GRegion/GRegion.cpp:171-214 | The analysis stops after processing its last layer, as `Stops` says. |
| Scheduling.ScheduleLastFailure | src/GraphCtrl/GraphElement/GRegion/GRegion.cpp:175-177 | A failed analysis returns the status of mock-processing its last layer, and builds no further layer. |
| Scheduling.ScheduleHangs | src/GraphCtrl/GraphElement/GRegion/GRegion.cpp:155-203 | An analysis that never returns has met a cycle of the starting graph on which a walk goes round forever. The walk starts at a seed head, or at a successor of the last layer. |
| Scheduling.SharedTailGraph | src/GraphCtrl/GraphElement/GRegion/GRegion.cpp:150-165 | The three-element example graph is well-formed. |
| Scheduling.SeedLayerSharesMember | src/GraphCtrl/GraphElement/GRegion/GRegion.cpp:150-168 | The first layer can hold one element in two chains. |
| Scheduling.DetourGraph | src/GraphCtrl/GraphElement/GRegion/GRegion.cpp:181-208 | The four-element example graph is well-formed. |
| Scheduling.LaterLayerSharesMember | src/GraphCtrl/GraphElement/GRegion/GRegion.cpp:181-208 | The gathering step can build a layer that holds one element in two chains, because `duplications` only guards heads. It is applied here to the layer `[[0], [1]]`. |
| Execution.LayerStatus | src/GraphCtrl/GraphElement/GRegion/GRegion.cpp:87-90 | A layer reports OK exactly when all its chains do; otherwise it reports the first failing status in commit order. |
| Execution.RunLayer | src/GraphCtrl/GraphElement/GRegion/GRegion.cpp:81-90 | Every chain of a layer runs, since all are committed before any result is read. |
| Execution.RunLayerStatus | src/GraphCtrl/GraphElement/GRegion/GRegion.cpp:81-90 | A layer reports what stopping at its first failing chain would report. When no chain fails it also ends in the same state. When one fails, the state is the one after all the chains ran. |
| Execution.RunLayers | src/GraphCtrl/GraphElement/GRegion/GRegion.cpp:77-91 | Running the layers keeps the graph's shape, and a stop carries a status that is not OK. |
| Execution.RunStops | src/GraphCtrl/GraphElement/GRegion/GRegion.cpp:77-91 | Execution stops at the first layer that reports a failure, in the state that layer leaves, with that layer's first failing status. Every layer before it ran through. |
| Execution.RunAllOk | src/GraphCtrl/GraphElement/GRegion/GRegion.cpp:79-91 | When every chain succeeds, execution runs through every layer. |
| Execution.LayerSize | src/GraphCtrl/GraphElement/GRegion/GRegion.cpp:82-84 | What a layer adds to `runNodeSize` is the number of its chains' members, counted with repetition. |
| Execution.NodeCount | src/GraphCtrl/GraphElement/GRegion/GRegion.cpp:79-85 | `runNodeSize` after every layer is the number of submitted members, counted with repetition. |
| Execution.AllDone | src/GraphCtrl/GraphElement/GRegion/GRegion.cpp:244-250 | True exactly when every listed element is done, and so vacuously true for none. |
| Execution.Decrement | src/GraphCtrl/GraphElement/GRegion/GRegion.cpp:135-137 | Decrementing keeps the number of elements. |
| Execution.DecrementAt | src/GraphCtrl/GraphElement/GRegion/GRegion.cpp:135-137 | Each successor's `leftDepend` drops by exactly one, and nothing else about any element changes. |
| Execution.DecrementShape | src/GraphCtrl/GraphElement/GRegion/GRegion.cpp:135-137 | Decrementing keeps the graph's shape. |
| Execution.LayerDone | src/GraphCtrl/GraphElement/GRegion/GRegion.cpp:261-264 | True exactly when every chain of the layer reports done. |
| Execution.LayersDone | src/GraphCtrl/GraphElement/GRegion/GRegion.cpp:260-265 | True exactly when every chain of every layer reports done. |
| Execution.FinalStatus | src/GraphCtrl/GraphElement/GRegion/GRegion.cpp:253-267 | OK exactly when the count equals the manager's element count and every chain reports done. Otherwise the final-check error. |
| Execution.RunResult | src/GraphCtrl/GraphElement/GRegion/GRegion.cpp:70-95 | `run` keeps the graph's shape. An uninitialised region is an init-state error and a missing pool or manager a null-pointer error, with nothing run. Success needs the count to equal the manager's element count. |
| Execution.RunResultOk | src/GraphCtrl/GraphElement/GRegion/GRegion.cpp:70-95 | `run` succeeds exactly when all of these hold: the region is initialised and has a pool and a manager; every chain succeeds; the chain lengths add up to the manager's element count; every chain then reports done. |
| Execution.RunResultFails | src/GraphCtrl/GraphElement/GRegion/GRegion.cpp:77-91 | A failing `run` on a ready region returns the first failing status of the first failing layer, without the final check. |
| Execution.AfterResult | src/GraphCtrl/GraphElement/GRegion/GRegion.cpp:128-140 | `afterRun` keeps the graph's shape and reports the status of its element hooks. On a failure it returns what the hooks left. |
| Execution.AfterResultAt | src/GraphCtrl/GraphElement/GRegion/GRegion.cpp:128-139 | A successful `afterRun` lowers each successor's counter by exactly one after the hooks have run, and leaves every other element as the hooks left it. |
| Region.SeedStaysDiverged | src/GraphCtrl/GraphElement/GRegion/GRegion.cpp:150-167 | Once a first-layer walk never ends, neither does the first layer of any longer list of elements. |
| Region.GRegion.constructor | src/GraphCtrl/GraphElement/GRegion/GRegion.cpp:11-15 | A new region has no pool, is not initialised, and has no elements and no schedule. |
| Region.GRegion.SetThreadPool | src/GraphCtrl/GraphElement/GRegion/GRegion.cpp:220-226 | A null pool is refused and leaves the pool as it was. Otherwise the pool is set. |
| Region.GRegion.ElementNum | src/GraphCtrl/GraphElement/GRegion/GRegion.cpp:239-241 | `getElementNum` is the number of elements added to the region. |
| Region.GRegion.AddElement | src/GraphCtrl/GraphElement/GRegion/GRegion.cpp:229-236 | A null element or an initialised region is refused and nothing changes. Otherwise exactly that element is appended and `getElementNum` grows by one. |
| Region.GRegion.CallEach | src/GraphCtrl/GraphElement/GRegion/GRegion.cpp:116-119 | The loop returns, and leaves, exactly what stopping at the first non-OK hook result gives. |
| Region.GRegion.BeforeRun | src/GraphCtrl/GraphElement/GRegion/GRegion.cpp:113-125 | The elements' hooks run to the first failure. On success `done` is false and `leftDepend` is the dependence count. On failure both are unchanged. |
| Region.GRegion.AfterRun | src/GraphCtrl/GraphElement/GRegion/GRegion.cpp:128-140 | The result is `AfterResult`: on success every successor's counter drops by one and the region is done. On failure `done` is unchanged. |
| Region.GRegion.CollapseChain | src/GraphCtrl/GraphElement/GRegion/GRegion.cpp:155-203 | The walk loop computes `SeedChain` or `LaterChain`, or reports the walk that never ends. |
| Region.GRegion.SeedPass | src/GraphCtrl/GraphElement/GRegion/GRegion.cpp:149-167 | The seed loop computes `SeedLayer`. |
| Region.GRegion.GatherSuccessors | src/GraphCtrl/GraphElement/GRegion/GRegion.cpp:184-206 | The innermost loop extends the gathering (`duplications` and the layer so far) by the members' successors, as `Gather` does. |
| Region.GRegion.GatherChain | src/GraphCtrl/GraphElement/GRegion/GRegion.cpp:183-207 | The loop over a chain's members extends the gathering by the chain's successors. |
| Region.GRegion.GatherPass | src/GraphCtrl/GraphElement/GRegion/GRegion.cpp:181-208 | The three nested loops compute `NextLayer`. |
| Region.GRegion.PassRound | src/GraphCtrl/GraphElement/GRegion/GRegion.cpp:172-213 | One round either stops the loop with its status or hang, or keeps the pass loop's invariant for the next layer. |
| Region.GRegion.PassLoop | src/GraphCtrl/GraphElement/GRegion/GRegion.cpp:168-214 | `para_cluster_arrs_` becomes the old schedule, then the first layer, then the layers of `Passes`. The reply and state are those of `Passes`. |
| Region.GRegion.Analyse | src/GraphCtrl/GraphElement/GRegion/GRegion.cpp:143-217 | `analyse` appends exactly the layers of `Schedule` and returns its reply and final state. |
| Region.GRegion.Init | src/GraphCtrl/GraphElement/GRegion/GRegion.cpp:45-59 | A missing pool or manager is a null-pointer error, and nothing changes. Otherwise the manager's `init` runs on the elements first. If it fails, its status and its state are the result and no layer is added. If it succeeds, the result is the analysis of the elements as that `init` left them. `is_init_` becomes true exactly when everything succeeds. |
| Region.GRegion.IsElementDone | src/GraphCtrl/GraphElement/GRegion/GRegion.cpp:244-250 | `isElementDone` holds exactly when every region element is done, and holds when the region has none. |
| Region.GRegion.CheckFinalStatus | src/GraphCtrl/GraphElement/GRegion/GRegion.cpp:253-268 | The loops with early exit compute `FinalStatus`. |
| Region.GRegion.CommitLayer | src/GraphCtrl/GraphElement/GRegion/GRegion.cpp:80-85 | The commit loop runs every chain of the layer in order, collects one status per chain and adds the chains' lengths to the count. |
| Region.GRegion.GetAll | src/GraphCtrl/GraphElement/GRegion/GRegion.cpp:87-90 | The read loop returns the first status that is not OK, or OK. |
| Region.GRegion.Run | src/GraphCtrl/GraphElement/GRegion/GRegion.cpp:70-95 | The layer loop computes `RunResult`: the checks, then for each layer every chain committed and counted, then the statuses read in order up to the first failure, then the final check on `runNodeSize`. |
| Region.GRegion.Process | src/GraphCtrl/GraphElement/GRegion/GRegion.cpp:98-110 | `beforeRun`, then `run` unless mocked, then `afterRun`, stopping at the first failure, with the matching `done` and `leftDepend`. |

Lemmas that unfold one step of a definition, show that a loop invariant
holds at the start, or split a proof into cheaper parts have no row of their
own. They are `Chains.LinkedSnoc`, `Hooks.SameShapeAt`,
`Hooks.SameShapeTrans`, `Hooks.ChainedShapes`, `Layering.SeedLayerStep`,
`Layering.MemberSuccessorsSnoc`, `Layering.LayerSuccessorsSnoc`,
`Layering.GatherSnoc`, `Layering.MembersSnoc`, `Layering.GatherSkip`,
`Layering.HeadsAmongStart`, `Layering.FreshHeadsStart`,
`Layering.CoversStart`, `Layering.GatherStart`, `Layering.GatheringInRange`,
`Layering.GatheringFollows`, `Layering.PassesFails`, `Layering.PassesHangs`,
`Layering.PassesBuilt`, `Layering.PassesKeep`, `Layering.PassesEnd`,
`Layering.PassesNone`, `Layering.PassesAppends`,
`Layering.PassesShift`, `Layering.PassesLast`, `Layering.PassesBack`,
`Scheduling.ScheduleShift`, `Scheduling.ScheduleFirstStep`,
`Scheduling.ScheduleLaterStep`, `Scheduling.ScheduleSeedShape`,
`Scheduling.ScheduleStepShape`, `Scheduling.ScheduleEnd`,
`Scheduling.SharedTailChains`, `Scheduling.SharedTailFirst`,
`Scheduling.DetourChains`, `Scheduling.DetourCandidates`,
`Scheduling.DetourFirst`, `Scheduling.DetourGather` and
`Execution.AllOkUntilFailure`. `Gathering` is `NextLayer` made total
(an ill-formed state gives `PassDiverges`), so the two `Gathering*` lemmas
only restate that.

## Left out

- Thread pool and futures: a commit runs its chain to completion at once, through a sequential oracle, one chain after the other in commit order; every chain of a layer runs before any future is read. The pool's parallelism, and any interleaving of the chains' effects, are not modelled.
- Collaborators whose code is not part of this model are parameters with no body of their own:
  - `GCluster::process` and `isElementsDone`;
  - `GElementManager::init`, an oracle of `Init` over the manager's elements that may change their state but, like the hooks, not their shape;
  - each element's `beforeRun` and `afterRun`.

  A hook may change any element state, but never `linkable`, the successors or the dependence count. Those are fixed when the pipeline is built, and `KeepsShape` states it.
- `GCluster::getElementNum` is not part of this model. It is taken to be the number of elements in the chain (`LayerSize`, `CommitLayer`).
- The `CGRAPH_*` macros: their definitions are not part of this model. They are read as described above.
- The manager's elements come from the code that builds the pipeline. They are a constructor parameter, and a failed manager allocation is the flag `hasManager`.
- The copy constructor and `operator=` (lines 23-42): the copy constructor writes through a manager it never allocates, and `operator=` only merges pointer sets.
- `deinit` (lines 62-67): it only forwards the manager's `deinit`, which is not part of this model.
- The destructor and the allocations (lines 12, 19): memory management.
- Numeric status codes: errors are told apart by kind (`NullPointer`, `InitState`, `FinalCheck`).
- Integer width: `runElementSize`, `totalElementSize`, `runNodeSize` and `left_depend_` are unbounded integers; the wrap-around of the source's `int` is not modelled.
- Region.GRegion.CollapseChain: a walk in the source that never ends is reported as `Diverges` when it first comes back to its own member. The analysis then returns `Hangs` instead of looping.
- Region.GRegion.GatherSuccessors: once a walk diverges, the model goes on reading the remaining candidates but changes nothing. The source never gets past that point.
- Region.GRegion.PassLoop: the nested loops of `analyse` are split into the helper methods `PassRound`, `GatherPass`, `GatherChain` and `GatherSuccessors`, one per loop. Each keeps the source's loop and its order.
- Idempotence of repeated runs and the dependency counters of an outer graph: these belong to the graph that drives the region.
