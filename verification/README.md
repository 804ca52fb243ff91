# ipyflow: reactive scheduling, slicing and liveness, verified in Dafny

ipyflow is a reactive Python kernel for notebooks. It watches which cell wrote and which cell read
each symbol, decides which cells are stale, which must wait for others, and what to run again; it can
also cut a notebook down to the statements one value depends on. This project models the algorithms
that decide these things and proves what they promise, for all notebooks, sessions and graphs.

The modules, by subject:

| file | module | subject |
|---|---|---|
| `scheduler.dfy` | `Scheduler` | sessions of cell runs as a state machine: stale, ready and waiting cells; termination; no stuck waiter; fearless execution |
| `session.dfy` | `Session` | the same session kept in mutable registries; each run is one step of the state machine; the reactive loop |
| `frontend.dfy` | `Frontend` | the checker object that classifies cells after each run |
| `reactive_once.dfy` | `ReactiveOnce` | what recognising stale inputs is for: reactive execution runs each cell once at most |
| `incremental.dfy` | `Incremental` | the frontend's loop over newly ready cells, from the top down |
| `programs.dfy` | `Programs` | cells given by their text: the liveness visitor supplies what the scheduler relies on |
| `waiter_links.dfy`, `dag_waiters.dfy` | `WaiterLinks`, `DagWaiters` | its two fixpoints: links to ready-making cells, and waiting below a ready cell |
| `update_protocol.dfy`, `update_effects.dfy` | `UpdateProtocol`, `UpdateEffects` | what an update marks as waiting, through dependencies and namespaces; the same as chains of symbols |
| `propagation.dfy` | `Propagation` | the scheduler's marking is the update protocol's without namespaces |
| `position_cache.dfy`, `stale_chains.dfy`, `blind_paths.dfy` | `PositionCache`, `StaleChains`, `BlindPaths` | the memo table that answers "is this symbol stale here?" and breaks cycles; what it should answer; exactly when it misleads |
| `slicing.dfy`, `replay.dfy` | `Timestamps`, `Slicing`, `Replay` | backward slices over versioned nodes, and what replaying one computes |
| `edges.dfy` | `Edges` | parent and child edge maps through re-execution, renaming and overriding |
| `liveness.dfy`, `liveness_sound.dfy` | `Liveness`, `LivenessSound` | the static liveness visitor, and its soundness against a big-step semantics |
| `live_paths.dfy`, `liveness_exact.dfy` | `LivePaths`, `LivenessExact` | its exactness: what is live or dead, as paths through the text |
| `list_index.dfy` | `ListIndex` | the symbols of a list's elements under insert, remove and pop |
| `unpacking.dfy` | `Unpacking` | starred unpacking against PEP 3132 |
| `wrappers.dfy` | `Wrappers` | shared types |

Code that updates objects in place is modelled as classes whose methods are proved against
specification functions or relations; the theorems are lemmas about those.

Several promises of the code hold only under a condition. Each is stated with its exact condition, as
an if-and-only-if over all inputs, and an input that breaks it:

| promise | exact condition | breaks on |
|---|---|---|
| a quiescent session holds what "restart and run all" gives | `FearlessExactly`, `ReactiveExecutionRestoresTopToBottom`, `FearlessPrograms` | `RaisingCellBreaksFearlessness` |
| waiting cells end up linked to all cells that would make them ready | `ClosesExactly` | `SelfLinkLosesReadyMaker` |
| demotion leaves some cell ready | `AllDemotedExactly` | `RingOfReadyCellsDeadlocks` |
| the memo table changes no answer | `TransparentExactly` | `CyclesLoseEvidence` |
| modified includes what an assignment assigns | `AssignmentIsModifiedExactly` | `SelfAssignmentIsNotModified` |
| symbols not marked as waiting are not stale, so that a ready cell has nothing stale upstream | `MarksExactly`, with `ReadyHasNothingStaleUpstream` | `CarelessRunMisleads` |
| what is reported live is read on some path before being killed | `LiveExactly`: for every name; for elements not assigned from their own name, with kills of the name counting within a block only | `NestedElementStaysLive`, `ElementKilledEitherWay` |
| live and dead sets are sound | `QuasiquotedSubscript`, `BareAnnotationKills`, `BareAnnotationHidesRead` | the same |
| the index agrees with its list | `ListIndex.Namespace.Do` | the same |
| starred unpacking follows PEP 3132 | `MatcherFollowsRule`, `StoresFollowRule` | the same |

Two places where code and documentation differ; the model follows the code. The "Fearless execution"
goal of the repository's README has no condition, but a cell whose last run raised, or took another
path, can leave values behind that a top-to-bottom run would not. The comment in
`ComputeLiveSymbolRefs.__call__` warns that a reference in a loop before its assignment in the same
loop would be missed; it is not (`LivenessIsSound` covers it), because the loop body is visited with
its own set of killed names.

## Model

| member | source | states |
|---|---|---|
| `Scheduler.RunConsistent` | core/ipyflow/data_model/cell.py:374-429 | every run keeps the registries consistent: counters lead back to their cells, and each stamp belongs to a cell that assigns the symbol |
| `Scheduler.RunClearsAndStalesOnlyBelow` | core/ipyflow/frontend.py:348-364 | running a cell leaves it not stale and can make only cells strictly below it stale |
| `Scheduler.StaleNumberDrops` | core/ipyflow/frontend.py:348-360 | so the stale bits, read from the top as one binary number, go down with every run of a stale cell |
| `Scheduler.ReactiveRunsAreFinite` | core/ipyflow/data_model/cell.py:741-765 | reactive execution ends: from any state fewer than 2^n runs of ready cells are possible |
| `Scheduler.RunKeepsOutputs` | core/ipyflow/data_model/cell.py:741-749 | a run leaves every up-to-date cell with outputs equal to those of running it on the present namespace |
| `Scheduler.RunKeepsParents` | core/ipyflow/data_model/symbol.py:1046-1053 | after every run each symbol has as parents what its writer reads |
| `Scheduler.RunKeepsCauses` | core/ipyflow/data_model/symbol.py:1046-1053 | after every run a waiting symbol has a parent that is newer than it or waiting itself |
| `Scheduler.SessionKeepsInvariant` | core/ipyflow/data_model/symbol.py:1012-1087 | all of these invariants together hold over every session, whatever cells are run in whatever order |
| `Scheduler.WaitingSymbolHasStaleCell` | core/ipyflow/data_model/symbol.py:928-939 | while each existing symbol carries the stamp of the last run of its cell (nothing is left over), behind every waiting symbol there is, at or above its writer, a stale cell |
| `Scheduler.TopmostStaleIsReady` | core/ipyflow/frontend.py:270-276 | while nothing is left over and all names resolve, the topmost stale cell does not wait, so it is ready |
| `Scheduler.StaleCellHasReadyCell` | core/ipyflow/frontend.py:270-276 | at or above any stale cell there is a ready one that has no stale cell above it |
| `Scheduler.NoStuckWaiter` | core/ipyflow/frontend.py:395-408 | while nothing is left over and all names resolve, a cell can wait only below a ready one |
| `Scheduler.NothingReadyIsQuiescent` | core/ipyflow/frontend.py:395-425 | with nothing left over and no ready cell, no cell waits if and only if all names resolve |
| `Scheduler.QuiescentIsUpToDate` | core/ipyflow/frontend.py:358-359 | once every cell has run, raising or not, quiescence means that every live symbol was written before its reader last ran |
| `Scheduler.SolutionIsUnique` | core/ipyflow/data_model/cell.py:446-449 | read as equations between their inputs and outputs, the cells of a notebook have one solution at most |
| `Scheduler.TopToBottomSolves` | core/ipyflow/data_model/cell.py:446-449 | running top to bottom from an empty namespace gives that solution, whatever cells raise |
| `Scheduler.UpToDateSolves` | core/ipyflow/data_model/cell.py:741-749 | the namespace of an up-to-date session is a solution if and only if nothing is left over |
| `Scheduler.FearlessExactly` | README.md:53-57 | if every symbol has one writer, above its readers, and a session in any order, of cells that may raise or assign part of their symbols, ends with every cell run and nothing ready or waiting, then its namespace is that of restart-and-run-all if and only if nothing is left over |
| `Scheduler.FinishedIsClean` | core/ipyflow/data_model/symbol.py:1315-1334 | a session in which no cell raised the last time it ran leaves nothing over and no name unresolved, if finishing means having assigned all |
| `Scheduler.FearlessExecution` | README.md:53-57 | so without errors a quiescent session holds what restart-and-run-all gives |
| `Scheduler.ReactiveExecutionRestoresTopToBottom` | README.md:40-57 | after any session, running ready cells until none is left ends within 2^n runs; if all cells have run by then, nothing waits and the namespace is that of a top-to-bottom run exactly when all names resolve and nothing is left over |
| `Scheduler.RaisingCellBreaksFearlessness` | README.md:53-57 | leftovers are real: a concrete notebook whose session is quiescent, with a raised cell, and keeps another value than a top-to-bottom run |
| `Programs.CellSeesLiveOnly` | core/ipyflow/analysis/live_refs.py:183-195 | run on the names the visitor calls live, and nothing else, a cell assigns what it would in the whole namespace, with the same values and the same end |
| `Programs.CellIsWellFormed` | core/ipyflow/analysis/live_refs.py:433-439 | no run assigns a name outside the cell's assigned names |
| `Programs.BlockWrites` | core/ipyflow/analysis/live_refs.py:248-319 | a run changes nothing but what it assigns, and all of that exists afterwards |
| `Programs.SessionIsPrograms` | core/ipyflow/data_model/cell.py:374-429 | a session of the state machine keeps the namespace that the programs themselves leave |
| `Programs.FearlessPrograms` | README.md:53-57 | fearless execution for programs: after a quiescent session in any order the programs have left the namespace of one top-to-bottom run if and only if nothing is left over |
| `Session.NotebookSession.RunCell` | core/ipyflow/data_model/cell.py:374-429 | the in-place bookkeeping of one run takes the whole session state to the next state of the state machine |
| `Session.NotebookSession.AssignAll` | core/ipyflow/data_model/symbol.py:1041-1053 | assigning symbol by symbol stamps, re-parents and un-marks exactly the assigned symbols |
| `Session.NotebookSession.MarkDependents` | core/ipyflow/data_model/utils/update_protocol.py:64-66 | the recursive marking sets the required time of exactly the symbols with a dependency path from what was written that avoids what was read |
| `Session.NotebookSession.Propagate` | core/ipyflow/data_model/utils/update_protocol.py:184-202 | one recursive call sees all dependents of its symbol, transitively, and marks only symbols that path-wise should be |
| `Session.MarkedAreSeen` | core/ipyflow/data_model/utils/update_protocol.py:200-202 | whatever is closed under dependents contains every symbol that should be marked |
| `Session.NotebookSession.PickReady` | core/ipyflow/frontend.py:422-425 | finds a ready cell exactly if there is one |
| `Session.NotebookSession.RunReactively` | core/ipyflow/frontend.py:422-441 | running any ready cell, again and again, ends with no ready cell and all invariants kept; if all cells have run, nothing waits and the namespace is the top-to-bottom one exactly when all names resolve and nothing is left over |
| `Incremental.Next` | frontend/labextension/src/comm/schedule.ts:119-143 | the next cell to run is the topmost pending one below the last |
| `Incremental.RunIsOnlyPending` | core/ipyflow/frontend.py:434-440 | after a run with no stale cell above it every ready cell is pending: it was ready before or is reported newly ready |
| `Incremental.RunIncrementally` | frontend/labextension/src/comm/schedule.ts:119-164 | after one run, running pending cells from the top down, each once at most, stops early only if one raises; a session that was at rest is then at rest again, and holds what a top-to-bottom run gives, exactly when nothing is left over |
| `ReactiveOnce.StaleInputWaits` | core/ipyflow/frontend.py:395-408 | under a verdict that recognises every stale input where the reading cell stands, a cell with one waits and is not ready |
| `ReactiveOnce.WaitingIsStaleThere` | core/ipyflow/data_model/symbol.py:947-965 | in order, a waiting symbol has behind it, through parents, a write newer than its reader, at or above any cell below its writer |
| `ReactiveOnce.RunKeepsMarks` | core/ipyflow/data_model/utils/update_protocol.py:184-202 | running a cell with no waiting input keeps every symbol with a newer or waiting parent marked as waiting |
| `ReactiveOnce.CarefulRunIsRecognised` | core/ipyflow/data_model/symbol.py:971-991 | so after a session that ran no cell on a waiting input, a verdict that looks behind marked symbols only recognises everything stale, and goes on doing so through reactive runs |
| `ReactiveOnce.ReadyHasNothingStaleUpstream` | core/ipyflow/frontend.py:270-276 | under such a verdict a ready cell has no stale cell among those its inputs come from, however far up, while nothing is left over and names resolve |
| `ReactiveOnce.ReactiveRunsOnce` | frontend/labextension/src/comm/schedule.ts:119-164 | so reactive execution runs each cell once at most, within n runs, after any session whatever |
| `ReactiveOnce.MarksExactly` | core/ipyflow/data_model/symbol.py:971-975 | asking first whether a symbol is marked as waiting loses nothing stale if and only if every symbol with a newer or waiting parent is marked |
| `ReactiveOnce.CarelessRunMisleads` | core/ipyflow/data_model/utils/update_protocol.py:64-66 | a run on a waiting input can hide what is stale above it: a concrete ready cell with a stale cell upstream |
| `Propagation.MarkedAreDescendants` | core/ipyflow/data_model/utils/update_protocol.py:184-202 | without namespaces, what the scheduler takes a run to mark is what the update protocol calls descendants of the written symbols |
| `Propagation.ProtocolMarks` | core/ipyflow/data_model/utils/update_protocol.py:23-66 | so an update through the protocol marks, of these, exactly the ones that should be marked |
| `Propagation.OrdinaryMarks` | core/ipyflow/data_model/utils/update_protocol.py:23-66 | in an ordinary update, all warnings on, exactly the symbols with a dependency path from what was written wait afterwards, besides those that waited before |
| `WaiterLinks.PassProgresses` | core/ipyflow/frontend.py:137-148 | a pass that reports a change makes progress: self-links go away or a missing link appears, never the reverse |
| `WaiterLinks.PassOnlyReachable` | core/ipyflow/frontend.py:140-144 | a pass only adds links to cells reachable through waiting cells |
| `WaiterLinks.StablePass` | core/ipyflow/frontend.py:139-147 | if a pass changes no size and no cell links to itself, the links are closed |
| `WaiterLinks.CloseIsReachability` | core/ipyflow/frontend.py:132-148 | without self-links the loop ends with each waiting cell linked, among the other cells, to exactly those reachable from it through waiting cells |
| `WaiterLinks.Strip` | core/ipyflow/frontend.py:149-150 | removing waiting cells from the links touches only the links of waiting cells |
| `WaiterLinks.ExactIffClosed` | core/ipyflow/frontend.py:137-148 | links grown along chains name exactly the reachable cells if and only if they are closed under the links of waiting links |
| `WaiterLinks.ClosesExactly` | core/ipyflow/frontend.py:132-148 | from any links, self-links included, the loop ends exact if and only if its first pass changes some length or leaves the links closed |
| `WaiterLinks.SelfLinkLosesReadyMaker` | core/ipyflow/frontend.py:139-147 | the first pass can fail both: comparing lengths after the discard stops early and loses a ready-making cell |
| `DagWaiters.DagWaitingIsLeast` | core/ipyflow/frontend.py:199-212 | the cells downstream of a ready cell are the least set closed under "has a ready or waiting parent", and any saturated stopping point equals it |
| `DagWaiters.AllDemotedExactly` | core/ipyflow/frontend.py:192-216 | all ready cells are demoted if and only if each is downstream of a ready cell that lies on a cycle of parents |
| `DagWaiters.SomeReadyStays` | core/ipyflow/frontend.py:213 | in order there are no such cycles, so a non-empty ready set stays non-empty |
| `DagWaiters.TopmostReadyStays` | core/ipyflow/frontend.py:213 | in order, the topmost ready cell in particular is never demoted |
| `DagWaiters.ReadyCellsHaveSettledParents` | core/ipyflow/frontend.py:204-213 | cells that stay ready have no ready and no waiting parent |
| `DagWaiters.RingOfReadyCellsDeadlocks` | core/ipyflow/frontend.py:204-213 | in any order it happens: three cells in a ring, ready because a common parent ran last, are all demoted |
| `DagWaiters.WaiterReachesReadyCell` | core/ipyflow/frontend.py:162-190 | every waiting cell reaches, through waiting cells, one that stays ready |
| `DagWaiters.NoOrphanedWaiter` | core/ipyflow/frontend.py:132-190 | if the cell just run is neither ready nor waiting, every waiting cell ends with at least one link and all its links are ready cells |
| `Frontend.ParentLinks` | core/ipyflow/data_model/cell.py:200-210 | the parent relation of the whole notebook gives each cell its directional parents in all enabled contexts |
| `Frontend.ParentsInData` | core/ipyflow/data_model/cell.py:200-210 | these are the cells recorded for it in an enabled context, in order only those strictly above |
| `Frontend.InOrderParentsDescend` | core/ipyflow/data_model/cell.py:204-209 | in order, a parent is always at a strictly smaller position |
| `Frontend.FrontendCheckerResult.MaxUsedLiveSymbolCellCounter` | core/ipyflow/data_model/cell.py:721-765 | the newest write, at or above the cell, of a symbol live in it, or -1 |
| `Frontend.FrontendCheckerResult.ComputeReadiness` | core/ipyflow/frontend.py:270-276 | a cell is ready exactly if it is not waiting and stale, and newly ready exactly if moreover it ran before and something as new as required made it stale |
| `Frontend.FrontendCheckerResult.CheckWaiting` | core/ipyflow/frontend.py:395-408 | a cell starts to wait exactly if a live symbol is unresolved or stale at its position |
| `Frontend.WaitingMeans` | core/ipyflow/frontend.py:395-408 | that is, if a symbol it reads does not exist or the verdict holds of it at the position of the cell itself |
| `Frontend.NewReadyMeans` | core/ipyflow/frontend.py:348-364 | a cell is newly ready exactly if it ran before, lies below the cell run last, waits for nothing, and something it reads was written since it ran by a cell no lower, just now or without the cell having been called ready |
| `Frontend.FrontendCheckerResult.CheckOneCell` | core/ipyflow/frontend.py:367-441 | classifies one cell as the state machine does: waiting, ready, newly ready (only below the cell just run), and its ready flag |
| `Frontend.FrontendCheckerResult.ComputeLivenessResult` | core/ipyflow/frontend.py:554-560 | over all cells, in whatever order, the ready, waiting and newly ready sets are exactly those of the state machine; under a verdict that recognises stale inputs no ready cell reads a symbol that is stale at its position, and every cell that does is reported waiting |
| `Frontend.FrontendCheckerResult.ComputeDagBasedWaiters` | core/ipyflow/frontend.py:192-216 | the in-place loop ends, whatever the order of the cells, with the least fixed point, and takes waiting cells out of the other sets |
| `Frontend.FrontendCheckerResult.VisitDagCell` | core/ipyflow/frontend.py:201-209 | one visit never overshoots the least fixed point |
| `Frontend.FrontendCheckerResult.ComputeDagReadyMakers` | core/ipyflow/frontend.py:154-190 | first links are the ready or waiting directional parents, without the cell just run |
| `Frontend.FrontendCheckerResult.OnePass` | core/ipyflow/frontend.py:136-148 | one pass over the waiting cells reports a change exactly if some link set changed size |
| `Frontend.FrontendCheckerResult.VisitWaiter` | core/ipyflow/frontend.py:138-148 | one waiting cell gets the links of its waiting links, without itself |
| `Frontend.FrontendCheckerResult.ComputeWaiterAndReadyMakerLinks` | core/ipyflow/frontend.py:132-152 | the loop ends, and the ready-maker links are the exact inverse of the final waiter links |
| `Frontend.FrontendCheckerResult.StripAndInvert` | core/ipyflow/frontend.py:149-152 | links to waiting cells are dropped and the inverse map holds nothing else |
| `Frontend.FrontendCheckerResult.ComputeDagResult` | core/ipyflow/frontend.py:132-216 | the DAG half as a whole: ready stays non-empty, ready cells have settled parents, every waiter is linked to ready cells only, and the inverse is exact |
| `UpdateProtocol.CollectsUpdated` | core/ipyflow/data_model/utils/update_protocol.py:92-131 | collecting from scratch sees exactly the least set with the updated symbols and the names of the namespaces around (and inside) them, without imports |
| `UpdateProtocol.UpdatedIsClosed` | core/ipyflow/data_model/utils/update_protocol.py:104-131 | that set is closed under the same rules |
| `UpdateProtocol.Protocol.CollectUpdatedSymbols` | core/ipyflow/data_model/utils/update_protocol.py:92-131 | ends on every graph; only newly seen symbols lose their required time and leave the waiting set of their namespace |
| `UpdateProtocol.Protocol.PropagateToDeps` | core/ipyflow/data_model/utils/update_protocol.py:184-202 | ends on every graph, cyclic or nested; newly seen symbols that should be marked are waiting, their children are seen, and nothing else is touched |
| `UpdateProtocol.Protocol.PropagateToNamespaceParents` | core/ipyflow/data_model/utils/update_protocol.py:133-154 | names of enclosing namespaces are seen before any of their children, and hold the symbol as waiting |
| `UpdateProtocol.Protocol.PropagateToNamespaceChildren` | core/ipyflow/data_model/utils/update_protocol.py:171-182 | the members of a stale namespace, without class members, become stale in the same sense |
| `UpdateProtocol.Protocol.PropagateToChildren` | core/ipyflow/data_model/utils/update_protocol.py:156-169 | the loop over dependents, which skips instances of a class unless the class itself was updated |
| `UpdateProtocol.Protocol.PropagateFromAll` | core/ipyflow/data_model/utils/update_protocol.py:65-66 | propagation from all updated symbols sees the dependents of each |
| `UpdateProtocol.ReachedIsClosed` | core/ipyflow/data_model/utils/update_protocol.py:133-202 | what staleness can reach without the right-hand side is closed under dependency and namespace steps |
| `UpdateProtocol.DescendantsAreReached` | core/ipyflow/data_model/utils/update_protocol.py:156-202 | dependency alone reaches no more than that, and exactly that if there are no namespaces |
| `UpdateProtocol.NotInAvoided` | core/ipyflow/data_model/utils/update_protocol.py:64 | no such chain ends in an updated symbol or the right-hand side |
| `UpdateProtocol.AllDescendantsSeen` | core/ipyflow/data_model/utils/update_protocol.py:200-202 | no staleness is missed: every dependent reachable without passing the right-hand side is waiting, on every graph |
| `UpdateProtocol.MarksGoOn` | core/ipyflow/data_model/utils/update_protocol.py:133-202 | whatever an update marks makes stale all that its staleness can go to: dependents, members, names of the enclosing namespace and their dependents; and that namespace holds it as waiting |
| `UpdateProtocol.Protocol.GoUp` | core/ipyflow/data_model/utils/update_protocol.py:142-154 | going up one namespace: its names are seen before any of their dependents, and it holds the symbol |
| `UpdateProtocol.UpdateOutcome` | core/ipyflow/data_model/utils/update_protocol.py:40-66 | updated symbols are cleared, the right-hand side is untouched, no dependent is missed, marks go on wherever staleness can go, and nothing unreachable is marked |
| `UpdateProtocol.Protocol.Call` | core/ipyflow/data_model/utils/update_protocol.py:23-66 | the whole protocol has this outcome on every graph |
| `UpdateProtocol.MarksExactly` | core/ipyflow/data_model/utils/update_protocol.py:184-202 | without namespaces the marked symbols are exactly the descendants that avoid the right-hand side and were not updated in the cell or statement |
| `UpdateEffects.DependentsWait` | core/ipyflow/data_model/utils/update_protocol.py:184-202 | on any graph, the end of every chain of dependents from an updated symbol waits, if its warnings are on and the cell did not update it |
| `UpdateEffects.OnlyDependentsMarked` | core/ipyflow/data_model/utils/update_protocol.py:184-202 | a new required time is the present one and goes only to such symbols on a chain along which staleness goes: to dependents, members, names of the enclosing namespace and their dependents |
| `UpdateEffects.NeverMarked` | core/ipyflow/data_model/symbol.py:993-998 | on any graph, a symbol with warnings off, or updated earlier in the cell, never gets a new required time |
| `UpdateEffects.HeldWhereTheyAre` | core/ipyflow/data_model/utils/update_protocol.py:133-141 | a namespace newly holds a symbol as waiting only if it encloses the symbol and is no module |
| `UpdateEffects.LetGo` | core/ipyflow/data_model/utils/update_protocol.py:104-117 | an updated symbol leaves the waiting set of the namespace around it, and no symbol leaves another |
| `UpdateEffects.DescendantsByChain` | core/ipyflow/data_model/utils/update_protocol.py:156-169 | descendants are the ends of chains of children that are not instances of their class, save those of the updated symbol |
| `UpdateEffects.UpdatedByChain` | core/ipyflow/data_model/utils/update_protocol.py:92-131 | what is updated along lies at the end of a chain, without imports, through names of enclosing namespaces and, downward, members |
| `UpdateEffects.CallUpdates` | core/ipyflow/data_model/utils/update_protocol.py:40-50 | such chains start at the symbol itself, or, if it was mutated, at all names of its object |
| `PositionCache.FinitelyManyQuestions` | core/ipyflow/data_model/symbol.py:947-969 | however symbols depend on each other, finitely many questions can follow one |
| `PositionCache.TrueIsEvident` | core/ipyflow/data_model/symbol.py:971-991 | on every graph and after any questions, no answer and no memo entry is True without a real chain of updated-after-dependency evidence |
| `PositionCache.FirstAnswerIsExact` | core/ipyflow/data_model/symbol.py:986-991 | from an empty cache the answer is True exactly if there is evidence, even on cyclic graphs |
| `PositionCache.AnswerIsExact` | core/ipyflow/data_model/symbol.py:971-991 | where the questions that may be stale form no cycle every answer is exact and only exact entries are added |
| `PositionCache.UncachedIsEvident` | core/ipyflow/data_model/symbol.py:947-969 | the same question without a cache is answered by the existence of evidence |
| `PositionCache.CacheIsTransparent` | core/ipyflow/data_model/symbol.py:971-991 | on such graphs cached and uncached answers coincide for every sequence of questions |
| `BlindPaths.TransparentExactly` | core/ipyflow/data_model/symbol.py:971-991 | on any graph, every answer in every sequence of questions is right if and only if there is no blind path: open questions one inside the other, leading to a stale symbol all of whose evidence lies behind them |
| `BlindPaths.QueryIsExact` | core/ipyflow/data_model/symbol.py:986-991 | while questions are open, and without blind paths, an answer is right unless the question is open itself, and so is every entry made |
| `BlindPaths.BlindPathMisleads` | core/ipyflow/data_model/symbol.py:986-991 | asked after the first question of a blind path, the last one is reported as not stale though it is |
| `BlindPaths.RankedIsNotBlind` | core/ipyflow/data_model/symbol.py:947-969 | a blind path needs a cycle of questions that may be stale |
| `StaleChains.EvidenceInData` | core/ipyflow/data_model/symbol.py:947-965 | there is evidence at once exactly if a parent was written, at or above the place of a dependency made at or above the position, in a later run |
| `StaleChains.AsksInData` | core/ipyflow/data_model/symbol.py:947-969 | a question leads to another exactly along a dependency made at or above the position, asked where it was made, or into the waiting namespace members, asked at the same position |
| `StaleChains.TestsInOrder` | core/ipyflow/data_model/symbol.py:947-969 | these are looked at in order of parents, dependency times and updates, and the namespace members after all of them |
| `StaleChains.EvidentIsStale` | core/ipyflow/data_model/symbol.py:947-991 | evidence is a chain of such dependencies through waiting symbols that ends in a newer write |
| `StaleChains.FirstAnswerIsStaleness` | core/ipyflow/data_model/symbol.py:971-991 | from an empty cache the answer is whether there is such a chain, on any graph |
| `StaleChains.AnswersAreStaleness` | core/ipyflow/data_model/symbol.py:971-991 | every answer in every sequence of questions is whether there is such a chain, if and only if there is no blind path |
| `PositionCache.CyclesLoseEvidence` | core/ipyflow/data_model/symbol.py:986-991 | on a cycle of two the order matters: asked after its partner, a stale symbol is reported as not stale |
| `PositionCache.CycleIsLooped` | core/ipyflow/data_model/symbol.py:986-988 | a concrete graph of that shape |
| `PositionCache.ClearingKeepsCurrent` | core/ipyflow/data_model/symbol.py:981-983 | emptying a symbol's table when the execution counter moved on loses no valid entry |
| `PositionCache.Tables.IsWaitingAtPosition` | core/ipyflow/data_model/symbol.py:971-991 | the per-symbol tables, cleared lazily, answer and end up as the memoized evaluation does on their valid entries |
| `PositionCache.Tables.Compute` | core/ipyflow/data_model/symbol.py:947-969 | the nested loops with early return perform the same questions in the same order |
| `PositionCache.Tables.CheckDependency` | core/ipyflow/data_model/symbol.py:953-965 | one dependency: evidence, or the question put to the parent, at or above the place of the dependency |
| `Slicing.SliceBuilder.MakeSliceHelper` | core/ipyflow/slicing/mixin.py:422-433 | ends on cyclic id graphs; adds only what the node depends on, and all of it, or fails exactly on a parent with no version old enough |
| `Slicing.SliceBuilder.VisitParents` | core/ipyflow/slicing/mixin.py:427-433 | the same for the parents in one context, in any order |
| `Slicing.SliceBuilder.WalkVersions` | core/ipyflow/slicing/mixin.py:429-432 | the version walk finds what its definition says |
| `Slicing.SliceBuilder.MakeMultiSlice` | core/ipyflow/slicing/mixin.py:438-453 | the slice of several seeds is exactly what they depend on, oldest first, and it fails exactly if that includes a dangling parent |
| `Slicing.SliceBuilder.SortByTimestamp` | core/ipyflow/slicing/mixin.py:453 | no repetition, and timestamps never decrease |
| `Slicing.WalkFindsNewestOldEnough` | core/ipyflow/slicing/mixin.py:429-432 | without overrides the walk finds the newest version not newer than the child, and runs off exactly if all are newer |
| `Slicing.SliceIsNotNewer` | core/ipyflow/slicing/mixin.py:427-433 | nothing in a slice is newer than its newest seed |
| `Slicing.SliceIsLeast` | core/ipyflow/slicing/mixin.py:422-433 | the slice is contained in every set that holds the seeds and is closed under edges |
| `Slicing.SliceIsClosure` | core/ipyflow/slicing/mixin.py:438-453 | a set in which every member is expanded and reachable is exactly the slice, and has no dangling parent |
| `Replay.ReplayAgrees` | core/ipyflow/slicing/mixin.py:422-453 | replaying a set of statements closed under last writers gives each symbol whose last writer is in the set its full-session value |
| `Replay.Session.UpdateUsageInfo` | core/ipyflow/data_model/symbol.py:1234-1259 | a use records an edge to the last statement that assigned the symbol, and to nothing else |
| `Replay.NewestIsLastWriter` | core/ipyflow/data_model/symbol.py:1253-1265 | the newest initialized update time of a symbol is that of its last writer |
| `Replay.Session.Dependency` | core/ipyflow/slicing/mixin.py:305-307 | the guard against edges to own children never drops a statement edge |
| `Replay.Session.ExecuteStatement` | core/ipyflow/flow.py:415-439 | one statement keeps the whole log valid: times, update times, edges, their mirror image, and the namespace |
| `Replay.GraphIsFaithful` | core/ipyflow/slicing/mixin.py:427-433 | the slicer's edges on a recorded session are exactly the recorded ones, and none dangles |
| `Replay.SliceIsSliceClosed` | core/ipyflow/slicing/mixin.py:422-453 | the slice of a statement is closed under last writers of what its members read |
| `Replay.SliceReplays` | core/ipyflow/slicing/mixin.py:422-453 | slice replay: running only the backward slice of a statement, oldest first, gives every symbol it assigned its full-session value |
| `Replay.Session.MakeSlice` | core/ipyflow/slicing/mixin.py:435-453 | the slicer, run on the recorded edges, returns such a slice |
| `Edges.CellEdges.AddParentEdges` | core/ipyflow/slicing/mixin.py:301-317 | adds, inherits or refuses edges while child maps hold at most the previous version's edges as extras; never a self-edge or two mutual parents |
| `Edges.CellEdges.InheritParents` | core/ipyflow/slicing/mixin.py:308-315 | a use of its own symbol keeps exactly the previous edges that carry the symbol |
| `Edges.CellEdges.RemoveParentEdges` | core/ipyflow/slicing/mixin.py:322-335 | takes the symbols off one edge in both maps and leaves no empty edge |
| `Edges.CellEdges.CreateAndTrack` | core/ipyflow/data_model/cell.py:399-429 | a new version starts without parents, with the children of the version before |
| `Edges.BeginsMidRun` | core/ipyflow/data_model/cell.py:414-417 | from exact maps, starting a version leaves only its previous edges as extras |
| `Edges.CellEdges.AddDataDep` | core/ipyflow/flow.py:415-429 | a use gives the running cell an edge only if the updating cell has not run again since |
| `Edges.CellEdges.RemoveDanglingParentEdges` | core/ipyflow/flow.py:574-588 | the cleanup makes the maps exact inverses again and drops exactly the dangling symbols |
| `Edges.CleanupIsExact` | core/ipyflow/flow.py:574-588 | pruning dangling symbols and then the extras of the previous version gives exact inverses |
| `Edges.CellEdges.RunCell` | core/ipyflow/flow.py:574-588 | one run as a whole: the maps are exact, other cells keep their edges that do not dangle, and the cell has an edge to another exactly if it used the symbol as that cell last wrote it and that cell does not depend on it, or kept an old edge by using the symbol as written by itself |
| `Edges.AfterRunInData` | core/ipyflow/flow.py:415-429 | what the uses of a run give, told by the last runs of the cells used |
| `Edges.UsesGainExactly` | core/ipyflow/slicing/mixin.py:301-317 | a use gives an edge exactly if it names the last run of its cell |
| `Edges.CurrentIsLast` | core/ipyflow/data_model/cell.py:399-429 | the current version of a cell is its last run |
| `Edges.CellEdges.RunSession` | core/ipyflow/data_model/cell.py:374-429 | over every session the maps stay exact inverses without self-edges or mutual parents, and an edge exists exactly if the runs so far leave it |
| `Edges.EdgesAreOfLastRun` | core/ipyflow/flow.py:574-588 | that is, if the last run of its cell left it and its symbol did not dangle after a later run |
| `Edges.CellEdges.CreateUntracked` | core/ipyflow/flow.py:509-515 | registering unexecuted cells changes no edge |
| `Edges.RenamingKeepsExact` | core/ipyflow/data_model/cell.py:293-305 | renaming a node keeps the maps exact |
| `Edges.CellIds.UpdateId` | core/ipyflow/data_model/cell.py:274-305 | renaming a cell to a fresh id is a graph isomorphism in both contexts, and keeps positions and reactive tags |
| `Edges.CellIds.RenameEdges` | core/ipyflow/data_model/cell.py:293-305 | in one context: exactly the one id is renamed, in both directions |
| `Edges.CellIds.RenameTags` | core/ipyflow/data_model/cell.py:289-292 | under every tag the old id is replaced by the new one |
| `Edges.StatementEdges.ReplaceParentEdges` | core/ipyflow/slicing/mixin.py:340-348 | moves one parent edge to another parent in both maps, failing exactly if either half is missing |
| `Edges.StatementEdges.ReplaceChildEdges` | core/ipyflow/slicing/mixin.py:350-358 | the same for a child edge |
| `Edges.StatementEdges.Override` | core/ipyflow/data_model/statement.py:131-142 | an overriding statement takes over all edges of the one it replaces: the same graph with that node renamed, never failing |
| `Liveness.ComputeLiveSymbolRefs.VisitExpr` | core/ipyflow/analysis/live_refs.py:381-399 | the visitor of expressions adds what the specification of expressions says, with its context flags |
| `Liveness.ComputeLiveSymbolRefs.VisitAssignImpl` | core/ipyflow/analysis/live_refs.py:248-319 | assignments: reads before kills, self-assigned names not killed, elements of a literal killed too |
| `Liveness.ComputeLiveSymbolRefs.VisitAugAssign` | core/ipyflow/analysis/live_refs.py:332-333 | augmented assignments read and modify but do not kill |
| `Liveness.ComputeLiveSymbolRefs.VisitBranchOrLoop` | core/ipyflow/analysis/live_refs.py:414-439 | branches and loops: both arms from a fresh set of kills, joined |
| `Liveness.ComputeLiveSymbolRefs.VisitBlock` | core/ipyflow/analysis/live_refs.py:421-432 | statements in sequence |
| `Liveness.ComputeLiveSymbolRefs.VisitModule` | core/ipyflow/analysis/live_refs.py:183-195 | the visitor as a whole computes the specified live, dead and modified sets |
| `LivenessSound.ExprSound` | core/ipyflow/analysis/live_refs.py:381-399 | stores that agree on the live references of an expression give it the same value |
| `LivenessSound.StmtSound` | core/ipyflow/analysis/live_refs.py:248-319 | one statement, from agreeing stores, takes the same path, assigns the same references and ends agreeing on the given, the assigned and the killed ones |
| `LivenessSound.WhileSound` | core/ipyflow/analysis/live_refs.py:414-439 | the same through any number of loop iterations |
| `LivenessSound.LivenessIsSound` | core/ipyflow/analysis/live_refs.py:183-195 | two stores that agree on any set with the live references take the same control path to the same end, assign the same references, and end agreeing on these, even after an error, and on the dead ones |
| `LivenessSound.DefiniteAssignment` | core/ipyflow/analysis/live_refs.py:261-319 | every reference called dead is assigned on every finishing run, through nested branches and loops |
| `LivenessSound.WrittenIsModifiedOrLive` | core/ipyflow/analysis/live_refs.py:433-439 | whatever a run assigns is reported as modified or live |
| `LivenessSound.WrittenIsModified` | core/ipyflow/analysis/live_refs.py:433-439 | so a cell none of whose assigned references is live has all its writes in modified |
| `LivenessSound.AssignmentIsModifiedExactly` | core/ipyflow/analysis/live_refs.py:261-319 | an assignment reports a reference it assigns as modified if and only if it does not read it, or it was dead already |
| `LivenessSound.SelfAssignmentIsNotModified` | core/ipyflow/analysis/live_refs.py:308 | x = x + 1 is a write that modified misses |
| `LivenessSound.ModifiedIsNamed` | core/ipyflow/analysis/live_refs.py:433-439 | nothing is reported as modified that is not a target of the cell |
| `LivePaths.ExprLiveExactly` | core/ipyflow/analysis/live_refs.py:381-399 | an expression adds exactly the chains it reads and that are not killed, in the present statement |
| `LivePaths.AssignedExactly` | core/ipyflow/analysis/live_refs.py:248-280 | an assignment assigns its names, and the elements of a name that alone receives a tuple literal |
| `LivenessExact.LiveExactly` | core/ipyflow/analysis/live_refs.py:183-195 | a reference is live in a statement if and only if on some path that statement reads it, neither it being killed before nor, in the same block or a branch inside it, its name |
| `LivenessExact.DeadExactly` | core/ipyflow/analysis/live_refs.py:414-439 | a reference is dead after a cell if and only if every path through the cell kills it |
| `LivenessExact.NestedElementStaysLive` | core/ipyflow/analysis/live_refs.py:433-439 | for an element a kill of its name counts within the block only: x = 1 and then x[0] read in a branch reports x[0] live |
| `LivenessExact.ElementKilledEitherWay` | core/ipyflow/analysis/live_refs.py:414-439 | an element assigned from its own name in one arm and its name in the other is reported live though every path kills one of them |
| `LivenessSound.QuasiquotedSubscript` | core/ipyflow/analysis/live_refs.py:506-518 | a subscript read is analysed soundly if and only if its name is not one of the quasiquoting names |
| `LivenessSound.BareAnnotationKills` | core/ipyflow/analysis/live_refs.py:329-330 | an annotation's kill is a real assignment if and only if it has a value |
| `LivenessSound.BareAnnotationHidesRead` | core/ipyflow/analysis/live_refs.py:329-330 | a read after an annotation is analysed soundly if and only if the annotation has a value |
| `ListIndex.NoSymbolTwice` | core/ipyflow/data_model/namespace.py:276-290 | names being keys, no symbol is found under two indices |
| `ListIndex.Namespace.RemapSym` | core/ipyflow/data_model/namespace.py:276-290 | moves one symbol to a free key and renames it, or does nothing |
| `ListIndex.Namespace.ShuffleSymbolsUpwardFrom` | core/ipyflow/data_model/namespace.py:292-295 | moves every symbol from the position on up by one, losing none |
| `ListIndex.Namespace.ShuffleSymbolsDownwardTo` | core/ipyflow/data_model/namespace.py:297-300 | moves every symbol after the position down by one, losing none |
| `ListIndex.Namespace.DeleteSubscript` | core/ipyflow/data_model/namespace.py:302-315 | removes one index, -1 standing for the last, and closes the gap |
| `ListIndex.Namespace.HandleExtend` | core/ipyflow/tracing/external_calls/list_handlers.py:30-39 | exactly the new indices get new symbols |
| `ListIndex.Namespace.HandleInsert` | core/ipyflow/tracing/external_calls/list_handlers.py:49-69 | an insertion shifts and then names the new element, unless several symbols match; it fails exactly on an index outside the list |
| `ListIndex.InsertAgrees` | core/ipyflow/tracing/external_calls/list_handlers.py:49-69 | after an insertion the index agrees with the list if and only if the position was in range and not negative |
| `ListIndex.SkippedInsertAgrees` | core/ipyflow/tracing/external_calls/list_handlers.py:56-57 | a skipped insertion leaves it agreeing if and only if nothing was tracked from that slot on |
| `ListIndex.NegativeDeleteAgrees` | core/ipyflow/data_model/namespace.py:302-315 | a pop below -1 leaves it agreeing if and only if nothing up to the removed element was tracked |
| `ListIndex.UnnoticedPopAgrees` | core/ipyflow/tracing/external_calls/base_handlers.py:137-139 | a pop without argument leaves it agreeing if and only if the last element was not tracked |
| `ListIndex.Namespace.Do` | core/ipyflow/tracing/external_calls/list_handlers.py:9-91 | for every list method: the index agrees with the list afterwards exactly under these conditions, and then all names are keys |
| `ListIndex.Namespace.Run` | core/ipyflow/tracing/external_calls/list_handlers.py:9-91 | over any sequence of supported methods the index equals the abstract sequence of optional symbols under the same methods |
| `ListIndex.InsertsBefore` | core/ipyflow/tracing/external_calls/list_handlers.py:49-69 | an insertion puts the value before the element its position denotes, from the end if negative, and keeps the others with their symbols |
| `ListIndex.PopTakes` | core/ipyflow/tracing/external_calls/list_handlers.py:74-91 | a pop takes the element its position denotes, from the end if negative, and keeps the others with their symbols |
| `ListIndex.RemoveTakesFirst` | core/ipyflow/tracing/external_calls/list_handlers.py:74-86 | a removal takes the first element with the value |
| `Unpacking.MatchContainer` | core/ipyflow/tracing/utils.py:26-37 | the one-pass matcher's target for every element; without a star it fails exactly on too many elements |
| `Unpacking.MatcherFollowsRule` | core/ipyflow/tracing/utils.py:31-37 | with one star and enough elements for the other targets it follows PEP 3132 if and only if the star gets an element or stands last |
| `Unpacking.PrescribedIsComplete` | core/ipyflow/tracing/utils.py:26-37 | the prescribed assignment is in order and gives every plain target exactly one element |
| `Unpacking.StoreTargets` | core/ipyflow/data_model/statement.py:436-470 | plain targets depend on their element, in order, and the star gathers its elements in order |
| `Unpacking.StoresFollowRule` | core/ipyflow/data_model/statement.py:445-470 | the stores are those PEP 3132 prescribes if and only if there are at least as many elements as targets |
| `Unpacking.ElementStored` | core/ipyflow/data_model/statement.py:436-470 | each element that does not go to the star is stored to its target with its own dependency, if any, and the extra ones, in order |

## Left out

- Tracing, hosting, AST rewriting, magics, comms, output capture and widgets: each step is given as "reads these symbols, then writes those"; positions, counters and tags are parameters.
- Readiness from DAG parents and the hybrid schedule (core/ipyflow/frontend.py:281-347), `_compute_filtered_parents`, stale-parent and unsafe-order reports: the scheduler theorems are for the liveness-based schedule, in order.
- Scheduler.Run: a cell reads its live symbols and then writes, and all its writes are propagated as one batch; the source updates symbol by symbol, with the parents of each assignment rather than of the whole cell.
- Scheduler.RunKeepsParents: the parents of a symbol are all live symbols of the cell that wrote it, as for `Scheduler.Run`.
- Scheduler.RunKeepsCauses: the same parents.
- Session.NotebookSession.AssignAll: the same parents.
- Session.NotebookSession.MarkDependents: the same batch of writes.
- Session.NotebookSession.Propagate: dependencies only; `UpdateProtocol` has namespaces and the class-to-instance rule, and `Propagation` relates the two.
- ReactiveOnce.CarefulRunIsRecognised: one way only; a session may run a cell on a waiting input and come to no harm. What is exact about the marks in each state is `ReactiveOnce.MarksExactly`.
- LivenessExact.LiveExactly: elements of a name to which a tuple literal reading that name is assigned are left out, as `ElementKilledEitherWay` shows they must be for some such bodies.
- LivenessExact.DeadExactly: the same elements are left out.
- Session.NotebookSession.RunReactively: runs any ready cell, in no particular order; the frontend's own order is `Incremental.RunIncrementally`.
- Scheduler.FearlessExactly: symbols are whole variables; aliasing, mutation and namespaces are the subject of `UpdateProtocol` only.
- Programs.FearlessPrograms: the language of `Liveness`, without quasiquoted subscripts and bare annotations; a run of a loop that does not end is cut off after a given number of rounds, and then counts as raised.
- Incremental.RunIncrementally: incremental mode, in order; forced-reactive cells and edits between runs are not part of this model, nor is the batch mode, which runs a precomputed closure.
- Frontend.FrontendCheckerResult.MaxUsedLiveSymbolCellCounter: the hybrid schedule's lowest allowed position and the counters overridden for imports.
- Frontend.FrontendCheckerResult.ComputeReadiness: the liveness-based branch only, and no `min_timestamp`.
- Frontend.FrontendCheckerResult.CheckOneCell: syntax errors, type errors, phantom cells and killing cells.
- Frontend.FrontendCheckerResult.ComputeLivenessResult: syntax errors, type errors, phantom cells and reactive tags are not part of this model.
- Frontend.FrontendCheckerResult.ComputeDagResult: starts from cells already classified ready; the DAG-based readiness test is modelled only as a newer parent, in `DagWaiters.RingOfReadyCellsDeadlocks`.
- Liveness: attributes, calls, comprehensions, lambdas, walrus, try, with, del, imports, function and class definitions, break and continue; the any-order shortcut that drops a live right-hand side (core/ipyflow/analysis/live_refs.py:282-307).
- Liveness.ComputeLiveSymbolRefs.VisitExpr: names, constant subscripts, binary operations and tuples.
- Liveness.ComputeLiveSymbolRefs.VisitAssignImpl: name and tuple targets; subscripts and attributes are not assigned.
- Liveness.ComputeLiveSymbolRefs.VisitAugAssign: name targets.
- Liveness.ComputeLiveSymbolRefs.VisitModule: references are names with constant subscripts; values are numbers and tuples, so subscripts are read but not assigned.
- UpdateProtocol.Protocol.CollectUpdatedSymbols: the used-counter and `max_descendent_timestamp` bookkeeping.
- UpdateProtocol.Protocol.Call: refreshing the other names of a mutated object, `fresher_ancestors` and `max_descendent_timestamp` are left out, and the pandas attribute/subscript twins are a parameter; `_propagate_waiting_to_namespace_children` is only ever called with its seen-check skipped, so it has no such parameter here.
- PositionCache.Tables.IsWaitingAtPosition: in-order only; any-order answers True without the cache.
- Slicing.SliceBuilder.MakeMultiSlice: turning a slice into text, and seeds given as timestamps.
- Replay.SliceReplays: module-level statements in the dynamic context, each reading and then assigning whole variables; static edges with a parent newer than the child are covered by `Slicing` only, as dangling parents.
- Edges.CellEdges.RunCell: edges of the running cell in the dynamic context; edges the checker adds to other cells (static context, after cleanup) and the edge copying for memoized runs are left out.
- Edges.CellIds.UpdateId: the index from positions to ids, the ids stored in older versions of the cell, and a new id that is already taken.
- ListIndex.Namespace.RemapSym: the dependency update of the moved symbol.
- ListIndex.Namespace.DeleteSubscript: the update of what depends on the deleted symbol.
- ListIndex.Namespace.Do: the dependency updates of a moved symbol; `list.insert` with fewer than two arguments fails in the list itself.
- Unpacking.StoreTargets: nested tuple targets, which the source handles by recursion, and too few elements for the plain targets, which Python refuses.
- Memoization of cell results, garbage collection, `%flow clear` (`min_timestamp`), deleted cells, snapshot timestamps.
