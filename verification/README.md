# agent-gogo: a verified model

agent-gogo runs language-model agents whose tasks are durable rows: a plan becomes a
dependency graph of tasks, workers claim tasks that may run, each task is executed, tested and
reviewed, and failures are repaired or re-planned. This project models that life of a task and
proves what every run keeps, whatever models, tools, users and the scheduling of goroutines do.

Check everything with `dafny verify dfyconfig.toml` (Dafny 4.11).

## How it is built

| files | what they hold |
|---|---|
| `Text`, `Options`, `Digraph`, `Orderings` | trimming, optional values, reachability and cycles, orders and sorting |
| `DependencyPruning`, `GreedyPruning`, `DependencyNormalizer`, `PlanOrder`, `PlanMeaning`, `PlanStorage` | cleaning a plan: the depth-first search, pruning in place, the rewritten lists, what they are in terms of the plan's own tasks and marks, and storing the result |
| `TaskStatuses`, `Database`, `StoreRows`, `EventLog`, `TaskStores` | the status table, the rows of a project, what a claim does to them, the append-only log, and the store as an object |
| `FinishGates`, `ActionLoops`, `GateMeaning`, `ProgressGuard`, `SkippedEvidence` | what counts as evidence, what the action loop does with a model and tools that may answer in any way, what gate and guard mean for the calls of a run, and what the automatic finish passes over |
| `Scheduler`, `Executors`, `Reviewers`, `Repairs`, `BlockingPasses`, `FinalReviews` | the components that work on the store, as methods proved against what they promise |
| `RepairDepths`, `Lifecycle` | the whole runtime as a transition system: workers at a point of their code, interleaving one transaction at a time |
| `UndisturbedWorkers`, `UndisturbedRepairs` | what a worker of the transition system does when nobody interferes, in the terms of the components |
| `RunSafety`, `PendingTasks`, `RepairLinks`, `LinkOrder`, `Claims`, `LivePipelines`, `RunBound` | invariants over every run |
| `RunGuarantees`, `ProjectCompletion` | what they promise about a run from an empty store |
| `WorkerSteps`, `DraftRetries`, `RepairLimits` | steps to build runs from, and runs that show where a promise ends |
| `ParallelRuns`, `TaskQueues` | the parallel run loop with its goroutines, and the queue of project runs |
| `WebSocketFrames`, `TruncatedJson`, `ContextSerializer`, `BlockDiff` | the byte and text algorithms |

In `Lifecycle` a `System` is the rows of a project and any number of workers. A worker is one
run of the scheduler, of a task's pipeline, of the end of a project run, or of a user's
command, and its `Phase` says what it does next. `Next` lets one worker take one step: one
store transaction (`Exec`) or one read. Everything outside the program is a `Choice`. `Run`
folds a sequence of actions, so a statement about `Run` holds for every interleaving.
Rows are append-only, so a row's index is its ID.

A store method is proved to do exactly what `Exec` says, and the components that the runtime
calls are methods over that store. A worker of `Lifecycle` that is left alone does what these
promise (`UndisturbedWorkers`, `UndisturbedRepairs`). Where several goroutines interleave, the
methods of `TaskQueue` are the atomic sections of the code, so what each keeps holds at every
moment.

## Where the code and its documentation differ

* The comment on `TaskQueue` (`internal/runtime/queue.go:10-14`) promises a catch-up pass for
  a submission during a run. The code refuses such a submission as a duplicate
  (`RefusedExactlyWhileHeld`).
* The finish gate promises "at least one successful interpreted tool result", and keeps that.
  The automatic finish does not: for a task that asks for test output, but neither for passing
  tests nor for reading sources, any event that names `test.run` is enough, a repetition that
  the progress guard blocked included. Such a task can be IMPLEMENTED without a single tool
  call (`FinishedWithoutCall`); `FinishIsEvidencedIff` says exactly when that cannot happen.
* The gate also asks for a passing test or a browser reading where the task's text does. The
  automatic finish can pass over both: a task that is to write text is finished by its first
  written file. `PassingTestIsShownIff` and `BrowsingIsShownIff` say for which texts the
  evidence can be missing, and after how few steps.
* A run can mark a project COMPLETED although it has unfinished tasks: those stored between
  its check and its last step (`CompletedTooEarly`). `CompletingStepIsExact` says when.
* Repair links form a forest of depth one as long as no user retries a task that a worker is
  still creating. `RetriedDraftBreaksForest` and `LinkedRootBreaksForest` give runs that do,
  and `LinkStepIsExact` the exact condition on the step that writes a link.
* A comment (`internal/runtime/service_run.go:457-459`) says that the same task can never run
  twice. Without users that holds (`ClaimsAreExclusive`). But a user can queue a task again
  while its pipeline is still at work on it, after it asked a question or failed; two pipelines
  then hold the task, and the first can mark FAILED what the second has started
  (`TwoPipelinesAtOnce`). So can the worker that created a task, if a user has retried the
  task before it was queued (`CreatorQueuesLive`). `LiveStepIsExact` says when this begins.
* Only final reviews are bounded by `maxProjectReplans`, and two at once can exceed it by one
  (`ResumesReachBound`). Re-plans after the repair limit have no bound
  (`RepairLimitsAreNotBounded`), and use up those of the final review
  (`UsedUpReplansResumeNothing`).
* Text with objects in nested arrays is sliced so that an array is closed that was opened
  before the slice, which completing cannot mend (`SliceOfArraysFails`, `SliceCompletesIff`).

## Model

| member | source | states |
|---|---|---|
| DependencyPruning.ReachesDependency | internal/planner/llm.go:298-317 | the search with its shared `seen` map answers true exactly when a path exists, in any graph, cyclic or not |
| DependencyPruning.DependencySearch.ReachesDependency | internal/planner/llm.go:298-317 | what each recursive call keeps: only open titles have unseen successors; the number of unseen titles bounds the recursion |
| DependencyPruning.PruneCycles | internal/runtime/service_planning.go:237-257 | filtering every list in place, over a map that changes meanwhile, leaves exactly the lists that pruning one dependency at a time gives |
| DependencyPruning.PrunedMapIsAcyclic | internal/runtime/service_planning.go:237-257 | the map that pruning ends with has no cycle, even when titles repeat |
| DependencyPruning.PruningDropsOnlyCycleEdges | internal/planner/llm.go:276-296 | with distinct titles every list keeps its order, only dependencies that close a cycle of the plan are dropped, and no cycle is left |
| DependencyPruning.PruningKeepsAcyclicPlans | internal/planner/llm.go:276-296 | pruning changes nothing exactly when the plan has no cycle |
| GreedyPruning.PruningIsGreedy | internal/runtime/service_planning.go:237-257 | a dependency is dropped exactly when it closes a cycle with what is left when the pruner comes to it: what it has kept so far, and all that is still to come |
| DependencyNormalizer.NormalizeDependencies | internal/runtime/service_planning.go:138-216 | the loops over slices and maps compute the specified normal form, rewritten lists and then pruning, of which `PlanMeaning` says what it is |
| DependencyNormalizer.FindRoles | internal/runtime/service_planning.go:142-160 | the research, reflection and final titles the loops find, a later task with the same title deciding whether it is final |
| PlanMeaning.NormalizedListIs | internal/runtime/service_planning.go:162-215 | read off the marks and titles of the plan alone, a rewritten list holds, once each, exactly: nothing for research, research for reflection, and for any other task its own dependencies, the root, and for a final task every task without a final mark, as far as these are other tasks and final ones only for final tasks |
| PlanMeaning.NormalizedListOrder | internal/runtime/service_planning.go:183-212 | its own dependencies come first in their order, then the root, then the tasks without a final mark in the order of the plan |
| PlanMeaning.NormalizedPlanIs | internal/runtime/service_planning.go:138-257 | after pruning a task depends on nothing else than it is to wait for, and on all of that except what leads back to it |
| PlanMeaning.OwnDependencyStays | internal/planner/llm.go:194-317 | a dependency that the plan itself names, on another task and not against the order of the final tasks, is listed, and stays unless that task waits for this one in turn |
| PlanOrder.NormalizedIsShaped | internal/runtime/service_planning.go:162-215 | every rewritten list has the shape of its role: research waits for nothing, reflection for research, the rest for the root, final tasks for all others |
| PlanOrder.RootsComeFirst | internal/runtime/service_planning.go:162-215 | after pruning, research has no dependencies and every other task still reaches the reflection and research tasks |
| PlanOrder.FinalsComeLast | internal/planner/llm.go:218-273 | after pruning, every final task reaches every other task and none of those reaches it |
| PlanOrder.NeededEdgesAreKept | internal/runtime/service_planning.go:237-257 | pruning never drops a dependency on a root, nor one of a final task on another kind |
| PlanOrder.NormalizeAgainChangesNothing | internal/runtime/service_planning.go:62 | the runtime's second pass gives a normalised plan back list for list, even after the planner has reordered its lists |
| PlanOrder.NormalizeIsIdempotent | internal/planner/llm.go:194-296 | normalising with pruning is idempotent on plans with distinct titles |
| PlanStorage.NormalizedIsLinkable | internal/runtime/service_planning.go:82-98 | after normalising, every dependency is the title of another task and none is listed twice |
| PlanStorage.StoredPlanIsAcyclic | internal/runtime/service_planning.go:72-98 | the stored graph of IDs has no cycle for every plan, even when titles repeat and links go to the last task with a title |
| PlanStorage.TitleWalkIsIdWalk | internal/runtime/service_planning.go:72-98 | with distinct titles what a title reaches, its stored task reaches |
| PlanStorage.LinkTasks | internal/runtime/service_planning.go:82-98 | linking stores exactly the dependencies of the plan; unknown titles, self-dependencies and duplicate rows cannot occur |
| PlanStorage.StoredLinks | internal/runtime/service_planning.go:82-98 | the rows that linking adds are, for each task and each title it depends on, one to the last task with that title |
| PlanStorage.PlanProject | internal/runtime/service_planning.go:62-136 | behind the older tasks come those of the plan in order, READY if validation accepted them and BLOCKED if not; the only error left is that no task may run, and otherwise exactly the READY ones are returned |
| TaskStatuses.StartedOnlyByClaim | internal/domain/status.go:22-88 | READY to IN_PROGRESS is the only step that starts a task, and DONE and CANCELLED are never left |
| EventLog.ReplayIsChain | internal/store/sqlite_tasks.go:163-206 | replay succeeds exactly when each change starts where the one before ended and is in the table, and then gives the last status |
| EventLog.ExecKeepsLog | internal/store/sqlite_tasks.go:163-425 | every transaction keeps the log replaying to each task's status and attempt numbers 1 to n |
| TaskStores.TaskStore.TransitionTask | internal/store/sqlite_tasks.go:163-206 | moves the task and logs it when the table allows it, otherwise changes nothing |
| TaskStores.TaskStore.CreateTaskAttempt | internal/store/sqlite_tasks.go:208-255 | the loop for the largest number gives the next attempt number, which is one more than how many there are |
| TaskStores.TaskStore.ClaimTasks | internal/store/sqlite_tasks.go:379-425 | exactly the tasks still READY move to IN_PROGRESS, each with its event, and are returned |
| StoreRows.ClaimedRows | internal/store/sqlite_tasks.go:379-425 | row by row: the listed tasks that were READY are IN_PROGRESS, all others as before |
| StoreRows.ClaimedTasks | internal/store/sqlite_tasks.go:379-425 | exactly these are handed out, each once |
| StoreRows.ClaimedEvents | internal/store/sqlite_tasks.go:379-425 | each start is logged, in the order in which the tasks are handed out, behind the older events |
| Scheduler.CandidatesAreTheFirst | internal/scheduler/ready.go:106-114 | candidates are the first runnable tasks in order, as many as asked for, and a runnable task is left out only when the limit is used up |
| Scheduler.NextReadyTask | internal/scheduler/ready.go:27-62 | the first READY task with all dependencies DONE, none exactly when there is none |
| Scheduler.ClaimNextReadyTasks | internal/scheduler/ready.go:83-126 | claims all the candidates it picked, at least one allowed |
| FinishGates.FinishEvidenceReady | internal/executor/task_heuristics.go:10-72 | the loop over the events and the loops behind it compute the gate, of which `GateIsExact` says what it asks of the calls of a run |
| FinishGates.AutoFinishSummary | internal/executor/task_heuristics.go:113-155 | the backward loop finds the last event that finishes the task, with its summary |
| GateMeaning.GateIsExact | internal/executor/task_heuristics.go:10-111 | in every run the gate accepts exactly when the calls of the run have shown all the evidence, spelled out over tool names and results: a good result or the failed test to diagnose, the passing test, browser reading and interactions the text asks for, and unless it passes as research a good call to each tool it names |
| GateMeaning.NamedToolsWereCalled | internal/executor/task_heuristics.go:74-111 | an accepted finish that does not pass as research has, for each token that names an available tool, a call of this run to the first such tool or to the token, judged succeeded, changed or verified |
| GateMeaning.FinishIsAcceptedIff | internal/executor/generic.go:161-183 | a finish that the model asks for less than three times ends the run, with its own words, exactly where all the evidence was shown; otherwise it is rejected and no tool is called |
| GateMeaning.CallIsExact | internal/executor/generic.go:194-226 | a call that the model asks for less than three times reaches its tool, its result is the next event, and it ends the run exactly where it did not fail and something now finishes the task by itself |
| GateMeaning.OtherChoices | internal/executor/generic.go:135-239 | without a choice, or with a call that names no tool, the run fails; a question ends it; an unknown action is rejected and no tool is called |
| GateMeaning.AcceptedFinishIsShown | internal/executor/generic.go:131-239 | whatever model and tools do, a run that ends with an accepted finish has shown all the evidence |
| GateMeaning.AutoFinishIsExact | internal/executor/task_heuristics.go:113-155 | in every run the automatic finish applies exactly where the calls have shown one of the seven things that finish a task by themselves |
| GateMeaning.RunEndsBy | internal/executor/generic.go:131-239 | every run ends by a question, by a finish that was accepted, by evidence that finishes the task, or because the steps or the choices have run out or a call names no tool |
| ProgressGuard.SameAction | internal/executor/action.go:74-88 | which actions count as the same: calls by tool and arguments, finishes and questions by what they say, others by their name |
| ProgressGuard.GuardIsExact | internal/executor/generic.go:142-156 | wherever a run has come to, an action that the model has chosen twice before is rejected without a call, and any other tool call reaches its tool |
| ProgressGuard.NoThirdCall | internal/executor/generic.go:142-156 | in a whole run no tool is called more than twice with the same arguments |
| ActionLoops.LoopIsTruthful | internal/executor/generic.go:131-239 | every event the model sees was rejected by the loop or is the result of exactly one call of this run, in order; and no fingerprint reaches the tools more than twice |
| ActionLoops.CallStaysGuarded | internal/executor/generic.go:142-156 | the guard keeps every fingerprint's calls within its count and within two |
| ActionLoops.GateIsEvidenced | internal/executor/task_heuristics.go:43-72 | a finish the gate accepts has a successful tool call in this run, or the failed test a task is to diagnose; and the passing test, browser reading and interactions it needs were calls of this run too |
| ActionLoops.FinishedWithoutCall | internal/executor/task_heuristics.go:142-150 | a run of the loop that implements a task without any tool call, through a blocked repetition |
| ActionLoops.FinishIsEvidencedIff | internal/executor/generic.go:131-239 | whatever the model chooses, a task is implemented only with evidence from the calls of the run: exactly when it does not take any test, or at most three steps are allowed |
| SkippedEvidence.PassingTestIsShownIff | internal/executor/task_heuristics.go:113-155 | every implemented task that needs a passing test has shown one in its run, whatever model and tools do: exactly when it is neither to write text, nor to read the web, nor to report on a browser, or the steps do not suffice for that |
| SkippedEvidence.BrowsingIsShownIff | internal/executor/task_heuristics.go:113-155 | every implemented task that needs a browser reading has shown one: exactly when it asks for no written text, test or code change besides that finishes it first |
| Executors.GenericExecutor.Execute | internal/executor/generic.go:107-239 | the attempt ends IMPLEMENTED, FAILED or NEED_USER_INPUT as the loop does, IMPLEMENTED always with finish evidence; the calls of the run are exactly the loop's, no tool called three times with the same arguments; an accepted finish has shown all its evidence, and what `FinishIsEvidencedIff` says of the others |
| Reviewers.Review | internal/reviewer/llm.go:34-126 | approved exactly with a passed test, finish evidence and a good verdict; rejected exactly without evidence or with a bad one; what is written in each case |
| Reviewers.FindFinishEvidence | internal/reviewer/evidence.go:97-104 | true exactly when the attempt has an `agent.finish` observation whose summary is not blank |
| RepairDepths.CountRepairDepth | internal/runtime/service_repair.go:111-119 | the loop counts nested `Fix: ` prefixes with trimming in between |
| RepairDepths.RepairIsOneDeeper | internal/runtime/service_repair.go:85-119 | a repair is one deeper than the task it repairs exactly when that task's title is not blank |
| Repairs.CreateRepairTask | internal/runtime/service_repair.go:13-109 | below the depth limit one READY repair with its title and its link to the root, at the limit the tasks of a re-plan; the failed task is FAILED if a pipeline was at work on it, and no other task changes |
| Repairs.RootRepairTargetID | internal/runtime/service_repair.go:212-230 | the walk with its 16-step cap finds the true root where links form a forest of depth one |
| Repairs.CompleteRepairedTask | internal/runtime/service_repair.go:121-158 | if the task that a repair links to had failed, it is DONE and no other repair of it is left failed; in a forest exactly that task and its other failed repairs change; and where the repair has an approved attempt, everything that became DONE is justified by it |
| Repairs.LedToIsJustified | internal/runtime/service_repair.go:121-158 | what an approved repair's links lead to has an approved attempt at the start of repair links that lead to it |
| Repairs.CompleteSupersededRepairTasks | internal/runtime/service_repair.go:160-190 | row by row: exactly the other failed tasks whose first link goes to the root become DONE |
| BlockingPasses.BlockTasksWaitingOnBlockedDependencies | internal/runtime/service_run.go:229-282 | one pass blocks exactly the READY and DRAFT tasks that wait for a task that cannot complete, and counts them |
| BlockingPasses.PassIs | internal/runtime/service_run.go:229-282 | row by row: exactly the READY and DRAFT tasks are BLOCKED that wait for a task that is BLOCKED, waits for its user, has failed or was cancelled |
| BlockingPasses.PassBlocksOne | internal/runtime/service_run.go:229-282 | with an acyclic graph and nothing in flight or runnable, a pass blocks at least one task as long as one is READY |
| BlockingPasses.PassesSettle | internal/runtime/service_run.go:229-282 | each further pass leaves at least one READY task less |
| BlockingPasses.StuckRunsSettle | internal/runtime/service_run.go:229-282 | in every reachable state at rest, as many passes as there are READY tasks leave none |
| FinalReviews.RunService.FinalizeProjectRun | internal/runtime/final_review.go:31-68 | the project is COMPLETED exactly when all tasks are finished and the reviewer does not object; the run goes on exactly when it objects, a re-plan is left and finds something to do |
| FinalReviews.ReadyIff | internal/runtime/final_review.go:31-45 | the project is judged exactly when all its tasks are DONE or CANCELLED: then there is nothing to block |
| FinalReviews.RunService.RunProjectFinalReview | internal/runtime/final_review.go:72-138 | when a rejection resumes the project, what it queues, and when the counter rises |
| FinalReviews.RunService.DeltaReplan | internal/runtime/final_review.go:142-198 | queues the planned tasks READY and counts the re-plan; a planner error counts nothing |
| FinalReviews.ResumesAreBounded | internal/runtime/final_review.go:86-137 | with at most `width` reviews at once, which read the counter when they start and raise it when they end, final reviews resume a project at most `maxProjectReplans - 1 + width` times, however runs, rejections and repair limits mix |
| FinalReviews.ResumesReachBound | internal/runtime/final_review.go:86-137 | for every width there is a sequence of reviews that meets this bound |
| FinalReviews.RejectionsUseUpReplans | internal/runtime/final_review.go:116-137 | one at a time, rejections alone resume the project exactly as long as re-plans are left |
| FinalReviews.UsedUpReplansResumeNothing | internal/runtime/final_review.go:116-137 | once re-plans are used up, by repair limits too, no review that starts later resumes the project |
| RepairLimits.RepairLimitsAreNotBounded | internal/runtime/service_repair.go:58-83 | for every n there is a run that reaches the repair limit n times, each time after a task and all its nested repairs have failed, and queues the tasks of a re-plan each time |
| RunSafety.NextKeepsSafe | internal/runtime/service_run.go:71-156 | every step of every worker keeps the log faithful, dependencies respected, completion justified and the graph acyclic |
| RunSafety.RunKeepsSafe | internal/runtime/service_run.go:158-551 | so does every run, in any interleaving |
| RunSafety.StepIsSafe | internal/runtime/service_run.go:71-156 | what a worker knows at its point of the code justifies the task it is about to start or complete |
| RunSafety.CandidatesCanBeClaimed | internal/scheduler/ready.go:83-126 | candidates picked from a listing that is out of date may still be claimed, because DONE is never left |
| UndisturbedWorkers.AloneIsRun | internal/runtime/service_run.go:71-156 | what a worker does alone is a run in which nobody else acts |
| UndisturbedWorkers.ExecutesAlone | internal/executor/generic.go:107-239 | a claimed task ends IMPLEMENTED with the observation of its finish, FAILED or NEED_USER_INPUT as the model chooses, its new attempt running, FAILED or CANCELLED |
| UndisturbedWorkers.TestsAlone | internal/tester/generic_evidence.go:29-76 | the test is recorded, and the task goes on to its review if it passed and FAILED to its repair if not |
| UndisturbedWorkers.ReviewsAlone | internal/reviewer/llm.go:34-126 | DONE with its attempt SUCCEEDED exactly with evidence and a good verdict, otherwise REVIEW_FAILED with its attempt FAILED; the review is recorded either way |
| UndisturbedWorkers.SchedulesAlone | internal/scheduler/ready.go:83-126 | a scheduler that is not disturbed claims all the candidates it picked, with a limit of at least one |
| UndisturbedWorkers.RetriesAlone | internal/runtime/service_run.go:322-346 | a retry queues a task exactly when it is a draft, blocked, waiting for its user or failed, and changes nothing else |
| UndisturbedWorkers.ConfirmsAlone | internal/runtime/service_run.go:417-451 | a user's answer queues a task that waits for one, or blocks it, and changes no other task |
| UndisturbedRepairs.RepairsAlone | internal/runtime/service_repair.go:20-108 | below the depth limit one more task, READY, with its title and a link to the root, and all older links as they were |
| UndisturbedRepairs.LimitsAlone | internal/runtime/service_repair.go:58-83 | at the limit the failed task is marked in the same way and the tasks of the re-plan are queued behind the others, READY and in order |
| UndisturbedRepairs.WalksAlone | internal/runtime/service_repair.go:121-190 | in a forest of depth one exactly the task that was repaired, if it had failed, and its other failed repairs become DONE |
| UndisturbedRepairs.FinalizesAlone | internal/runtime/final_review.go:31-45 | the tasks that must be are BLOCKED, and the project is judged exactly when all its tasks are finished |
| UndisturbedRepairs.JudgedAlone | internal/runtime/final_review.go:46-138 | a project that is approved, or whose reviewer fails, is COMPLETED; one that is rejected gets the tasks of a re-plan, READY and in order |
| RunGuarantees.StartedTaskWaitedForAll | internal/scheduler/ready.go:55-126 | in every reachable state a started task has everything it waits for, directly or through others, DONE |
| RunGuarantees.FinalTasksRunLast | internal/runtime/service_planning.go:162-215 | in any run that plans distinct titles, no final task starts before every other task of the plan is DONE |
| RunGuarantees.StoredGraphIsAcyclic | internal/runtime/service_planning.go:72-98 | no run stores a cycle of dependencies |
| RunGuarantees.HistoryIsFaithful | internal/store/sqlite_tasks.go:163-255 | each task's logged changes chain from DRAFT to its status through the table, and its attempts are numbered 1 to n |
| RunGuarantees.DoneTasksAreJustified | internal/reviewer/llm.go:54-104 | every DONE task of every run has an approved attempt, with a passed test and finish evidence, at the start of repair links that lead to it or to what it repairs |
| RunGuarantees.DoneTasksWereApproved | internal/runtime/service_repair.go:121-190 | unless a task is retried while it is being created, it was approved itself, or something linked to it, or to the same root |
| ProjectCompletion.CompletedProjectsWereFinished | internal/runtime/final_review.go:31-68 | a COMPLETED project was completed by a worker whose own earlier check found all the tasks of that moment DONE or CANCELLED, and those still are |
| ProjectCompletion.CompletingStepIsExact | internal/runtime/final_review.go:37-63 | every completing step was preceded by its worker's check; it finds all tasks finished exactly when those created since the check are, in particular when nothing was created in between |
| ProjectCompletion.CompletedTooEarly | internal/runtime/final_review.go:37-63 | a run that completes a project with an unfinished task |
| RunGuarantees.ClaimsAreExclusive | internal/store/sqlite_tasks.go:379-425 | READY to IN_PROGRESS events and pipelines correspond one to one, and without user actions no task ever has two pipelines |
| RunGuarantees.RepairsLinkToRoots | internal/runtime/service_repair.go:192-230 | unless a task is retried while it is being created, every link goes to a task without one, which the walk finds in one step |
| RunGuarantees.PlanLeadsToBoundedRuns | internal/runtime/service_repair.go:58-119 | a plan of n tasks, made in any reachable state with no re-plan or user command under way, adds at most 4n task runs, repairs included, to those already due, until the next plan or user action |
| PendingTasks.RunKeepsTidy | internal/runtime/service_repair.go:85-108 | in every run, whatever users retry, a task that is being created has one creator and waits for nothing, and a pipeline's task is past DRAFT |
| PendingTasks.NextHoldsDrafts | internal/runtime/service_repair.go:85-108 | a task that is being created stays a DRAFT until its creator queues it, unless a user retries it |
| RepairLinks.NextKeepsOrderly | internal/runtime/service_repair.go:20-108 | every step keeps links a forest of depth one, unless a user retries a task that is being created |
| RepairLinks.RunKeepsOrderly | internal/runtime/service_repair.go:20-108 | so does every run |
| RepairLinks.RootInForest | internal/runtime/service_repair.go:212-230 | in a forest the walk never needs its cap |
| RepairLinks.WalkIsCapped | internal/runtime/service_repair.go:212-230 | on a chain of any length the walk finds its end, but goes no further than 16 links |
| LinkOrder.RootIsAlwaysFound | internal/runtime/service_repair.go:212-230 | in every reachable state, whatever users retry, the walk ends at a task without a link, so its 16-step cap is never what stops it |
| LinkOrder.LinkStepIsExact | internal/runtime/service_repair.go:99-106 | in every reachable state with a forest of depth one, writing a link keeps the forest exactly when the root has got no link since it was read and nothing is linked to the repair yet |
| DraftRetries.RetriedDraftBreaksForest | internal/runtime/service_run.go:338-340 | a run in which a retried DRAFT repair fails before it is linked, and something is linked to it first |
| DraftRetries.LinkedRootBreaksForest | internal/runtime/service_run.go:338-340 | the same run with the links in the other order, where the root has been linked since it was read |
| Claims.NextKeepsClaims | internal/store/sqlite_tasks.go:379-425 | every step, user retries included, keeps claim events and pipelines in one-to-one correspondence |
| Claims.RunKeepsExclusive | internal/runtime/service_run.go:24-50 | without user actions no two pipelines ever get the same task |
| Claims.ClaimedWereReady | internal/store/sqlite_tasks.go:379-425 | a claim returns each task once, and only tasks that were READY |
| LivePipelines.LiveStepIsExact | internal/runtime/service_run.go:322-346 | in every reachable state where no task has two live pipelines and no queued task has one, the step that ends this is exactly one that makes a task READY, by a user's command or by its creator, while a pipeline is still at work on it |
| LivePipelines.OnlyUsersQueueLive | internal/runtime/service_run.go:322-346 | where tasks that are being created are still drafts, only a user's command takes such a step |
| LivePipelines.CreatorQueuesLive | internal/runtime/service_repair.go:85-108 | a run in which a repair is retried before it is queued, and its creator's own step queues it again while a pipeline is at work on it |
| LivePipelines.OnePipelineAtATime | internal/runtime/service_run.go:322-346 | in every run in which nobody, user or creator, makes a task READY while a pipeline is at work on it, no task ever has two pipelines at work on it, however often it is retried |
| LivePipelines.TwoPipelinesAtOnce | internal/runtime/service_repair.go:20-37 | a run in which a user answers early, the task is claimed again, and the first pipeline marks FAILED what the second has started |
| RunBound.ActKeepsPotential | internal/runtime/service_repair.go:58-119 | no step gains weight: the pipeline that creates a repair pays for it |
| RunBound.RunsAreBounded | internal/runtime/service_repair.go:58-119 | between re-plans and user actions, whatever was retried before, the sum of 4 minus the repair depth over waiting and in-flight tasks, and over tasks being created that a retry has queued already, bounds the task runs and falls by at least one with each finished run |
| ParallelRuns.ParallelRunIsBounded | internal/runtime/service_run.go:474-550 | in any interleaving at most `workers` tasks run at once, and at most `maxTasks - 1 + 2 * workers` are started, across iteration resets |
| ParallelRuns.UnresumedRunIsBounded | internal/runtime/service_run.go:486-536 | a run that no final review resumes starts at most `2 * maxTasks - 1 + workers` |
| ParallelRuns.ResumedRunClaims | internal/runtime/service_run.go:541-549 | a run that its last final review resumes goes on to claim |
| ParallelRuns.ParallelRunReturns | internal/runtime/service_run.go:474-550 | every run returns: it takes a bounded number of moves for each task it may start and each time it is resumed, and until it has returned the loop or a goroutine can move, whatever the environment answers |
| ParallelRuns.ReturnedRunIsFinished | internal/runtime/service_run.go:474-550 | when the run returns, every claimed task was started, has finished and was counted |
| ParallelRuns.WorkIsNeverStuck | internal/runtime/service_run.go:518-534 | a started goroutine can always take its next step |
| ParallelRuns.RunKeepsValid | internal/runtime/service_run.go:474-550 | counter, semaphore and wait group agree with the goroutines at every moment |
| TaskQueues.TaskQueue.Mark | internal/runtime/queue.go:101-113 | refuses before `Start`, refuses a marked project, otherwise marks it, and keeps one holder for each mark |
| TaskQueues.TaskQueue.CountDropped | internal/runtime/queue.go:107-125 | a refused submission is counted in a step of its own, after the lock was released |
| TaskQueues.TaskQueue.Send | internal/runtime/queue.go:115-117 | puts the project into the channel exactly when fewer than 256 wait there |
| TaskQueues.TaskQueue.Unmark | internal/runtime/queue.go:118-125 | the rollback of a full buffer takes back this project's mark and no other |
| TaskQueues.TaskQueue.Receive | internal/runtime/queue.go:80 | the oldest queued project goes to the worker |
| TaskQueues.TaskQueue.MarkDone | internal/runtime/queue.go:130-134 | clears this project's mark once its run is over |
| TaskQueues.TaskQueue.Stats | internal/runtime/queue.go:138-149 | the queued projects are those with a holder; accepted submissions are processed, queued or being run, and all others were dropped or are under way |
| TaskQueues.NoProjectQueuedTwice | internal/runtime/queue.go:101-126 | the channel never holds a project twice |
| TaskQueues.NoProjectRunTwice | internal/runtime/queue.go:74-91 | no project is run by two workers, or run while it is queued |
| TaskQueues.RefusedExactlyWhileHeld | internal/runtime/queue.go:101-134 | a submission is a duplicate exactly while its project is being submitted, queued or run |
| WebSocketFrames.WriteFrame | internal/provider/chromemcpbridge/bridge.go:382-408 | the buffer it writes is one masked text frame of RFC 6455, section 5.2 |
| WebSocketFrames.WrittenLayout | internal/provider/chromemcpbridge/bridge.go:382-408 | byte by byte: final bit and text opcode, mask bit, the shortest of the three lengths in network order, the mask, then the payload under it |
| WebSocketFrames.ReadNext | internal/provider/chromemcpbridge/bridge.go:433-479 | reading takes exactly the bytes of the frames it reads, skips pings, and tells short input from a close and from a length that cannot be allocated, which panics |
| WebSocketFrames.AnyFrameIsRead | internal/provider/chromemcpbridge/bridge.go:433-466 | every frame laid out as RFC 6455, section 5.2, says is read, with any flags, opcode and mask, and with a longer length field than it needs too |
| WebSocketFrames.AnyFrameMeans | internal/provider/chromemcpbridge/bridge.go:469-479 | a close frame ends the connection, a ping is skipped, everything else is a message |
| WebSocketFrames.CutFrameIsShort | internal/provider/chromemcpbridge/bridge.go:433-466 | a frame that is cut off anywhere is short input |
| WebSocketFrames.FrameRoundTrip | internal/provider/chromemcpbridge/bridge.go:382-479 | for any opcode, mask and payload that fits into memory, reading what was written gives the payload and leaves what follows |
| WebSocketFrames.MessageRoundTrip | internal/provider/chromemcpbridge/bridge.go:382-479 | what `WriteFrame` writes, `ReadNext` reads back |
| WebSocketFrames.StreamRoundTrip | internal/provider/chromemcpbridge/bridge.go:469-478 | a stream of text frames with pings in between reads back as the texts in order |
| WebSocketFrames.WrittenFrameIsShortest | internal/provider/chromemcpbridge/bridge.go:386-395 | no masked frame that reads back as the payload is shorter |
| TruncatedJson.CompleteTruncatedJSON | internal/textutil/textutil.go:35-83 | the scanning loop and the closing loop compute the specified completion, which the next four rows spell out |
| TruncatedJson.CommaIsCut | internal/textutil/textutil.go:76-82 | text that ends outside strings in a comma and blanks loses these and nothing else, and then gets its closers, the innermost first |
| TruncatedJson.OnlyBlanksAreCut | internal/textutil/textutil.go:76-82 | text that ends outside strings in blanks, without a comma, loses these only |
| TruncatedJson.OpenStringIsClosed | internal/textutil/textutil.go:68-75 | an open string is closed as it stands |
| TruncatedJson.DanglingEscapeGoes | internal/textutil/textutil.go:68-75 | an escape with nothing to escape is taken back first |
| TruncatedJson.CompletedIsClosed | internal/textutil/textutil.go:35-83 | for every text the result ends outside strings with nothing open, and completing again changes nothing |
| TruncatedJson.CompletedIsWellNestedIff | internal/textutil/textutil.go:35-83 | the result is well nested, kinds matching, exactly when no bracket of the text is wrong |
| TruncatedJson.EveryCutDocumentCompletes | internal/textutil/textutil.go:31-83 | every cut of every document, after a dangling escape or comma too, completes to a well-nested text |
| TruncatedJson.SliceCompletesIff | internal/textutil/textutil.go:17-21 | a cut text whose brackets fit, sliced from its first to its last brace, completes to a well-nested text exactly when the slice closes nothing opened before it, unless it starts inside a string |
| TruncatedJson.EverySliceCompletes | internal/textutil/textutil.go:17-21 | every cut of an object that holds a closing brace completes, whatever stands before its first brace; without one the whole text is taken, and completes exactly when its brackets fit |
| TruncatedJson.SliceOfArraysFails | internal/textutil/textutil.go:17-21 | objects in nested arrays, where it does not |
| TruncatedJson.CompletedKeepsText | internal/textutil/textutil.go:68-82 | only blanks, one comma and a dangling escape are cut off the end |
| ContextSerializer.CompareStrings | internal/contextbuilder/serializer.go:691-699 | the loop over pairs is the lexicographic order of the two keys |
| ContextSerializer.NormalizeMessages | internal/contextbuilder/serializer.go:296-327 | the loop with its `seen` map renders each key once, in order |
| ContextSerializer.RenderedAreMessages | internal/contextbuilder/serializer.go:296-327 | each rendered message shows one of the messages field by field, and they are in strict order of ID, version, role, text and time, so none is rendered twice |
| ContextSerializer.EveryMessageIsRendered | internal/contextbuilder/serializer.go:296-327 | no message is lost where no field contains the separator |
| ContextSerializer.NormalizingIgnoresOrder | internal/contextbuilder/serializer.go:296-327 | the normalised messages are the same for every permutation of the input |
| ContextSerializer.RecentAreTheNewest | internal/contextbuilder/serializer.go:614-632 | sorting, cutting and sorting again keeps the newest items, as many as allowed, oldest first |
| ContextSerializer.NormalizeEvidenceRefs | internal/contextbuilder/serializer.go:578-612 | the window and the loop with its `seen` map compute the specified list |
| ContextSerializer.EvidenceIsTheNewest | internal/contextbuilder/serializer.go:578-612 | with distinct IDs and times, exactly the newest items, as many as allowed, oldest first |
| ContextSerializer.EvidenceOrder | internal/contextbuilder/serializer.go:578-612 | by time and at the same time by ID; what is left out is older than all that is kept, or of the same time with a larger ID |
| BlockDiff.SortBlockInvalidations | internal/contextbuilder/cache.go:110-118 | the exchange sort, in place, leaves the same entries in order |
| BlockDiff.DiffBlockMap | internal/contextbuilder/cache.go:85-108 | one entry for each name whose keys differ, with the key it had and the key it has, a missing one empty, in the order of the names |
| BlockDiff.DiffIsUnique | internal/contextbuilder/cache.go:85-108 | the difference does not depend on the order in which the maps are walked |

## Left out

- Titles are taken as trimmed and not blank, as the planner hands them on; the planner's own first pass can see raw ones.
- Marker matching of titles and descriptions by the planner is three booleans for each task, by the executor the booleans of `TaskText`; the markers themselves are not modelled.
- Rows of one project only; SQL, migrations and the order of rows by time or random IDs are replaced by append-ordered rows.
- Language models, tools, testers' verdicts, validators and users are choices; prompts, schemas, retries of malformed answers and usage counters are not modelled.
- `PlanProject` is one atomic step of `Lifecycle`; a user who retries a DRAFT task in the middle of it is not modelled.
- Reads that precede a write in the same function are one step of `Lifecycle` with it where nothing in between matters: the reviewer reads its evidence and records its verdict in one step.
- Events, memories, session contexts and progress messages that no later code reads are left out of the steps.
- Cancellation of a context is a worker that stops (`Crash`); store failures other than missing rows, foreign keys, unique rows and forbidden transitions are not modelled.
- The sequential run loop `RunProjectTasks` is covered as a client of the steps it takes, not as a loop of its own.
- Schedulers that cannot claim atomically, to which the run loop falls back, are not modelled.
- Execute: actions come with their tool names and arguments already normalised; the tokens and the expected text found in a task are given, and outputs are given in lower case.
- GateIsEvidenced: leaves out that a source file was read, because there the gate also takes an event that was rejected.
- ClaimNextReadyTasks: states what happens on an undisturbed store; `RunSafety` covers claims on stale listings.
- Review: the verdict is given; how the language model is asked is not modelled.
- TaskQueues.TaskQueue.Start: a queue that is started again after a stop keeps its idle old workers until they leave, which the code leaves to which context they happen to read.
- TaskQueues.TaskQueue.Stats: reads all counters at one moment; the code loads them one after the other, so between two loads others may move on.
- The timeout of `TaskQueue.Stop` and its report are not modelled.
- DecodeJSONObject: only the slice it takes; code fences, spaced escapes and decoding are not modelled.
- ContextSerializer: `sort.SliceStable` is given by what it does; the other normalisers are like the two shown.
- HTTP handlers, the console, the browser bridge beyond frames, file, git and shell tools, skills, personas and the code index are plumbing around what is modelled.
