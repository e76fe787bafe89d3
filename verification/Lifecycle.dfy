/**
 The runtime as a transition system: any number of workers, each at some point of its code,
 interleave store transactions; language models, tools, tests and users choose freely.
 A worker is one run of `ClaimNextReadyTasks`, `runClaimedTaskPipeline`,
 `finalizeProjectRun`, `RetryTask` or `HandleUserConfirmation`.
 */
module Lifecycle {
  import opened Options
  import opened Text
  import opened TaskStatuses
  import opened DependencyNormalizer
  import opened Database
  import opened RepairDepths

  const FINISH := "agent.finish"
  const LIMIT_REACHED := "repair.limit_reached"

  /** Longest walk along repair links that completing a repair makes. */
  const MAX_LINK_STEPS := 16

  // ---- where a worker is -----------------------------------------------------------

  /** Named after what the worker does next. */
  datatype Phase =
    // scheduler: list the tasks, list the dependencies, claim the candidates
    | ListTasks | ListDeps(snapshot: seq<Task>) | ClaimTx(ids: seq<nat>)
    // executor
    | StartAttempt | ActionLoop | FinishTx | FailAttempt | CancelAttempt
    // tester
    | TestStart | TestRun | TestPass | TestFail
    // reviewer
    | ReviewGate | RejectTx | RejectAttempt | ApproveTx | ApproveAttempt
    // createRepairTask
    | RepairRead | RepairMark(root: nat) | RepairNote(root: nat) | RepairCreate(root: nat)
    | RepairLink(repair: nat, root: nat) | RepairReady(repair: nat) | RepairLimit
    // deltaReplan
    | DeltaCreate(titles: seq<string>) | DeltaReady(delta: nat, titles: seq<string>)
    // completeRepairedTask
    | Walk(path: seq<nat>) | WalkMark(path: seq<nat>) | WalkList(path: seq<nat>)
    | WalkSupersede(path: seq<nat>, todo: seq<nat>)
    // finalizeProjectRun
    | BlockList | Blocking(todo: seq<nat>, blocked: nat) | CountTasks | FinalReview(count: nat) | Complete(count: nat)
    // RetryTask and HandleUserConfirmation, after reading the status
    | UserMove(ready: bool)
    | Over

  /** A pipeline's `claim` is the index of the event that gave it its task; other workers have none. */
  datatype Worker = Worker(phase: Phase, task: nat, attempt: nat, claim: Option<nat>)

  /** What the outside world decides at a step. */
  datatype Choice =
    | Go
    | Crash
    | Limit(limit: nat)
    | Evidence(kind: string, summary: string)
    | FinishWith(summary: string)
    | FailNow
    | AskUser
    | Verdict(good: bool)
    | LlmError
    | NewTasks(titles: seq<string>)

  datatype Step = Step(op: Op, next: Phase, failed: Phase)

  // ---- what the reads compute --------------------------------------------------------

  /** READY tasks of the listing whose dependencies it shows DONE, in order, up to the limit. */
  function Candidates(listing: seq<Task>, deps: set<(nat, nat)>, limit: nat, from: nat): seq<nat>
    requires from <= |listing|
    decreases |listing| - from
  {
    if from == |listing| || limit == 0 then []
    else if listing[from].status == Ready && DependenciesDone(listing, deps, from) then
      [from] + Candidates(listing, deps, limit - 1, from + 1)
    else Candidates(listing, deps, limit, from + 1)
  }

  predicate BlocksDependents(s: TaskStatus) {
    s in {Blocked, NeedUserInput, Failed, ReviewFailed, Cancelled}
  }

  predicate HasBlockingDependency(db: Db, task: nat) {
    exists d :: d in db.deps && d.0 == task && d.1 < |db.tasks| && BlocksDependents(db.tasks[d.1].status)
  }

  /** The READY and DRAFT tasks with a dependency that cannot complete. */
  function BlockTargets(db: Db, from: nat): seq<nat>
    requires from <= |db.tasks|
    decreases |db.tasks| - from
  {
    if from == |db.tasks| then []
    else
      (if db.tasks[from].status in {Ready, Draft} && HasBlockingDependency(db, from) then [from] else [])
      + BlockTargets(db, from + 1)
  }

  function FailedTasks(tasks: seq<Task>, except: nat, from: nat): seq<nat>
    requires from <= |tasks|
    decreases |tasks| - from
  {
    if from == |tasks| then []
    else
      (if from != except && tasks[from].status in {Failed, ReviewFailed} then [from] else [])
      + FailedTasks(tasks, except, from + 1)
  }

  predicate AllFinished(tasks: seq<Task>) {
    forall i :: 0 <= i < |tasks| ==> Finished(tasks[i].status)
  }

  predicate HasPassedTest(db: Db, attempt: nat) {
    exists i :: 0 <= i < |db.tests| && db.tests[i].attempt == attempt && db.tests[i].passed
  }

  predicate IsFinishEvidence(o: Observation, attempt: nat) {
    o.attempt == attempt && o.kind == FINISH && Trim(o.summary) != ""
  }

  predicate HasFinishEvidence(db: Db, attempt: nat) {
    exists i :: 0 <= i < |db.observations| && IsFinishEvidence(db.observations[i], attempt)
  }

  /** The end of the repair links that start at a task; the code looks at most 16 tasks far. */
  function RootOf(events: seq<Event>, task: nat, seen: set<nat>, steps: nat): nat
    decreases steps
  {
    if steps == 0 || task in seen then task
    else match LinkOf(events, task)
      case None => task
      case Some(next) => RootOf(events, next, seen + {task}, steps - 1)
  }

  // ---- which code a phase belongs to ----------------------------------------------------

  predicate InScheduler(p: Phase) {
    p.ListTasks? || p.ListDeps? || p.ClaimTx?
  }

  predicate InExecutor(p: Phase) {
    p.StartAttempt? || p.ActionLoop? || p.FinishTx? || p.FailAttempt? || p.CancelAttempt?
  }

  predicate InTester(p: Phase) {
    p.TestStart? || p.TestRun? || p.TestPass? || p.TestFail?
  }

  predicate InReviewer(p: Phase) {
    p.ReviewGate? || p.RejectTx? || p.RejectAttempt? || p.ApproveTx? || p.ApproveAttempt?
  }

  predicate InRepair(p: Phase) {
    p.RepairRead? || p.RepairMark? || p.RepairNote? || p.RepairCreate? || p.RepairLimit?
  }

  /** Queueing a task that was just created. */
  predicate InQueueing(p: Phase) {
    p.RepairLink? || p.RepairReady? || p.DeltaCreate? || p.DeltaReady?
  }

  predicate InWalk(p: Phase) {
    p.Walk? || p.WalkMark? || p.WalkList? || p.WalkSupersede?
  }

  predicate InFinal(p: Phase) {
    p.BlockList? || p.Blocking? || p.CountTasks? || p.FinalReview? || p.Complete?
  }

  // ---- one step of a worker ------------------------------------------------------------

  function StepOf(db: Db, w: Worker, c: Choice): Step {
    if c.Crash? then Step(NoOp, Over, Over)
    else if InScheduler(w.phase) then SchedulerStep(db, w, c)
    else if InExecutor(w.phase) then ExecutorStep(w, c)
    else if InTester(w.phase) then TesterStep(w, c)
    else if InReviewer(w.phase) then ReviewerStep(db, w, c)
    else if InRepair(w.phase) then RepairStep(db, w, c)
    else if InQueueing(w.phase) then QueueingStep(db, w)
    else if InWalk(w.phase) then WalkingStep(db, w)
    else if InFinal(w.phase) then FinalStep(db, w, c)
    else if w.phase.UserMove? then Step(Transition(w.task, if w.phase.ready then Ready else Blocked), Over, Over)
    else Step(NoOp, Over, Over)
  }

  function SchedulerStep(db: Db, w: Worker, c: Choice): Step
    requires InScheduler(w.phase)
  {
    match w.phase
    case ListTasks => Step(NoOp, ListDeps(db.tasks), Over)
    case ListDeps(snapshot) =>
      var ids := Candidates(snapshot, db.deps, if c.Limit? && c.limit > 0 then c.limit else 1, 0);
      Step(NoOp, if ids == [] then Over else ClaimTx(ids), Over)
    case ClaimTx(ids) => Step(Claim(ids), Over, Over)
  }

  function ExecutorStep(w: Worker, c: Choice): Step
    requires InExecutor(w.phase)
  {
    match w.phase
    case StartAttempt => Step(CreateAttempt(w.task), ActionLoop, Over)
    case ActionLoop =>
      (match c
       case Evidence(kind, summary) => Step(Observe(w.attempt, kind, summary), ActionLoop, Over)
       case FinishWith(summary) => Step(Observe(w.attempt, FINISH, summary), FinishTx, Over)
       case AskUser => Step(Transition(w.task, NeedUserInput), CancelAttempt, Over)
       case FailNow => Step(Transition(w.task, Failed), FailAttempt, Over)
       case _ => Step(AddEvent(Noted(w.task, "agent.action_selected")), ActionLoop, Over))
    case FinishTx => Step(Transition(w.task, Implemented), TestStart, Over)
    case FailAttempt => Step(CompleteAttempt(w.attempt, AttemptFailed), RepairRead, Over)
    case CancelAttempt => Step(CompleteAttempt(w.attempt, AttemptCancelled), RepairRead, Over)
  }

  function TesterStep(w: Worker, c: Choice): Step
    requires InTester(w.phase)
  {
    match w.phase
    case TestStart => Step(Transition(w.task, Testing), TestRun, RepairRead)
    case TestRun =>
      if c == Verdict(true) then Step(RecordTest(w.attempt, true), TestPass, RepairRead)
      else Step(RecordTest(w.attempt, false), TestFail, RepairRead)
    case TestPass => Step(Transition(w.task, Reviewing), ReviewGate, RepairRead)
    case TestFail => Step(Transition(w.task, Failed), RepairRead, RepairRead)
  }

  /** The evidence gate comes before the model's verdict; a model error leaves no review. */
  function ReviewerStep(db: Db, w: Worker, c: Choice): Step
    requires InReviewer(w.phase)
  {
    match w.phase
    case ReviewGate =>
      if !HasPassedTest(db, w.attempt) || !HasFinishEvidence(db, w.attempt) || c == Verdict(false) then
        Step(RecordReview(w.attempt, false), RejectTx, RepairRead)
      else if c == Verdict(true) then Step(RecordReview(w.attempt, true), ApproveTx, RepairRead)
      else Step(NoOp, RepairRead, RepairRead)
    case RejectTx => Step(Transition(w.task, ReviewFailed), RejectAttempt, RepairRead)
    case RejectAttempt => Step(CompleteAttempt(w.attempt, AttemptFailed), RepairRead, RepairRead)
    case ApproveTx => Step(Transition(w.task, Done), ApproveAttempt, RepairRead)
    case ApproveAttempt => Step(CompleteAttempt(w.attempt, AttemptSucceeded), Walk([w.task]), RepairRead)
  }

  /** Marks the task FAILED where it can be, then creates a repair, or at the depth limit re-plans. */
  function RepairStep(db: Db, w: Worker, c: Choice): Step
    requires InRepair(w.phase)
  {
    match w.phase
    case RepairRead => Step(NoOp, RepairPhase(db, w.task), Over)
    case RepairMark(root) => Step(Transition(w.task, Failed), RepairNote(root), Over)
    case RepairNote(root) =>
      Step(AddEvent(Noted(w.task, "task.failed")),
           if RepairDepth(TitleOf(db, w.task)) < MAX_REPAIR_DEPTH then RepairCreate(root) else RepairLimit, Over)
    case RepairLimit =>
      Step(AddEvent(Noted(w.task, LIMIT_REACHED)), DeltaCreate(if c.NewTasks? then c.titles else []), Over)
    case RepairCreate(root) =>
      Step(CreateTask(RepairTitle(TitleOf(db, w.task))), RepairLink(|db.tasks|, root), Over)
  }

  function QueueingStep(db: Db, w: Worker): Step
    requires InQueueing(w.phase)
  {
    match w.phase
    case RepairLink(repair, root) => Step(AddEvent(RepairLinked(repair, root)), RepairReady(repair), Over)
    case RepairReady(repair) => Step(Transition(repair, Ready), Over, Over)
    case DeltaCreate(titles) =>
      if titles == [] then Step(NoOp, Over, Over)
      else Step(CreateTask(titles[0]), DeltaReady(|db.tasks|, titles[1..]), Over)
    case DeltaReady(delta, titles) => Step(Transition(delta, Ready), DeltaCreate(titles), Over)
  }

  function WalkingStep(db: Db, w: Worker): Step
    requires InWalk(w.phase)
  {
    match w.phase
    case Walk(path) => Step(NoOp, WalkPhase(db, path), Over)
    case WalkMark(path) => Step(Transition(EndOf(path), Done), WalkList(path), Over)
    case WalkList(path) => Step(NoOp, WalkSupersede(path, FailedTasks(db.tasks, w.task, 0)), Over)
    case WalkSupersede(path, todo) =>
      if todo == [] then Step(NoOp, Walk(path), Over)
      else if LinkOf(db.events, todo[0]) == Some(EndOf(path)) then
        Step(Transition(todo[0], Done), WalkSupersede(path, todo[1..]), Over)
      else Step(NoOp, WalkSupersede(path, todo[1..]), Over)
  }

  function FinalStep(db: Db, w: Worker, c: Choice): Step
    requires InFinal(w.phase)
  {
    match w.phase
    case BlockList => Step(NoOp, Blocking(BlockTargets(db, 0), 0), Over)
    case Blocking(todo, blocked) =>
      if todo != [] then Step(Transition(todo[0], Blocked), Blocking(todo[1..], blocked + 1), Over)
      else Step(NoOp, if blocked > 0 then Over else CountTasks, Over)
    case CountTasks => Step(NoOp, if AllFinished(db.tasks) then FinalReview(|db.tasks|) else Over, Over)
    case FinalReview(count) =>
      if c.NewTasks? then Step(NoOp, DeltaCreate(c.titles), Over)
      else Step(NoOp, if c == Verdict(true) || c.LlmError? then Complete(count) else Over, Over)
    case Complete(count) => Step(CompleteProject, Over, Over)
  }

  function TitleOf(db: Db, task: nat): string {
    if task < |db.tasks| then db.tasks[task].title else ""
  }

  /** Reads the failed task again and finds the task its repair is for. */
  function RepairPhase(db: Db, task: nat): Phase {
    if task >= |db.tasks| then Over
    else
      var status, root := db.tasks[task].status, RootOf(db.events, task, {}, MAX_LINK_STEPS);
      if status !in {Failed, Done, Cancelled}
          && CanTransition(status, Failed) then RepairMark(root) else RepairNote(root)
  }

  function EndOf(path: seq<nat>): nat {
    if path == [] then 0 else path[|path| - 1]
  }

  /** Follows one repair link; a failed task at its end is about to be marked DONE. */
  function WalkPhase(db: Db, path: seq<nat>): Phase {
    if path == [] || |path| > MAX_LINK_STEPS || EndOf(path) in path[..|path| - 1] then Over
    else match LinkOf(db.events, EndOf(path))
      case None => Over
      case Some(target) =>
        if target >= |db.tasks| then Over
        else if db.tasks[target].status in {Failed, ReviewFailed} then WalkMark(path + [target])
        else Walk(path + [target])
  }

  // ---- one step of the system --------------------------------------------------------------

  datatype Action =
    | StartClaim
    | StartFinal
    | Act(worker: nat, choice: Choice)
    | Retry(task: nat)
    | Confirm(task: nat, approved: bool)
    | PlanTasks(plan: seq<PlannedTask>, accepted: seq<bool>)

  datatype System = System(db: Db, workers: seq<Worker>)

  const START := System(EMPTY_DB, [])

  predicate Retryable(s: TaskStatus) {
    s in {Draft, Blocked, NeedUserInput, ReviewFailed, Failed}
  }

  /** One new pipeline for each task a claim hands out. */
  function Hired(claimed: seq<nat>, firstEvent: nat): seq<Worker> {
    seq(|claimed|, i requires 0 <= i < |claimed| => Worker(StartAttempt, claimed[i], 0, Some(firstEvent + i)))
  }

  /** The worker after a step that succeeded; a new attempt becomes its own. */
  function Advanced(db: Db, w: Worker, step: Step): Worker {
    w.(phase := step.next, attempt := if step.op.CreateAttempt? then |db.attempts| else w.attempt)
  }

  ghost function ActStep(s: System, worker: nat, c: Choice): System
    requires worker < |s.workers|
  {
    var w := s.workers[worker];
    var step := StepOf(s.db, w, c);
    if !Succeeds(s.db, step.op) then s.(workers := s.workers[worker := w.(phase := step.failed)])
    else
      var hired := if step.op.Claim? then Hired(Claimed(s.db, step.op.ids), |s.db.events|) else [];
      System(Exec(s.db, step.op), s.workers[worker := Advanced(s.db, w, step)] + hired)
  }

  /** An action that makes no sense in a state leaves it as it is. */
  ghost function Next(s: System, a: Action): System {
    match a
    case StartClaim => s.(workers := s.workers + [Worker(ListTasks, 0, 0, None)])
    case StartFinal => s.(workers := s.workers + [Worker(BlockList, 0, 0, None)])
    case Act(worker, c) => if worker < |s.workers| then ActStep(s, worker, c) else s
    case Retry(task) =>
      if task < |s.db.tasks| && Retryable(s.db.tasks[task].status)
      then s.(workers := s.workers + [Worker(UserMove(true), task, 0, None)]) else s
    case Confirm(task, approved) =>
      if task < |s.db.tasks| && s.db.tasks[task].status == NeedUserInput
      then s.(workers := s.workers + [Worker(UserMove(approved), task, 0, None)]) else s
    case PlanTasks(plan, accepted) =>
      if Succeeds(s.db, StorePlan(plan, accepted)) then s.(db := Exec(s.db, StorePlan(plan, accepted))) else s
  }

  ghost function Run(s: System, actions: seq<Action>): System
    decreases |actions|
  {
    if actions == [] then s else Run(Next(s, actions[0]), actions[1..])
  }
}
