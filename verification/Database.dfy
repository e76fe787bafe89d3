/**
 The rows of one project and what each store transaction does to them
 (`internal/store/sqlite_tasks.go`, `sqlite_evidence.go`). Rows are only ever appended, so
 a row's index is its ID. Status changes and repair links are events of an append-only log.
 */
module Database {
  import opened Options
  import opened TaskStatuses
  import opened DependencyNormalizer

  datatype AttemptStatus = AttemptRunning | AttemptSucceeded | AttemptFailed | AttemptCancelled
  datatype ProjectStatus = ProjectActive | ProjectCompleted

  datatype Task = Task(title: string, status: TaskStatus)
  datatype Attempt = Attempt(task: nat, number: nat, status: AttemptStatus)
  datatype Observation = Observation(attempt: nat, kind: string, summary: string)
  datatype TestResult = TestResult(attempt: nat, passed: bool)
  datatype ReviewResult = ReviewResult(attempt: nat, approved: bool)

  datatype Event =
    | StatusChanged(task: nat, from: TaskStatus, to: TaskStatus)
    | RepairLinked(task: nat, failedTask: nat)
    | Noted(task: nat, kind: string)

  datatype Db = Db(
    tasks: seq<Task>,
    deps: set<(nat, nat)>,
    attempts: seq<Attempt>,
    observations: seq<Observation>,
    tests: seq<TestResult>,
    reviews: seq<ReviewResult>,
    events: seq<Event>,
    project: ProjectStatus)

  const EMPTY_DB := Db([], {}, [], [], [], [], [], ProjectActive)

  /** One transaction, or one read, which is `NoOp`. */
  datatype Op =
    | NoOp
    | CreateTask(title: string)
    | Transition(task: nat, to: TaskStatus)
    | CreateAttempt(task: nat)
    | CompleteAttempt(attempt: nat, outcome: AttemptStatus)
    | Observe(attempt: nat, kind: string, summary: string)
    | RecordTest(attempt: nat, passed: bool)
    | RecordReview(attempt: nat, approved: bool)
    | AddEvent(event: Event)
    | Claim(ids: seq<nat>)
    | StorePlan(plan: seq<PlannedTask>, accepted: seq<bool>)
    | CompleteProject

  /** Whether the store carries the transaction out; when it does not, no row changes. */
  predicate Succeeds(db: Db, op: Op) {
    match op
    case Transition(task, to) => task < |db.tasks| && CanTransition(db.tasks[task].status, to)
    case CreateAttempt(task) => task < |db.tasks|
    case CompleteAttempt(attempt, _) => attempt < |db.attempts|
    case Observe(attempt, _, _) => attempt < |db.attempts|
    case RecordTest(attempt, _) => attempt < |db.attempts|
    case RecordReview(attempt, _) => attempt < |db.attempts|
    case AddEvent(event) => event.task < |db.tasks| && !event.StatusChanged?
    case StorePlan(plan, accepted) => CleanTitles(plan) && |accepted| == |plan|
    case _ => true
  }

  // ---- reading -------------------------------------------------------------------

  /** The task's attempt numbers, oldest first. */
  function NumbersOf(attempts: seq<Attempt>, task: nat): seq<nat> {
    if attempts == [] then []
    else
      var last := attempts[|attempts| - 1];
      NumbersOf(attempts[..|attempts| - 1], task) + if last.task == task then [last.number] else []
  }

  function MaxOf(numbers: seq<nat>): nat {
    if numbers == [] then 0
    else
      var rest, last := MaxOf(numbers[..|numbers| - 1]), numbers[|numbers| - 1];
      if last > rest then last else rest
  }

  /** The status a task's logged changes lead to from DRAFT; none when they do not chain. */
  function Replay(events: seq<Event>, task: nat): Option<TaskStatus> {
    if events == [] then Some(Draft)
    else
      var before, e := Replay(events[..|events| - 1], task), events[|events| - 1];
      if !(e.StatusChanged? && e.task == task) then before
      else if before == Some(e.from) && CanTransition(e.from, e.to) then Some(e.to)
      else None
  }

  /** The first repair link of a task, which is the only one that is ever read. */
  function LinkOf(events: seq<Event>, task: nat): Option<nat> {
    if events == [] then None
    else if events[0].RepairLinked? && events[0].task == task then Some(events[0].failedTask)
    else LinkOf(events[1..], task)
  }

  predicate DependenciesDone(tasks: seq<Task>, deps: set<(nat, nat)>, task: nat) {
    forall d :: d in deps && d.0 == task ==> d.1 < |tasks| && tasks[d.1].status == Done
  }

  // ---- writing -------------------------------------------------------------------

  function SetStatus(tasks: seq<Task>, task: nat, to: TaskStatus): seq<Task>
    requires task < |tasks|
  {
    tasks[task := tasks[task].(status := to)]
  }

  function Move(db: Db, task: nat, to: TaskStatus): Db
    requires task < |db.tasks|
  {
    db.(tasks := SetStatus(db.tasks, task, to), events := db.events + [StatusChanged(task, db.tasks[task].status, to)])
  }

  predicate Claimable(db: Db, id: nat) {
    id < |db.tasks| && db.tasks[id].status == Ready
  }

  function ClaimAll(db: Db, ids: seq<nat>): Db
    decreases |ids|
  {
    if ids == [] then db
    else ClaimAll(if Claimable(db, ids[0]) then Move(db, ids[0], InProgress) else db, ids[1..])
  }

  /** The tasks a claim hands out: those still READY when their turn comes. */
  function Claimed(db: Db, ids: seq<nat>): seq<nat>
    decreases |ids|
  {
    if ids == [] then []
    else if Claimable(db, ids[0]) then [ids[0]] + Claimed(Move(db, ids[0], InProgress), ids[1..])
    else Claimed(db, ids[1..])
  }

  /** The place of the last task with this title, as `titleToID` ends up holding it. */
  function LastIndex(plan: seq<PlannedTask>, title: string): nat {
    if plan == [] then 0
    else if plan[|plan| - 1].title == title then |plan| - 1
    else LastIndex(plan[..|plan| - 1], title)
  }

  /** The dependency rows of a stored plan whose first task has ID `base`. */
  function IdEdges(base: nat, plan: seq<PlannedTask>): set<(nat, nat)> {
    set i, d | 0 <= i < |plan| && d in plan[i].dependsOn :: (base + i, base + LastIndex(plan, d))
  }

  function FirstStatus(accepted: bool): TaskStatus {
    if accepted then Ready else Blocked
  }

  function StoredTasks(plan: seq<PlannedTask>, accepted: seq<bool>): seq<Task>
    requires |accepted| == |plan|
  {
    seq(|plan|, i requires 0 <= i < |plan| => Task(plan[i].title, FirstStatus(accepted[i])))
  }

  function StoredEvents(base: nat, accepted: seq<bool>): seq<Event> {
    seq(|accepted|, i requires 0 <= i < |accepted| => StatusChanged(base + i, Draft, FirstStatus(accepted[i])))
  }

  function AddAttempt(db: Db, task: nat): Db {
    db.(
      attempts := db.attempts + [Attempt(task, MaxOf(NumbersOf(db.attempts, task)) + 1, AttemptRunning)],
      events := db.events + [Noted(task, "task_attempt.created")])
  }

  function EndAttempt(db: Db, attempt: nat, outcome: AttemptStatus): Db
    requires attempt < |db.attempts|
  {
    db.(
      attempts := db.attempts[attempt := db.attempts[attempt].(status := outcome)],
      events := db.events + [Noted(db.attempts[attempt].task, "task_attempt.completed")])
  }

  /** Stores a normalised plan: its tasks, their dependencies, then each task's first status. */
  function StoreAll(db: Db, plan: seq<PlannedTask>, accepted: seq<bool>): Db
    requires |accepted| == |plan|
  {
    db.(tasks := db.tasks + StoredTasks(plan, accepted),
        deps := db.deps + IdEdges(|db.tasks|, plan),
        events := db.events + StoredEvents(|db.tasks|, accepted))
  }

  ghost function StoreNormalized(db: Db, plan: seq<PlannedTask>, accepted: seq<bool>): Db
    requires |accepted| == |plan|
  {
    StoreAll(db, Normalize(plan), accepted)
  }

  ghost function Exec(db: Db, op: Op): Db
    requires Succeeds(db, op)
  {
    match op
    case NoOp => db
    case CreateTask(title) => db.(tasks := db.tasks + [Task(title, Draft)])
    case Transition(task, to) => Move(db, task, to)
    case CreateAttempt(task) => AddAttempt(db, task)
    case CompleteAttempt(attempt, outcome) => EndAttempt(db, attempt, outcome)
    case Observe(attempt, kind, summary) => db.(observations := db.observations + [Observation(attempt, kind, summary)])
    case RecordTest(attempt, passed) => db.(tests := db.tests + [TestResult(attempt, passed)])
    case RecordReview(attempt, approved) => db.(reviews := db.reviews + [ReviewResult(attempt, approved)])
    case AddEvent(event) => db.(events := db.events + [event])
    case Claim(ids) => ClaimAll(db, ids)
    case StorePlan(plan, accepted) => StoreNormalized(db, plan, accepted)
    case CompleteProject => db.(project := ProjectCompleted)
  }
}
