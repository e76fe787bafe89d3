/**
 Tasks that are being created, over whole runs. A worker that has created a task and not yet
 queued it holds it alone; and as long as no user retries such a task, it stays a DRAFT until
 its creator queues it.
 */
module PendingTasks {
  import opened Options
  import opened TaskStatuses
  import opened DependencyNormalizer
  import opened Database
  import opened Lifecycle
  import opened RunSafety

  // ---- the invariants -----------------------------------------------------------------

  predicate IsDraft(db: Db, task: nat) {
    task < |db.tasks| && db.tasks[task].status == Draft
  }

  /** A task that exists and is past DRAFT. */
  predicate PastDraft(db: Db, task: nat) {
    task < |db.tasks| && db.tasks[task].status != Draft
  }

  /** The task a worker has created and not yet queued. */
  function Pending(p: Phase): Option<nat> {
    match p
    case RepairLink(repair, _) => Some(repair)
    case RepairReady(repair) => Some(repair)
    case DeltaReady(delta, _) => Some(delta)
    case _ => None
  }

  /** The root a pipeline will link its repair to. */
  function RootIn(p: Phase): Option<nat> {
    match p
    case RepairMark(root) => Some(root)
    case RepairNote(root) => Some(root)
    case RepairCreate(root) => Some(root)
    case RepairLink(_, root) => Some(root)
    case _ => None
  }

  predicate HasDependency(db: Db, task: nat) {
    exists d :: d in db.deps && d.0 == task
  }

  predicate WorksOnTask(p: Phase) {
    InExecutor(p) || InTester(p) || InReviewer(p) || InRepair(p) || InWalk(p)
  }

  predicate AddsLink(op: Op) {
    op.AddEvent? && op.event.RepairLinked?
  }

  /** A task that is being created waits for nothing; those a pass blocks do. */
  ghost predicate WorkerTidy(db: Db, w: Worker) {
    && (WorksOnTask(w.phase) ==> w.claim.Some?)
    && (w.claim.Some? ==> PastDraft(db, w.task))
    && (w.phase.UserMove? ==> w.task < |db.tasks|)
    && (Pending(w.phase).Some? ==> Pending(w.phase).value < |db.tasks| && !HasDependency(db, Pending(w.phase).value))
    && (w.phase.Blocking? ==> forall i :: 0 <= i < |w.phase.todo| ==> HasDependency(db, w.phase.todo[i]))
  }

  ghost predicate AllTidy(db: Db, workers: seq<Worker>) {
    forall i :: 0 <= i < |workers| ==> WorkerTidy(db, workers[i])
  }

  ghost predicate PendingDistinct(workers: seq<Worker>) {
    forall i, j :: 0 <= i < |workers| && 0 <= j < |workers| && i != j && Pending(workers[i].phase).Some? ==>
      Pending(workers[i].phase) != Pending(workers[j].phase)
  }

  /** What every reachable state satisfies. */
  ghost predicate Tidy(s: System) {
    AllTidy(s.db, s.workers) && PendingDistinct(s.workers)
  }

  ghost predicate PendingAreDrafts(db: Db, workers: seq<Worker>) {
    forall i :: 0 <= i < |workers| && Pending(workers[i].phase).Some? ==> IsDraft(db, Pending(workers[i].phase).value)
  }

  /** No user is about to move a task that a worker is still creating. */
  ghost predicate UsersApart(workers: seq<Worker>) {
    forall i, j :: 0 <= i < |workers| && 0 <= j < |workers| && workers[i].phase.UserMove? ==>
      Pending(workers[j].phase) != Some(workers[i].task)
  }

  /** What holds as well, unless a user retries a task that is being created. */
  ghost predicate DraftsHeld(s: System) {
    PendingAreDrafts(s.db, s.workers) && UsersApart(s.workers)
  }

  // ---- what a step does ------------------------------------------------------------------

  /** What is new for the worker after its step: a root it found, a task it created, tasks to block. */
  ghost predicate OrderFollows(db: Db, w: Worker, next: Phase) {
    && (WorksOnTask(next) ==> WorksOnTask(w.phase))
    && (next.UserMove? ==> w.phase.UserMove?)
    && (Pending(next).Some? ==> Pending(next) == Pending(w.phase) || Pending(next) == Some(|db.tasks|))
    && (next.RepairLink? ==> w.phase.RepairCreate?)
    && (RootIn(next).Some? ==>
          || RootIn(next) == RootIn(w.phase)
          || (w.phase.RepairRead? && RootIn(next) == Some(RootOf(db.events, w.task, {}, MAX_LINK_STEPS))))
    && (next.Blocking? ==>
          || next.todo == BlockTargets(db, 0)
          || (w.phase.Blocking? && w.phase.todo != [] && next.todo == w.phase.todo[1..]))
  }

  /** A worker creates at most the task it then has pending, and links only the repair it has pending. */
  ghost predicate OrderlyStep(db: Db, w: Worker, step: Step) {
    && OrderFollows(db, w, step.next) && OrderFollows(db, w, step.failed)
    && Pending(step.failed) == None
    && (step.op.CreateTask? ==> Pending(step.next) == Some(|db.tasks|))
    && (Pending(step.next).Some? ==>
        !step.op.Transition? && (Pending(step.next) == Pending(w.phase) || step.op.CreateTask?))
    && (AddsLink(step.op) ==> w.phase.RepairLink? && step.op.event == RepairLinked(w.phase.repair, w.phase.root))
  }

  lemma PipelineOrder(db: Db, w: Worker, c: Choice)
    ensures InExecutor(w.phase) ==> OrderlyStep(db, w, ExecutorStep(w, c))
    ensures InTester(w.phase) ==> OrderlyStep(db, w, TesterStep(w, c))
  {
  }

  lemma ReviewOrder(db: Db, w: Worker, c: Choice)
    requires InReviewer(w.phase)
    ensures OrderlyStep(db, w, ReviewerStep(db, w, c))
  {
  }

  lemma RepairOrder(db: Db, w: Worker, c: Choice)
    requires InRepair(w.phase)
    ensures OrderlyStep(db, w, RepairStep(db, w, c))
  {
  }

  lemma QueueingOrder(db: Db, w: Worker)
    requires InQueueing(w.phase)
    ensures OrderlyStep(db, w, QueueingStep(db, w))
  {
  }

  lemma WalkOrder(db: Db, w: Worker)
    requires InWalk(w.phase)
    ensures OrderlyStep(db, w, WalkingStep(db, w))
  {
  }

  lemma SchedulerOrder(db: Db, w: Worker, c: Choice)
    requires InScheduler(w.phase)
    ensures OrderlyStep(db, w, SchedulerStep(db, w, c))
  {
  }

  lemma FinalOrder(db: Db, w: Worker, c: Choice)
    requires InFinal(w.phase)
    ensures OrderlyStep(db, w, FinalStep(db, w, c))
  {
  }

  lemma StepOrder(db: Db, w: Worker, c: Choice)
    ensures OrderlyStep(db, w, StepOf(db, w, c))
  {
    if InExecutor(w.phase) || InTester(w.phase) {
      PipelineOrder(db, w, c);
    } else if InReviewer(w.phase) {
      ReviewOrder(db, w, c);
    } else if InRepair(w.phase) {
      RepairOrder(db, w, c);
    } else if InQueueing(w.phase) {
      QueueingOrder(db, w);
    } else if InWalk(w.phase) {
      WalkOrder(db, w);
    } else if InFinal(w.phase) {
      FinalOrder(db, w, c);
    } else if InScheduler(w.phase) {
      SchedulerOrder(db, w, c);
    }
  }

  // ---- rows that stay as they are -----------------------------------------------------------

  lemma {:induction false} ClaimKeepsDrafts(db: Db, ids: seq<nat>)
    ensures |ClaimAll(db, ids).tasks| == |db.tasks|
    ensures forall t :: 0 <= t < |db.tasks| && db.tasks[t].status == Draft ==>
        ClaimAll(db, ids).tasks[t].status == Draft
    decreases |ids|
  {
    if ids != [] {
      ClaimKeepsDrafts(if Claimable(db, ids[0]) then Move(db, ids[0], InProgress) else db, ids[1..]);
    }
  }

  lemma DraftStays(db: Db, op: Op, task: nat)
    requires Succeeds(db, op) && IsDraft(db, task) && !(op.Transition? && op.task == task)
    ensures IsDraft(Exec(db, op), task)
  {
    if op.Claim? {
      ClaimKeepsDrafts(db, op.ids);
    }
  }

  lemma DependencyStays(db: Db, op: Op, task: nat)
    requires Succeeds(db, op) && task < |db.tasks|
    ensures HasDependency(Exec(db, op), task) <==> HasDependency(db, task)
  {
    var later := Exec(db, op);
    ExecExtends(db, op);
    if HasDependency(later, task) {
      var d :| d in later.deps && d.0 == task;
      assert d in db.deps;
    }
    if HasDependency(db, task) {
      var d :| d in db.deps && d.0 == task;
      assert d in later.deps;
    }
  }

  lemma {:induction false} BlockTargetsHaveDependency(db: Db, from: nat)
    requires from <= |db.tasks|
    ensures forall t :: t in BlockTargets(db, from) ==> HasDependency(db, t)
    decreases |db.tasks| - from
  {
    if from < |db.tasks| {
      BlockTargetsHaveDependency(db, from + 1);
      if HasBlockingDependency(db, from) {
        var d :| d in db.deps && d.0 == from;
      }
    }
  }

  /** A task that was just created is a draft that waits for nothing. */
  lemma CreatedIsDraft(db: Db, title: string)
    requires DbSafe(db)
    ensures var later := Exec(db, CreateTask(title));
      IsDraft(later, |db.tasks|) && !HasDependency(later, |db.tasks|)
  {
    forall d | d in db.deps ensures d.0 != |db.tasks| {
      assert d == (d.0, d.1);
    }
  }

  // ---- tidy in every reachable state -----------------------------------------------------------

  lemma TodoStays(db: Db, later: Db, todo: seq<nat>)
    requires db.deps <= later.deps && forall i :: 0 <= i < |todo| ==> HasDependency(db, todo[i])
    ensures forall i :: 0 <= i < |todo| ==> HasDependency(later, todo[i])
  {
    forall i | 0 <= i < |todo| ensures HasDependency(later, todo[i]) {
      assert HasDependency(db, todo[i]);
      var d :| d in db.deps && d.0 == todo[i];
      assert d in later.deps;
    }
  }

  lemma WorkerStaysTidy(db: Db, op: Op, w: Worker)
    requires Succeeds(db, op) && WorkerTidy(db, w)
    ensures WorkerTidy(Exec(db, op), w)
  {
    ExecExtends(db, op);
    if Pending(w.phase).Some? {
      DependencyStays(db, op, Pending(w.phase).value);
    }
    if w.phase.Blocking? {
      TodoStays(db, Exec(db, op), w.phase.todo);
    }
  }

  lemma NewTodoHasDependencies(db: Db, w: Worker, next: Phase)
    requires WorkerTidy(db, w) && OrderFollows(db, w, next) && next.Blocking?
    ensures forall i :: 0 <= i < |next.todo| ==> HasDependency(db, next.todo[i])
  {
    BlockTargetsHaveDependency(db, 0);
    forall i | 0 <= i < |next.todo| ensures HasDependency(db, next.todo[i]) {
      assert next.todo == BlockTargets(db, 0) ==> next.todo[i] in BlockTargets(db, 0);
      assert next.todo != BlockTargets(db, 0) ==> next.todo[i] == w.phase.todo[i + 1];
    }
  }

  /** The worker that acts, once its phase has moved on. */
  lemma NextIsTidy(db: Db, w: Worker, op: Op, after: Worker)
    requires DbSafe(db) && WorkerTidy(db, w) && OrderFollows(db, w, after.phase) && Succeeds(db, op)
    requires Pending(after.phase).Some? ==> Pending(after.phase) == Pending(w.phase) || op.CreateTask?
    requires after.task == w.task && after.claim == w.claim
    ensures WorkerTidy(Exec(db, op), after)
  {
    ExecExtends(db, op);
    if after.phase.Blocking? {
      NewTodoHasDependencies(db, w, after.phase);
      TodoStays(db, Exec(db, op), after.phase.todo);
    }
    if Pending(after.phase).Some? {
      if Pending(after.phase) == Pending(w.phase) {
        DependencyStays(db, op, Pending(w.phase).value);
      } else {
        CreatedIsDraft(db, op.title);
      }
    }
  }

  lemma PendingStayDistinct(db: Db, workers: seq<Worker>, worker: nat, w: Worker)
    requires worker < |workers| && PendingDistinct(workers) && AllTidy(db, workers)
    requires Pending(w.phase).Some? ==>
        Pending(w.phase) == Pending(workers[worker].phase) || Pending(w.phase) == Some(|db.tasks|)
    ensures PendingDistinct(workers[worker := w])
  {
    forall i | 0 <= i < |workers| && i != worker ensures Pending(workers[i].phase) != Some(|db.tasks|) {
      assert WorkerTidy(db, workers[i]);
    }
  }

  /** The workers after a step, but for new pipelines. */
  lemma MovedAreTidy(s: System, worker: nat, op: Op, after: Worker)
    requires DbSafe(s.db) && Tidy(s) && worker < |s.workers| && Succeeds(s.db, op)
    requires OrderFollows(s.db, s.workers[worker], after.phase)
    requires Pending(after.phase).Some? ==> Pending(after.phase) == Pending(s.workers[worker].phase) || op.CreateTask?
    requires after.task == s.workers[worker].task && after.claim == s.workers[worker].claim
    ensures Tidy(System(Exec(s.db, op), s.workers[worker := after]))
  {
    assert WorkerTidy(s.db, s.workers[worker]);
    NextIsTidy(s.db, s.workers[worker], op, after);
    PendingStayDistinct(s.db, s.workers, worker, after);
    forall i | 0 <= i < |s.workers| && i != worker ensures WorkerTidy(Exec(s.db, op), s.workers[i]) {
      WorkerStaysTidy(s.db, op, s.workers[i]);
    }
  }

  lemma {:induction false} ClaimedAreInProgress(db: Db, ids: seq<nat>)
    ensures forall t :: t in Claimed(db, ids) ==>
        t < |ClaimAll(db, ids).tasks| && ClaimAll(db, ids).tasks[t].status == InProgress
    ensures forall t :: 0 <= t < |db.tasks| && db.tasks[t].status == InProgress ==>
              t < |ClaimAll(db, ids).tasks| && ClaimAll(db, ids).tasks[t].status == InProgress
    decreases |ids|
  {
    if ids != [] {
      var next := if Claimable(db, ids[0]) then Move(db, ids[0], InProgress) else db;
      assert Claimable(db, ids[0]) ==> next.tasks[ids[0]].status == InProgress;
      assert forall t :: 0 <= t < |db.tasks| && db.tasks[t].status == InProgress ==> next.tasks[t].status == InProgress;
      ClaimedAreInProgress(next, ids[1..]);
    }
  }

  lemma HiredAreTidy(db: Db, ids: seq<nat>, firstEvent: nat)
    ensures AllTidy(ClaimAll(db, ids), Hired(Claimed(db, ids), firstEvent))
  {
    ClaimedAreInProgress(db, ids);
    var hired := Hired(Claimed(db, ids), firstEvent);
    forall i | 0 <= i < |hired| ensures WorkerTidy(ClaimAll(db, ids), hired[i]) {
      assert Claimed(db, ids)[i] in Claimed(db, ids);
    }
  }

  lemma JoinedAreTidy(db: Db, workers: seq<Worker>, more: seq<Worker>)
    requires Tidy(System(db, workers)) && AllTidy(db, more)
    requires forall i :: 0 <= i < |more| ==> Pending(more[i].phase) == None
    ensures Tidy(System(db, workers + more))
  {
  }

  lemma ActKeepsTidy(s: System, worker: nat, c: Choice)
    requires DbSafe(s.db) && Tidy(s) && worker < |s.workers|
    ensures Tidy(ActStep(s, worker, c))
  {
    var w := s.workers[worker];
    var step := StepOf(s.db, w, c);
    StepOrder(s.db, w, c);
    if !Succeeds(s.db, step.op) {
      MovedAreTidy(s, worker, NoOp, w.(phase := step.failed));
    } else {
      var after := Advanced(s.db, w, step);
      MovedAreTidy(s, worker, step.op, after);
      if step.op.Claim? {
        HiredAreTidy(s.db, step.op.ids, |s.db.events|);
        JoinedAreTidy(Exec(s.db, step.op), s.workers[worker := after],
            Hired(Claimed(s.db, step.op.ids), |s.db.events|));
      } else {
        assert s.workers[worker := after] + [] == s.workers[worker := after];
      }
    }
  }

  lemma PlanKeepsTidy(s: System, plan: seq<PlannedTask>, accepted: seq<bool>)
    requires Tidy(s)
    ensures Tidy(Next(s, PlanTasks(plan, accepted)))
  {
    var op := StorePlan(plan, accepted);
    if Succeeds(s.db, op) {
      forall i | 0 <= i < |s.workers| ensures WorkerTidy(Exec(s.db, op), s.workers[i]) {
        WorkerStaysTidy(s.db, op, s.workers[i]);
      }
    }
  }

  lemma NextKeepsTidy(s: System, a: Action)
    requires DbSafe(s.db) && Tidy(s)
    ensures Tidy(Next(s, a))
  {
    match a
    case Act(worker, c) => if worker < |s.workers| { ActKeepsTidy(s, worker, c); }
    case PlanTasks(plan, accepted) => PlanKeepsTidy(s, plan, accepted);
    case StartClaim => JoinedAreTidy(s.db, s.workers, [Worker(ListTasks, 0, 0, None)]);
    case StartFinal => JoinedAreTidy(s.db, s.workers, [Worker(BlockList, 0, 0, None)]);
    case Retry(task) =>
      if task < |s.db.tasks| {
        JoinedAreTidy(s.db, s.workers, [Worker(UserMove(true), task, 0, None)]);
      }
    case Confirm(task, approved) =>
      if task < |s.db.tasks| {
        JoinedAreTidy(s.db, s.workers, [Worker(UserMove(approved), task, 0, None)]);
      }
  }

  /** Whatever users retry, every state of a run is tidy. */
  lemma {:induction false} RunKeepsTidy(s: System, actions: seq<Action>)
    requires Safe(s) && Tidy(s)
    ensures Tidy(Run(s, actions))
    decreases |actions|
  {
    if actions != [] {
      NextKeepsSafe(s, actions[0]);
      NextKeepsTidy(s, actions[0]);
      RunKeepsTidy(Next(s, actions[0]), actions[1..]);
    }
  }

  // ---- drafts stay with their creators -----------------------------------------------------------

  /** Where a transition by a worker can go: to no draft, except to its own or to one with a dependency. */
  ghost predicate AvoidsDrafts(db: Db, w: Worker, op: Op) {
    op.Transition? && Succeeds(db, op) && IsDraft(db, op.task) ==>
      Pending(w.phase) == Some(op.task) || HasDependency(db, op.task) || (w.phase.UserMove? && w.task == op.task)
  }

  lemma PipelineAvoidsDrafts(db: Db, w: Worker, c: Choice)
    requires WorkerTidy(db, w) && (InExecutor(w.phase) || InTester(w.phase) || InReviewer(w.phase))
    ensures AvoidsDrafts(db, w, StepOf(db, w, c).op)
  {
  }

  lemma OthersAvoidDrafts(db: Db, w: Worker, c: Choice)
    requires WorkerTidy(db, w) && !InExecutor(w.phase) && !InTester(w.phase) && !InReviewer(w.phase)
    ensures AvoidsDrafts(db, w, StepOf(db, w, c).op)
  {
    if w.phase.Blocking? && w.phase.todo != [] {
      assert HasDependency(db, w.phase.todo[0]);
    }
  }

  lemma TransitionsAvoidDrafts(db: Db, w: Worker, c: Choice)
    requires WorkerTidy(db, w)
    ensures AvoidsDrafts(db, w, StepOf(db, w, c).op)
  {
    if InExecutor(w.phase) || InTester(w.phase) || InReviewer(w.phase) {
      PipelineAvoidsDrafts(db, w, c);
    } else {
      OthersAvoidDrafts(db, w, c);
    }
  }

  lemma StepLeavesOthersAlone(s: System, worker: nat, c: Choice, i: nat)
    requires Tidy(s) && UsersApart(s.workers) && worker < |s.workers| && i < |s.workers| && i != worker
    requires Succeeds(s.db, StepOf(s.db, s.workers[worker], c).op)
    requires Pending(s.workers[i].phase).Some? && IsDraft(s.db, Pending(s.workers[i].phase).value)
    ensures var op := StepOf(s.db, s.workers[worker], c).op;
      !(op.Transition? && op.task == Pending(s.workers[i].phase).value)
  {
    assert WorkerTidy(s.db, s.workers[worker]) && WorkerTidy(s.db, s.workers[i]);
    TransitionsAvoidDrafts(s.db, s.workers[worker], c);
  }

  lemma UsersStayApart(db: Db, workers: seq<Worker>, worker: nat, w: Worker)
    requires worker < |workers| && UsersApart(workers) && AllTidy(db, workers)
    requires w.phase.UserMove? ==> workers[worker].phase.UserMove? && w.task == workers[worker].task
    requires Pending(w.phase).Some? ==>
        Pending(w.phase) == Pending(workers[worker].phase) || Pending(w.phase) == Some(|db.tasks|)
    ensures UsersApart(workers[worker := w])
  {
    forall i | 0 <= i < |workers| && workers[i].phase.UserMove? ensures workers[i].task != |db.tasks| {
      assert WorkerTidy(db, workers[i]);
    }
  }

  /** After a step that succeeded, a worker's pending task is a draft if it was before. */
  lemma NextPendingIsDraft(db: Db, w: Worker, step: Step)
    requires DbSafe(db) && OrderlyStep(db, w, step) && Succeeds(db, step.op)
    requires Pending(w.phase).Some? ==> IsDraft(db, Pending(w.phase).value)
    ensures Pending(step.next).Some? ==> IsDraft(Exec(db, step.op), Pending(step.next).value)
  {
    if Pending(step.next).Some? {
      if step.op.CreateTask? {
        CreatedIsDraft(db, step.op.title);
      } else {
        DraftStays(db, step.op, Pending(step.next).value);
      }
    }
  }

  lemma MovedHoldDrafts(s: System, worker: nat, c: Choice)
    requires DbSafe(s.db) && Tidy(s) && DraftsHeld(s) && worker < |s.workers|
    requires Succeeds(s.db, StepOf(s.db, s.workers[worker], c).op)
    ensures var step := StepOf(s.db, s.workers[worker], c);
      DraftsHeld(System(Exec(s.db, step.op), s.workers[worker := Advanced(s.db, s.workers[worker], step)]))
  {
    var w := s.workers[worker];
    var step := StepOf(s.db, w, c);
    StepOrder(s.db, w, c);
    NextPendingIsDraft(s.db, w, step);
    UsersStayApart(s.db, s.workers, worker, Advanced(s.db, w, step));
    forall i | 0 <= i < |s.workers| && i != worker && Pending(s.workers[i].phase).Some?
      ensures IsDraft(Exec(s.db, step.op), Pending(s.workers[i].phase).value)
    {
      StepLeavesOthersAlone(s, worker, c, i);
      DraftStays(s.db, step.op, Pending(s.workers[i].phase).value);
    }
  }

  lemma JoinedHoldDrafts(db: Db, workers: seq<Worker>, more: seq<Worker>)
    requires DraftsHeld(System(db, workers))
    requires forall i :: 0 <= i < |more| ==> Pending(more[i].phase) == None
    requires forall i, j :: 0 <= i < |workers| && 0 <= j < |more| && more[j].phase.UserMove? ==>
               Pending(workers[i].phase) != Some(more[j].task)
    ensures DraftsHeld(System(db, workers + more))
  {
  }

  lemma ActHoldsDrafts(s: System, worker: nat, c: Choice)
    requires DbSafe(s.db) && Tidy(s) && DraftsHeld(s) && worker < |s.workers|
    ensures DraftsHeld(ActStep(s, worker, c))
  {
    var w := s.workers[worker];
    var step := StepOf(s.db, w, c);
    if !Succeeds(s.db, step.op) {
      StepOrder(s.db, w, c);
      UsersStayApart(s.db, s.workers, worker, w.(phase := step.failed));
    } else {
      var moved := s.workers[worker := Advanced(s.db, w, step)];
      MovedHoldDrafts(s, worker, c);
      if step.op.Claim? {
        JoinedHoldDrafts(Exec(s.db, step.op), moved, Hired(Claimed(s.db, step.op.ids), |s.db.events|));
      } else {
        assert moved + [] == moved;
      }
    }
  }

  /** The one thing a user must not do: retry a task that a worker is still creating. */
  ghost predicate RetriesNoPending(s: System, a: Action) {
    a.Retry? ==> forall i :: 0 <= i < |s.workers| ==> Pending(s.workers[i].phase) != Some(a.task)
  }

  lemma PlanHoldsDrafts(s: System, plan: seq<PlannedTask>, accepted: seq<bool>)
    requires Tidy(s) && DraftsHeld(s)
    ensures DraftsHeld(Next(s, PlanTasks(plan, accepted)))
  {
    var op := StorePlan(plan, accepted);
    if Succeeds(s.db, op) {
      forall i | 0 <= i < |s.workers| && Pending(s.workers[i].phase).Some?
        ensures IsDraft(Exec(s.db, op), Pending(s.workers[i].phase).value)
      {
        DraftStays(s.db, op, Pending(s.workers[i].phase).value);
      }
    }
  }

  lemma NextHoldsDrafts(s: System, a: Action)
    requires DbSafe(s.db) && Tidy(s) && DraftsHeld(s) && RetriesNoPending(s, a)
    ensures DraftsHeld(Next(s, a))
  {
    match a
    case Act(worker, c) => if worker < |s.workers| { ActHoldsDrafts(s, worker, c); }
    case PlanTasks(plan, accepted) => PlanHoldsDrafts(s, plan, accepted);
    case StartClaim => JoinedHoldDrafts(s.db, s.workers, [Worker(ListTasks, 0, 0, None)]);
    case StartFinal => JoinedHoldDrafts(s.db, s.workers, [Worker(BlockList, 0, 0, None)]);
    case Retry(task) => JoinedHoldDrafts(s.db, s.workers, [Worker(UserMove(true), task, 0, None)]);
    case Confirm(task, approved) => ConfirmHoldsDrafts(s, task, approved);
  }

  /** Only tasks past DRAFT are confirmed. */
  lemma ConfirmHoldsDrafts(s: System, task: nat, approved: bool)
    requires DraftsHeld(s)
    ensures DraftsHeld(Next(s, Confirm(task, approved)))
  {
    if task < |s.db.tasks| && s.db.tasks[task].status == NeedUserInput {
      JoinedHoldDrafts(s.db, s.workers, [Worker(UserMove(approved), task, 0, None)]);
    }
  }

  ghost predicate RunRetriesNoPending(s: System, actions: seq<Action>)
    decreases |actions|
  {
    actions == [] || (RetriesNoPending(s, actions[0]) && RunRetriesNoPending(Next(s, actions[0]), actions[1..]))
  }
}
