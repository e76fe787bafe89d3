/** What holds in every state of every run: dependency order, justified completion, a faithful log. */
module RunSafety {
  import opened Options
  import opened Digraph
  import opened Text
  import opened TaskStatuses
  import opened DependencyNormalizer
  import opened Database
  import opened EventLog
  import opened PlanStorage
  import opened Lifecycle

  // ---- the invariants -----------------------------------------------------------------

  /** A task that has started has all its dependencies done. */
  ghost predicate DependencySafe(db: Db) {
    forall a: nat, b: nat :: (a, b) in db.deps ==>
      a < |db.tasks| && b < |db.tasks| && (Started(db.tasks[a].status) ==> db.tasks[b].status == Done)
  }

  /** The attempt was approved by a reviewer that had a passed test and finish evidence before it. */
  ghost predicate Approved(db: Db, attempt: nat) {
    && attempt < |db.attempts|
    && HasPassedTest(db, attempt) && HasFinishEvidence(db, attempt)
    && exists i :: 0 <= i < |db.reviews| && db.reviews[i] == ReviewResult(attempt, true)
  }

  /** A passed test of the attempt, and a finish of it that says something. */
  ghost predicate Evident(db: Db, attempt: nat) {
    && TestResult(attempt, true) in db.tests
    && exists i :: 0 <= i < |db.observations| && db.observations[i].attempt == attempt
                   && db.observations[i].kind == "agent.finish" && Trim(db.observations[i].summary) != ""
  }

  lemma EvidentIs(db: Db, attempt: nat)
    ensures HasPassedTest(db, attempt) && HasFinishEvidence(db, attempt) <==> Evident(db, attempt)
  {
    if HasPassedTest(db, attempt) {
      var i :| 0 <= i < |db.tests| && db.tests[i].attempt == attempt && db.tests[i].passed;
      assert db.tests[i] == TestResult(attempt, true);
    }
    if Evident(db, attempt) {
      var i :| 0 <= i < |db.observations| && db.observations[i].attempt == attempt
               && db.observations[i].kind == "agent.finish" && Trim(db.observations[i].summary) != "";
      assert IsFinishEvidence(db.observations[i], attempt);
    }
  }

  /** Approved means a review that says so, with that evidence. */
  lemma ApprovedIs(db: Db, attempt: nat)
    ensures Approved(db, attempt) <==>
            attempt < |db.attempts| && ReviewResult(attempt, true) in db.reviews && Evident(db, attempt)
  {
    EvidentIs(db, attempt);
  }

  /** Each task of the path is linked, as a repair, to the next. */
  ghost predicate IsLinkPath(events: seq<Event>, path: seq<nat>) {
    path != [] && forall i :: 0 <= i < |path| - 1 ==> LinkOf(events, path[i]) == Some(path[i + 1])
  }

  /** The path leads from the task of an approved attempt to `task`, or to what `task` is a repair of too. */
  ghost predicate JustifiedBy(db: Db, task: nat, path: seq<nat>, attempt: nat) {
    && IsLinkPath(db.events, path)
    && Approved(db, attempt) && db.attempts[attempt].task == path[0]
    && (EndOf(path) == task || (|path| > 1 && LinkOf(db.events, task) == Some(EndOf(path))))
  }

  ghost predicate Justified(db: Db, task: nat) {
    exists path, attempt :: JustifiedBy(db, task, path, attempt)
  }

  ghost predicate DoneIsJustified(db: Db) {
    forall t: nat :: t < |db.tasks| && db.tasks[t].status == Done ==> Justified(db, t)
  }

  // ---- what only grows ------------------------------------------------------------------

  /** Every fact a worker may rely on while others run. */
  ghost predicate Extends(db: Db, later: Db) {
    && TasksExtend(db.tasks, later.tasks)
    && db.deps <= later.deps
    && (forall e :: e in later.deps ==> e in db.deps || e.0 >= |db.tasks|)
    && |db.attempts| <= |later.attempts|
    && (forall a :: 0 <= a < |db.attempts| ==> later.attempts[a].task == db.attempts[a].task)
    && db.observations <= later.observations
    && db.tests <= later.tests
    && db.reviews <= later.reviews
    && db.events <= later.events
  }

  ghost predicate TasksExtend(tasks: seq<Task>, later: seq<Task>) {
    && |tasks| <= |later|
    && forall t :: 0 <= t < |tasks| ==>
         && later[t].title == tasks[t].title
         && (Finished(tasks[t].status) ==> later[t].status == tasks[t].status)
         && (later[t].status == Draft ==> tasks[t].status == Draft)
  }

  lemma MoveExtends(db: Db, task: nat, to: TaskStatus)
    requires task < |db.tasks| && CanTransition(db.tasks[task].status, to)
    ensures Extends(db, Move(db, task, to))
  {
    StartedOnlyByClaim(db.tasks[task].status, to);
  }

  lemma ExtendsTransitive(a: Db, b: Db, c: Db)
    requires Extends(a, b) && Extends(b, c)
    ensures Extends(a, c)
  {
  }

  lemma {:induction false} ClaimExtends(db: Db, ids: seq<nat>)
    ensures Extends(db, ClaimAll(db, ids))
    ensures |ClaimAll(db, ids).tasks| == |db.tasks|
    decreases |ids|
  {
    if ids != [] {
      var next := if Claimable(db, ids[0]) then Move(db, ids[0], InProgress) else db;
      if Claimable(db, ids[0]) {
        MoveExtends(db, ids[0], InProgress);
      }
      ClaimExtends(next, ids[1..]);
      ExtendsTransitive(db, next, ClaimAll(next, ids[1..]));
    }
  }

  lemma StoreExtends(db: Db, plan: seq<PlannedTask>, accepted: seq<bool>)
    requires CleanTitles(plan) && |accepted| == |plan|
    ensures Extends(db, StoreNormalized(db, plan, accepted))
  {
    NormalizedIsLinkable(plan);
    IdEdgesInRange(|db.tasks|, Normalize(plan));
    var later := StoreNormalized(db, plan, accepted);
    forall e | e in later.deps ensures e in db.deps || e.0 >= |db.tasks| {
      assert e == (e.0, e.1);
    }
  }

  lemma ExecExtends(db: Db, op: Op)
    requires Succeeds(db, op)
    ensures Extends(db, Exec(db, op))
  {
    match op
    case Transition(task, to) => MoveExtends(db, task, to);
    case Claim(ids) => ClaimExtends(db, ids);
    case StorePlan(plan, accepted) => StoreExtends(db, plan, accepted);
    case _ =>
  }

  lemma {:induction false} LinkStays(events: seq<Event>, later: seq<Event>, task: nat)
    requires events <= later && LinkOf(events, task).Some?
    ensures LinkOf(later, task) == LinkOf(events, task)
    decreases |events|
  {
    if !(events[0].RepairLinked? && events[0].task == task) {
      LinkStays(events[1..], later[1..], task);
    }
  }

  lemma PathStays(events: seq<Event>, later: seq<Event>, path: seq<nat>)
    requires events <= later && IsLinkPath(events, path)
    ensures IsLinkPath(later, path)
  {
    forall i | 0 <= i < |path| - 1 ensures LinkOf(later, path[i]) == Some(path[i + 1]) {
      assert LinkOf(events, path[i]) == Some(path[i + 1]);
      LinkStays(events, later, path[i]);
    }
  }

  lemma EvidenceStays(db: Db, later: Db, attempt: nat)
    requires Extends(db, later)
    ensures HasPassedTest(db, attempt) ==> HasPassedTest(later, attempt)
    ensures HasFinishEvidence(db, attempt) ==> HasFinishEvidence(later, attempt)
  {
    if HasPassedTest(db, attempt) {
      var i :| 0 <= i < |db.tests| && db.tests[i].attempt == attempt && db.tests[i].passed;
      assert later.tests[i] == db.tests[i];
    }
    if HasFinishEvidence(db, attempt) {
      var i :| 0 <= i < |db.observations| && IsFinishEvidence(db.observations[i], attempt);
      assert later.observations[i] == db.observations[i];
    }
  }

  lemma ApprovalStays(db: Db, later: Db, attempt: nat)
    requires Extends(db, later) && Approved(db, attempt)
    ensures Approved(later, attempt)
  {
    EvidenceStays(db, later, attempt);
    var i :| 0 <= i < |db.reviews| && db.reviews[i] == ReviewResult(attempt, true);
    assert later.reviews[i] == db.reviews[i];
  }

  lemma JustificationStays(db: Db, later: Db, task: nat)
    requires Extends(db, later) && Justified(db, task)
    ensures Justified(later, task)
  {
    var path, attempt :| JustifiedBy(db, task, path, attempt);
    PathStays(db.events, later.events, path);
    ApprovalStays(db, later, attempt);
    if EndOf(path) != task {
      LinkStays(db.events, later.events, task);
    }
    assert JustifiedBy(later, task, path, attempt);
  }

  // ---- what each worker knows where it stands ----------------------------------------------

  /** The facts about the store that the rest of a worker's code relies on. */
  datatype Need =
    | Nothing
    | SomeTask
    | OwnAttempt
    | Approval
    | LinkPath(path: seq<nat>, long: bool)
    | DoneAsListed(listing: seq<Task>)
    | ReadyIds(ids: seq<nat>)
    | FinishedTasks(count: nat)

  function Needs(p: Phase): Need {
    if p.StartAttempt? then SomeTask
    else if p.ApproveTx? || p.ApproveAttempt? then Approval
    else if InExecutor(p) || InTester(p) || InReviewer(p) || InRepair(p) then OwnAttempt
    else if InWalk(p) then LinkPath(p.path, !p.Walk?)
    else if p.ListDeps? then DoneAsListed(p.snapshot)
    else if p.ClaimTx? then ReadyIds(p.ids)
    else if p.FinalReview? || p.Complete? then FinishedTasks(p.count)
    else Nothing
  }

  ghost predicate OwnsAttempt(db: Db, w: Worker) {
    w.task < |db.tasks| && w.attempt < |db.attempts| && db.attempts[w.attempt].task == w.task
  }

  ghost predicate DoneSince(db: Db, listing: seq<Task>) {
    |listing| <= |db.tasks| && forall t :: 0 <= t < |listing| && listing[t].status == Done ==>
        db.tasks[t].status == Done
  }

  ghost predicate FinishedUpTo(db: Db, count: nat) {
    count <= |db.tasks| && forall t :: 0 <= t < count ==> Finished(db.tasks[t].status)
  }

  ghost predicate ReadyToClaim(db: Db, ids: seq<nat>) {
    forall i :: 0 <= i < |ids| ==> ids[i] < |db.tasks| && DependenciesDone(db.tasks, db.deps, ids[i])
  }

  ghost predicate Known(db: Db, w: Worker, need: Need) {
    match need
    case Nothing => true
    case SomeTask => w.task < |db.tasks|
    case OwnAttempt => OwnsAttempt(db, w)
    case Approval => OwnsAttempt(db, w) && Approved(db, w.attempt)
    case LinkPath(path, long) =>
      OwnsAttempt(db, w) && Approved(db, w.attempt) && IsLinkPath(db.events, path) && path[0] == w.task
          && (long ==> |path| > 1)
    case DoneAsListed(listing) => DoneSince(db, listing)
    case ReadyIds(ids) => ReadyToClaim(db, ids)
    case FinishedTasks(count) => FinishedUpTo(db, count)
  }

  ghost predicate PhaseKnows(db: Db, w: Worker) {
    Known(db, w, Needs(w.phase))
  }

  lemma DependenciesStayDone(db: Db, later: Db, task: nat)
    requires Extends(db, later) && task < |db.tasks| && DependenciesDone(db.tasks, db.deps, task)
    ensures DependenciesDone(later.tasks, later.deps, task)
  {
    forall d | d in later.deps && d.0 == task ensures d.1 < |later.tasks| && later.tasks[d.1].status == Done {
      assert d in db.deps;
    }
  }

  /** Whatever others do, a worker still knows what it knew. */
  lemma KnowledgeStays(db: Db, later: Db, w: Worker, need: Need)
    requires Extends(db, later) && Known(db, w, need)
    ensures Known(later, w, need)
  {
    match need
    case ReadyIds(ids) =>
      forall i | 0 <= i < |ids| ensures DependenciesDone(later.tasks, later.deps, ids[i]) {
        DependenciesStayDone(db, later, ids[i]);
      }
    case Approval => ApprovalStays(db, later, w.attempt);
    case LinkPath(path, _) =>
      ApprovalStays(db, later, w.attempt);
      PathStays(db.events, later.events, path);
    case _ =>
  }

  // ---- dependency safety ------------------------------------------------------------------

  /** The only ways a transaction can start a task: a claim of tasks whose dependencies are done. */
  ghost predicate StartsOnlyReady(db: Db, op: Op) {
    && (op.Transition? ==> op.to != InProgress)
    && (op.Claim? ==> ReadyToClaim(db, op.ids))
  }

  lemma MoveKeepsDependencySafe(db: Db, task: nat, to: TaskStatus)
    requires DependencySafe(db) && task < |db.tasks| && CanTransition(db.tasks[task].status, to)
    requires to == InProgress ==> DependenciesDone(db.tasks, db.deps, task)
    ensures DependencySafe(Move(db, task, to))
  {
    StartedOnlyByClaim(db.tasks[task].status, to);
    var later := Move(db, task, to);
    forall a: nat, b: nat | (a, b) in later.deps
      ensures a < |later.tasks| && b < |later.tasks|
          && (Started(later.tasks[a].status) ==> later.tasks[b].status == Done)
    {
      assert (a, b) in db.deps;
      if a == task && to == InProgress {
        assert (a, b).0 == task;
      }
    }
  }

  lemma {:induction false} ClaimKeepsDependencySafe(db: Db, ids: seq<nat>)
    requires DependencySafe(db) && ReadyToClaim(db, ids)
    ensures DependencySafe(ClaimAll(db, ids))
    decreases |ids|
  {
    if ids != [] {
      var next := if Claimable(db, ids[0]) then Move(db, ids[0], InProgress) else db;
      if Claimable(db, ids[0]) {
        MoveKeepsDependencySafe(db, ids[0], InProgress);
        MoveExtends(db, ids[0], InProgress);
      }
      forall i | 0 <= i < |ids[1..]|
        ensures ids[1..][i] < |next.tasks| && DependenciesDone(next.tasks, next.deps, ids[1..][i])
      {
        assert ids[1..][i] == ids[i + 1];
        DependenciesStayDone(db, next, ids[i + 1]);
      }
      ClaimKeepsDependencySafe(next, ids[1..]);
    }
  }

  /** A task is stored READY or BLOCKED. */
  lemma StoredTasksHaveNotStarted(plan: seq<PlannedTask>, accepted: seq<bool>)
    requires |accepted| == |plan|
    ensures forall i :: 0 <= i < |plan| ==> !Started(StoredTasks(plan, accepted)[i].status)
  {
  }

  lemma StoreKeepsDependencySafe(db: Db, plan: seq<PlannedTask>, accepted: seq<bool>)
    requires DependencySafe(db) && CleanTitles(plan) && |accepted| == |plan|
    ensures DependencySafe(StoreNormalized(db, plan, accepted))
  {
    var out := Normalize(plan);
    NormalizedIsLinkable(plan);
    IdEdgesInRange(|db.tasks|, out);
    NewTasksKeepDependencySafe(db, out, accepted, IdEdges(|db.tasks|, out));
  }

  lemma NewTasksKeepDependencySafe(db: Db, plan: seq<PlannedTask>, accepted: seq<bool>, edges: set<(nat, nat)>)
    requires DependencySafe(db) && |accepted| == |plan|
    requires forall a: nat, b: nat :: (a, b) in edges ==>
               |db.tasks| <= a < |db.tasks| + |plan| && |db.tasks| <= b < |db.tasks| + |plan|
    ensures DependencySafe(db.(
              tasks := db.tasks + StoredTasks(plan, accepted), deps := db.deps + edges,
              events := db.events + StoredEvents(|db.tasks|, accepted)))
  {
    StoredTasksHaveNotStarted(plan, accepted);
  }

  lemma ExecKeepsDependencySafe(db: Db, op: Op)
    requires DependencySafe(db) && Succeeds(db, op) && StartsOnlyReady(db, op)
    ensures DependencySafe(Exec(db, op))
  {
    match op
    case Transition(task, to) => MoveKeepsDependencySafe(db, task, to);
    case Claim(ids) => ClaimKeepsDependencySafe(db, ids);
    case StorePlan(plan, accepted) => StoreKeepsDependencySafe(db, plan, accepted);
    case _ =>
  }

  // ---- justified completion -----------------------------------------------------------------

  ghost predicate CompletesOnlyJustified(db: Db, op: Op) {
    op.Transition? && op.to == Done ==> Justified(db, op.task)
  }

  lemma {:induction false} ClaimCompletesNothing(db: Db, ids: seq<nat>)
    ensures |ClaimAll(db, ids).tasks| == |db.tasks|
    ensures forall t :: 0 <= t < |db.tasks| && ClaimAll(db, ids).tasks[t].status == Done ==> db.tasks[t].status == Done
    decreases |ids|
  {
    if ids != [] {
      ClaimCompletesNothing(if Claimable(db, ids[0]) then Move(db, ids[0], InProgress) else db, ids[1..]);
    }
  }

  lemma StoreCompletesNothing(plan: seq<PlannedTask>, accepted: seq<bool>)
    requires |accepted| == |plan|
    ensures forall i :: 0 <= i < |plan| ==> StoredTasks(plan, accepted)[i].status != Done
  {
  }

  /** A transaction makes no task DONE but the one it moves there. */
  lemma OnlyTransitionCompletes(db: Db, op: Op, t: nat)
    requires Succeeds(db, op) && t < |Exec(db, op).tasks| && Exec(db, op).tasks[t].status == Done
    requires !(op.Transition? && op.to == Done && op.task == t)
    ensures t < |db.tasks| && db.tasks[t].status == Done
  {
    match op
    case Claim(ids) => ClaimCompletesNothing(db, ids);
    case StorePlan(plan, accepted) => StoreCompletesNothing(plan, accepted);
    case _ =>
  }

  lemma ExecKeepsDoneJustified(db: Db, op: Op)
    requires DoneIsJustified(db) && Succeeds(db, op) && CompletesOnlyJustified(db, op)
    ensures DoneIsJustified(Exec(db, op))
  {
    var later := Exec(db, op);
    ExecExtends(db, op);
    forall t: nat | t < |later.tasks| && later.tasks[t].status == Done ensures Justified(later, t) {
      if !(op.Transition? && op.to == Done && op.task == t) {
        OnlyTransitionCompletes(db, op, t);
      }
      JustificationStays(db, later, t);
    }
  }

  // ---- the dependency graph stays acyclic -----------------------------------------------------

  /** A walk that starts below `base` stays among edges that start below it. */
  lemma {:induction false} WalkStaysLow(low: set<(nat, nat)>, high: set<(nat, nat)>, base: nat, u: nat, v: nat, n: nat)
    requires forall e :: e in low ==> e.0 < base && e.1 < base
    requires forall e :: e in high ==> e.0 >= base && e.1 >= base
    requires ReachesIn<nat>(low + high, u, v, n)
    ensures u < base ==> Reaches<nat>(low, u, v)
    ensures u >= base ==> Reaches<nat>(high, u, v)
    decreases n
  {
    if n == 0 {
      ReachesSelf<nat>(low, u);
      ReachesSelf<nat>(high, u);
    } else {
      var w: nat :| (u, w) in low + high && ReachesIn<nat>(low + high, w, v, n - 1);
      WalkStaysLow(low, high, base, w, v, n - 1);
      if (u, w) in low {
        assert (u, w).0 < base && (u, w).1 < base;
        ReachesByEdge<nat>(low, u, w, v);
      } else {
        assert (u, w).0 >= base && (u, w).1 >= base;
        ReachesByEdge<nat>(high, u, w, v);
      }
    }
  }

  lemma DisjointUnionIsAcyclic(low: set<(nat, nat)>, high: set<(nat, nat)>, base: nat)
    requires forall e :: e in low ==> e.0 < base && e.1 < base
    requires forall e :: e in high ==> e.0 >= base && e.1 >= base
    requires Acyclic<nat>(low) && Acyclic<nat>(high)
    ensures Acyclic<nat>(low + high)
  {
    forall u: nat, v: nat | (u, v) in low + high ensures !Reaches<nat>(low + high, v, u) {
      var e: (nat, nat) := (u, v);
      assert if e in low then v < base else v >= base by {
        assert e in low ==> e.1 < base;
        assert e in high ==> e.1 >= base;
      }
      if Reaches<nat>(low + high, v, u) {
        var n: nat :| ReachesIn<nat>(low + high, v, u, n);
        WalkStaysLow(low, high, base, v, u, n);
      }
    }
  }

  lemma {:induction false} ClaimKeepsDeps(db: Db, ids: seq<nat>)
    ensures ClaimAll(db, ids).deps == db.deps
    decreases |ids|
  {
    if ids != [] {
      ClaimKeepsDeps(if Claimable(db, ids[0]) then Move(db, ids[0], InProgress) else db, ids[1..]);
    }
  }

  lemma ExecKeepsAcyclic(db: Db, op: Op)
    requires DependencySafe(db) && Acyclic<nat>(db.deps) && Succeeds(db, op)
    ensures Acyclic<nat>(Exec(db, op).deps)
  {
    match op
    case Claim(ids) => ClaimKeepsDeps(db, ids);
    case StorePlan(plan, accepted) =>
      NormalizedIsLinkable(plan);
      IdEdgesInRange(|db.tasks|, Normalize(plan));
      StoredPlanIsAcyclic(|db.tasks|, plan);
      forall e | e in db.deps ensures e.0 < |db.tasks| && e.1 < |db.tasks| {
        assert e == (e.0, e.1);
      }
      forall e | e in IdEdges(|db.tasks|, Normalize(plan)) ensures e.0 >= |db.tasks| && e.1 >= |db.tasks| {
        assert e == (e.0, e.1);
      }
      DisjointUnionIsAcyclic(db.deps, IdEdges(|db.tasks|, Normalize(plan)), |db.tasks|);
    case _ =>
  }

  // ---- every step keeps every invariant -----------------------------------------------------------

  ghost predicate DbSafe(db: Db) {
    LogConsistent(db) && DependencySafe(db) && DoneIsJustified(db) && Acyclic<nat>(db.deps)
  }

  ghost predicate Safe(s: System) {
    DbSafe(s.db) && AllKnow(s.db, s.workers)
  }

  lemma ExecKeepsDbSafe(db: Db, op: Op)
    requires DbSafe(db) && Succeeds(db, op) && StartsOnlyReady(db, op) && CompletesOnlyJustified(db, op)
    ensures DbSafe(Exec(db, op))
  {
    ExecKeepsLog(db, op);
    ExecKeepsDependencySafe(db, op);
    ExecKeepsDoneJustified(db, op);
    ExecKeepsAcyclic(db, op);
  }

  /** A worker only ever moves a task to DONE where it knows why, and never starts one but by a claim. */
  ghost predicate OpFits(db: Db, w: Worker, op: Op) {
    && !op.StorePlan?
    && (op.Claim? ==> w.phase == ClaimTx(op.ids))
    && (op.Transition? ==> op.to != InProgress)
    && (op.Transition? && op.to == Done ==>
          || (w.phase.ApproveTx? && op.task == w.task)
          || (w.phase.WalkMark? && op.task == EndOf(w.phase.path))
          || (w.phase.WalkSupersede? && LinkOf(db.events, op.task) == Some(EndOf(w.phase.path))))
    && (op.CreateAttempt? ==> w.phase.StartAttempt? && op.task == w.task)
  }

  lemma PipelineOps(db: Db, w: Worker, c: Choice)
    ensures InExecutor(w.phase) ==> OpFits(db, w, ExecutorStep(w, c).op)
    ensures InTester(w.phase) ==> OpFits(db, w, TesterStep(w, c).op)
    ensures InReviewer(w.phase) ==> OpFits(db, w, ReviewerStep(db, w, c).op)
  {
  }

  lemma RepairOps(db: Db, w: Worker, c: Choice)
    ensures InRepair(w.phase) ==> OpFits(db, w, RepairStep(db, w, c).op)
    ensures InQueueing(w.phase) ==> OpFits(db, w, QueueingStep(db, w).op)
  {
  }

  lemma WalkOps(db: Db, w: Worker)
    ensures InWalk(w.phase) ==> OpFits(db, w, WalkingStep(db, w).op)
  {
  }

  lemma OtherOps(db: Db, w: Worker, c: Choice)
    ensures InScheduler(w.phase) ==> OpFits(db, w, SchedulerStep(db, w, c).op)
    ensures InFinal(w.phase) ==> OpFits(db, w, FinalStep(db, w, c).op)
  {
  }

  lemma StepOps(db: Db, w: Worker, c: Choice)
    ensures OpFits(db, w, StepOf(db, w, c).op)
  {
    if InExecutor(w.phase) || InTester(w.phase) || InReviewer(w.phase) {
      PipelineOps(db, w, c);
    } else if InRepair(w.phase) || InQueueing(w.phase) {
      RepairOps(db, w, c);
    } else if InWalk(w.phase) {
      WalkOps(db, w);
    } else {
      OtherOps(db, w, c);
    }
  }

  /** What a worker knows justifies what it is about to do. */
  lemma StepIsSafe(db: Db, w: Worker, c: Choice)
    requires PhaseKnows(db, w)
    ensures StartsOnlyReady(db, StepOf(db, w, c).op)
    ensures CompletesOnlyJustified(db, StepOf(db, w, c).op)
  {
    var op := StepOf(db, w, c).op;
    StepOps(db, w, c);
    if op.Transition? && op.to == Done {
      if w.phase.ApproveTx? {
        assert JustifiedBy(db, w.task, [w.task], w.attempt);
      } else {
        assert JustifiedBy(db, op.task, w.phase.path, w.attempt);
      }
    }
  }

  /** What the next phase needs is known already, or is one of six things the step itself establishes. */
  ghost predicate NeedFollows(db: Db, w: Worker, op: Op, next: Phase) {
    var had, need := Needs(w.phase), Needs(next);
    || need == Nothing || need == had
    || (need == OwnAttempt && (had == Approval || op == CreateAttempt(w.task)))
    || (w.phase.ReviewGate? && next.ApproveTx? && HasPassedTest(db, w.attempt) && HasFinishEvidence(db, w.attempt)
        && op == RecordReview(w.attempt, true))
    || (w.phase.ApproveAttempt? && next == Walk([w.task]))
    || (had.LinkPath? && need.LinkPath? && need.path == had.path && (had.long || !need.long))
    || (w.phase.Walk? && need.LinkPath? && w.phase.path != [] && LinkOf(db.events, EndOf(w.phase.path)).Some?
        && need.path == w.phase.path + [LinkOf(db.events, EndOf(w.phase.path)).value])
    || (w.phase.ListTasks? && next == ListDeps(db.tasks))
    || (w.phase.ListDeps? && exists limit :: next == ClaimTx(Candidates(w.phase.snapshot, db.deps, limit, 0)))
    || (w.phase.CountTasks? && next == FinalReview(|db.tasks|) && AllFinished(db.tasks))
  }

  ghost predicate NextFollows(db: Db, w: Worker, step: Step) {
    && NeedFollows(db, w, step.op, step.next)
    && (Needs(step.failed) == Nothing || (Needs(step.failed) == OwnAttempt && Needs(w.phase) in {OwnAttempt, Approval}))
  }

  lemma PipelineNeeds(db: Db, w: Worker, c: Choice)
    ensures InExecutor(w.phase) ==> NextFollows(db, w, ExecutorStep(w, c))
    ensures InTester(w.phase) ==> NextFollows(db, w, TesterStep(w, c))
  {
  }

  lemma ReviewNeeds(db: Db, w: Worker, c: Choice)
    requires InReviewer(w.phase)
    ensures NextFollows(db, w, ReviewerStep(db, w, c))
  {
  }

  lemma RepairNeeds(db: Db, w: Worker, c: Choice)
    requires InRepair(w.phase)
    ensures NextFollows(db, w, RepairStep(db, w, c))
  {
  }

  lemma QueueingNeeds(db: Db, w: Worker)
    requires InQueueing(w.phase)
    ensures NextFollows(db, w, QueueingStep(db, w))
  {
  }

  lemma WalkNeeds(db: Db, w: Worker)
    requires InWalk(w.phase)
    ensures NextFollows(db, w, WalkingStep(db, w))
  {
  }

  lemma SchedulerNeeds(db: Db, w: Worker, c: Choice)
    requires InScheduler(w.phase)
    ensures NextFollows(db, w, SchedulerStep(db, w, c))
  {
  }

  lemma FinalNeeds(db: Db, w: Worker, c: Choice)
    requires InFinal(w.phase)
    ensures NextFollows(db, w, FinalStep(db, w, c))
  {
  }

  lemma StepNeeds(db: Db, w: Worker, c: Choice)
    ensures NextFollows(db, w, StepOf(db, w, c))
  {
    if InExecutor(w.phase) || InTester(w.phase) {
      PipelineNeeds(db, w, c);
    } else if InReviewer(w.phase) {
      ReviewNeeds(db, w, c);
    } else if InRepair(w.phase) {
      RepairNeeds(db, w, c);
    } else if InQueueing(w.phase) {
      QueueingNeeds(db, w);
    } else if InWalk(w.phase) {
      WalkNeeds(db, w);
    } else if InScheduler(w.phase) {
      SchedulerNeeds(db, w, c);
    } else if InFinal(w.phase) {
      FinalNeeds(db, w, c);
    }
  }

  lemma {:induction false} CandidatesAreReady(listing: seq<Task>, deps: set<(nat, nat)>, limit: nat, from: nat)
    requires from <= |listing|
    ensures forall id :: id in Candidates(listing, deps, limit, from) ==>
              from <= id < |listing| && listing[id].status == Ready && DependenciesDone(listing, deps, id)
    ensures |Candidates(listing, deps, limit, from)| <= limit
    decreases |listing| - from
  {
    if from < |listing| && limit > 0 {
      if listing[from].status == Ready && DependenciesDone(listing, deps, from) {
        CandidatesAreReady(listing, deps, limit - 1, from + 1);
      } else {
        CandidatesAreReady(listing, deps, limit, from + 1);
      }
    }
  }

  lemma CandidatesCanBeClaimed(db: Db, listing: seq<Task>, limit: nat)
    requires DoneSince(db, listing)
    ensures ReadyToClaim(db, Candidates(listing, db.deps, limit, 0))
  {
    CandidatesAreReady(listing, db.deps, limit, 0);
    var ids := Candidates(listing, db.deps, limit, 0);
    forall i | 0 <= i < |ids| ensures ids[i] < |db.tasks| && DependenciesDone(db.tasks, db.deps, ids[i]) {
      assert ids[i] in ids;
    }
  }

  lemma LongerPath(events: seq<Event>, path: seq<nat>, target: nat)
    requires IsLinkPath(events, path) && LinkOf(events, EndOf(path)) == Some(target)
    ensures IsLinkPath(events, path + [target]) && |path + [target]| > 1 && (path + [target])[0] == path[0]
  {
    var longer := path + [target];
    forall i | 0 <= i < |longer| - 1 ensures LinkOf(events, longer[i]) == Some(longer[i + 1]) {
      if i < |path| - 1 {
        assert longer[i] == path[i] && longer[i + 1] == path[i + 1];
      }
    }
  }

  /** After a step that succeeded the worker knows what its next phase needs. */
  lemma StepTeaches(db: Db, w: Worker, c: Choice)
    requires PhaseKnows(db, w) && Succeeds(db, StepOf(db, w, c).op)
    ensures PhaseKnows(Exec(db, StepOf(db, w, c).op), Advanced(db, w, StepOf(db, w, c)))
  {
    var step := StepOf(db, w, c);
    var later, after := Exec(db, step.op), Advanced(db, w, step);
    StepNeeds(db, w, c);
    StepOps(db, w, c);
    ExecExtends(db, step.op);
    if step.op.CreateAttempt? {
      assert later == AddAttempt(db, w.task);
    } else {
      TaughtFact(db, w, step);
      if Known(db, w, Needs(step.next)) {
        KnowledgeStays(db, later, w, Needs(step.next));
      }
    }
  }

  /** Either the need was met before the step, or it is an approval the step just recorded. */
  lemma TaughtFact(db: Db, w: Worker, step: Step)
    requires PhaseKnows(db, w) && Succeeds(db, step.op) && NeedFollows(db, w, step.op, step.next)
    requires !step.op.CreateAttempt?
    ensures Known(db, w, Needs(step.next)) || Known(Exec(db, step.op), w, Needs(step.next))
  {
    if w.phase.ReviewGate? && step.next.ApproveTx? {
      RecordedApproval(db, w);
    } else if w.phase.ApproveAttempt? && step.next == Walk([w.task]) {
      assert IsLinkPath(db.events, [w.task]);
    } else if w.phase.Walk? && Needs(step.next).LinkPath? && Needs(step.next) != Needs(w.phase) {
      LongerPath(db.events, w.phase.path, LinkOf(db.events, EndOf(w.phase.path)).value);
    } else if w.phase.ListDeps? && step.next.ClaimTx? {
      var limit :| step.next == ClaimTx(Candidates(w.phase.snapshot, db.deps, limit, 0));
      CandidatesCanBeClaimed(db, w.phase.snapshot, limit);
    }
  }

  lemma RecordedApproval(db: Db, w: Worker)
    requires OwnsAttempt(db, w) && HasPassedTest(db, w.attempt) && HasFinishEvidence(db, w.attempt)
    ensures Approved(Exec(db, RecordReview(w.attempt, true)), w.attempt)
  {
    var later := Exec(db, RecordReview(w.attempt, true));
    EvidenceStays(db, later, w.attempt);
    assert later.reviews[|db.reviews|] == ReviewResult(w.attempt, true);
  }

  /** The tasks a claim hands out exist. */
  lemma {:induction false} ClaimedExist(db: Db, ids: seq<nat>)
    ensures forall t :: t in Claimed(db, ids) ==> t < |db.tasks|
    decreases |ids|
  {
    if ids != [] {
      ClaimedExist(if Claimable(db, ids[0]) then Move(db, ids[0], InProgress) else db, ids[1..]);
    }
  }

  /** A pipeline starts with the task it was hired for. */
  lemma HiredKnow(db: Db, ids: seq<nat>, firstEvent: nat, i: nat)
    requires i < |Claimed(db, ids)|
    ensures PhaseKnows(ClaimAll(db, ids), Hired(Claimed(db, ids), firstEvent)[i])
  {
    ClaimedExist(db, ids);
    ClaimExtends(db, ids);
    assert Claimed(db, ids)[i] in Claimed(db, ids);
  }

  ghost predicate AllKnow(db: Db, workers: seq<Worker>) {
    forall i :: 0 <= i < |workers| ==> PhaseKnows(db, workers[i])
  }

  lemma AllStillKnow(db: Db, later: Db, workers: seq<Worker>)
    requires Extends(db, later) && AllKnow(db, workers)
    ensures AllKnow(later, workers)
  {
    forall i | 0 <= i < |workers| ensures PhaseKnows(later, workers[i]) {
      KnowledgeStays(db, later, workers[i], Needs(workers[i].phase));
    }
  }

  lemma ActKeepsSafe(s: System, worker: nat, c: Choice)
    requires Safe(s) && worker < |s.workers|
    ensures Safe(ActStep(s, worker, c))
  {
    var w := s.workers[worker];
    var step := StepOf(s.db, w, c);
    StepIsSafe(s.db, w, c);
    StepNeeds(s.db, w, c);
    if Succeeds(s.db, step.op) {
      StepTeaches(s.db, w, c);
      ExecKeepsDbSafe(s.db, step.op);
      ExecExtends(s.db, step.op);
      AllStillKnow(s.db, Exec(s.db, step.op), s.workers);
      if step.op.Claim? {
        forall i | 0 <= i < |Claimed(s.db, step.op.ids)|
          ensures PhaseKnows(Exec(s.db, step.op), Hired(Claimed(s.db, step.op.ids), |s.db.events|)[i])
        {
          HiredKnow(s.db, step.op.ids, |s.db.events|, i);
        }
      }
    }
  }

  lemma NextKeepsSafe(s: System, a: Action)
    requires Safe(s)
    ensures Safe(Next(s, a))
  {
    match a
    case Act(worker, c) => if worker < |s.workers| { ActKeepsSafe(s, worker, c); }
    case PlanTasks(plan, accepted) => PlanKeepsSafe(s, plan, accepted);
    case StartClaim => JoinKeepsSafe(s, Worker(ListTasks, 0, 0, None));
    case StartFinal => JoinKeepsSafe(s, Worker(BlockList, 0, 0, None));
    case Retry(task) => JoinKeepsSafe(s, Worker(UserMove(true), task, 0, None));
    case Confirm(task, approved) => JoinKeepsSafe(s, Worker(UserMove(approved), task, 0, None));
  }

  lemma PlanKeepsSafe(s: System, plan: seq<PlannedTask>, accepted: seq<bool>)
    requires Safe(s)
    ensures Safe(Next(s, PlanTasks(plan, accepted)))
  {
    var op := StorePlan(plan, accepted);
    if Succeeds(s.db, op) {
      ExecKeepsDbSafe(s.db, op);
      ExecExtends(s.db, op);
      AllStillKnow(s.db, Exec(s.db, op), s.workers);
    }
  }

  lemma JoinKeepsSafe(s: System, w: Worker)
    requires Safe(s) && Needs(w.phase) == Nothing
    ensures Safe(s.(workers := s.workers + [w]))
  {
  }

  /** Every run, whatever the interleaving, keeps every invariant. */
  lemma {:induction false} RunKeepsSafe(s: System, actions: seq<Action>)
    requires Safe(s)
    ensures Safe(Run(s, actions))
    decreases |actions|
  {
    if actions != [] {
      NextKeepsSafe(s, actions[0]);
      RunKeepsSafe(Next(s, actions[0]), actions[1..]);
    }
  }
}
