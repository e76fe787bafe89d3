/**
 Why repairing ends: between re-plans, and without user retries, the number of task runs is
 bounded by the weights of the tasks that wait or are in flight, where a task weighs less the
 deeper its repairs are nested. A task that was queued by a retry while it is being created
 counts once more, because its creator will queue it again.
 */
module RunBound {
  import opened Options
  import opened Text
  import opened TaskStatuses
  import opened Database
  import opened RepairDepths
  import opened Lifecycle
  import opened RunSafety
  import opened PendingTasks
  import opened Claims

  // ---- weights ------------------------------------------------------------------------

  /** How many runs a task with this title can lead to, its repairs included: at least one. */
  function Weight(title: string): (w: nat)
    ensures 1 <= w <= 1 + MAX_REPAIR_DEPTH
  {
    var depth := RepairDepth(title);
    1 + MAX_REPAIR_DEPTH - if depth < MAX_REPAIR_DEPTH then depth else MAX_REPAIR_DEPTH
  }

  function WaitingWeight(task: Task): nat {
    if Unstarted(task.status) then Weight(task.title) else 0
  }

  function Waiting(tasks: seq<Task>): nat {
    if tasks == [] then 0 else Waiting(tasks[..|tasks| - 1]) + WaitingWeight(tasks[|tasks| - 1])
  }

  /** A pipeline that may still create a repair. */
  predicate MayRepair(p: Phase) {
    InExecutor(p) || InTester(p) || InReviewer(p) || InRepair(p)
  }

  /** A pipeline counts for its own run and for the runs a repair of its task can lead to. */
  function PipelineWeight(db: Db, w: Worker): nat {
    if w.claim == None then 0
    else if MayRepair(w.phase) then Weight(TitleOf(db, w.task))
    else 1
  }

  function Running(db: Db, workers: seq<Worker>): nat {
    if workers == [] then 0 else Running(db, workers[..|workers| - 1]) + PipelineWeight(db, workers[|workers| - 1])
  }

  /** A creator that finds its task queued already will queue it again. */
  function OwedWeight(db: Db, w: Worker): nat {
    match Pending(w.phase)
    case None => 0
    case Some(task) => if IsDraft(db, task) then 0 else Weight(TitleOf(db, task))
  }

  function Owed(db: Db, workers: seq<Worker>): nat {
    if workers == [] then 0 else Owed(db, workers[..|workers| - 1]) + OwedWeight(db, workers[|workers| - 1])
  }

  function Potential(s: System): nat {
    Waiting(s.db.tasks) + Running(s.db, s.workers) + Owed(s.db, s.workers)
  }

  /** Every pipeline ever hired: the number of task runs so far. */
  function RunsStarted(workers: seq<Worker>): nat {
    if workers == [] then 0
    else RunsStarted(workers[..|workers| - 1]) + if workers[|workers| - 1].claim.Some? then 1 else 0
  }

  lemma {:induction false} RunsWithinRunning(db: Db, workers: seq<Worker>)
    ensures RunsStarted(workers) <= Running(db, workers)
  {
    if workers != [] {
      RunsWithinRunning(db, workers[..|workers| - 1]);
    }
  }

  // ---- sums ---------------------------------------------------------------------------

  lemma {:induction false} WaitingUpdate(tasks: seq<Task>, i: nat, task: Task)
    requires i < |tasks|
    ensures Waiting(tasks[i := task]) == Waiting(tasks) - WaitingWeight(tasks[i]) + WaitingWeight(task)
    decreases |tasks|
  {
    var n := |tasks| - 1;
    if i < n {
      assert tasks[i := task][..n] == tasks[..n][i := task];
      WaitingUpdate(tasks[..n], i, task);
    } else {
      assert tasks[i := task][..n] == tasks[..n];
    }
  }

  lemma WaitingAppend(tasks: seq<Task>, task: Task)
    ensures Waiting(tasks + [task]) == Waiting(tasks) + WaitingWeight(task)
  {
    assert (tasks + [task])[..|tasks|] == tasks;
  }

  lemma {:induction false} RunningUpdate(db: Db, workers: seq<Worker>, i: nat, w: Worker)
    requires i < |workers|
    ensures Running(db, workers[i := w])
        == Running(db, workers) - PipelineWeight(db, workers[i]) + PipelineWeight(db, w)
    decreases |workers|
  {
    var n := |workers| - 1;
    if i < n {
      assert workers[i := w][..n] == workers[..n][i := w];
      RunningUpdate(db, workers[..n], i, w);
    } else {
      assert workers[i := w][..n] == workers[..n];
    }
  }

  /** Titles never change, so neither do the weights of the pipelines. */
  lemma {:induction false} RunningStays(db: Db, later: Db, workers: seq<Worker>)
    requires TasksExtend(db.tasks, later.tasks)
    requires forall i :: 0 <= i < |workers| && workers[i].claim.Some? ==> workers[i].task < |db.tasks|
    ensures Running(later, workers) == Running(db, workers)
    decreases |workers|
  {
    if workers != [] {
      RunningStays(db, later, workers[..|workers| - 1]);
    }
  }

  function TotalWeight(db: Db, ids: seq<nat>): nat {
    if ids == [] then 0 else Weight(TitleOf(db, ids[0])) + TotalWeight(db, ids[1..])
  }

  lemma {:induction false} SameTitlesSameTotal(db: Db, later: Db, ids: seq<nat>)
    requires TasksExtend(db.tasks, later.tasks)
    requires forall i :: 0 <= i < |ids| ==> ids[i] < |db.tasks|
    ensures TotalWeight(db, ids) == TotalWeight(later, ids)
    decreases |ids|
  {
    if ids != [] {
      SameTitlesSameTotal(db, later, ids[1..]);
    }
  }

  /** A claim moves exactly the claimed tasks' weight from waiting to running. */
  lemma {:induction false} ClaimMovesWeight(db: Db, ids: seq<nat>)
    ensures Waiting(ClaimAll(db, ids).tasks) + TotalWeight(db, Claimed(db, ids)) == Waiting(db.tasks)
    decreases |ids|
  {
    if ids != [] {
      if Claimable(db, ids[0]) {
        var next := Move(db, ids[0], InProgress);
        ClaimMovesWeight(next, ids[1..]);
        WaitingUpdate(db.tasks, ids[0], db.tasks[ids[0]].(status := InProgress));
        ClaimedInRange(next, ids[1..]);
        MoveExtends(db, ids[0], InProgress);
        SameTitlesSameTotal(db, next, Claimed(next, ids[1..]));
        assert Claimed(db, ids)[1..] == Claimed(next, ids[1..]);
      } else {
        ClaimMovesWeight(db, ids[1..]);
      }
    }
  }

  lemma ClaimedInRange(db: Db, ids: seq<nat>)
    ensures forall i :: 0 <= i < |Claimed(db, ids)| ==> Claimed(db, ids)[i] < |db.tasks|
  {
    ClaimedExist(db, ids);
    assert forall i :: 0 <= i < |Claimed(db, ids)| ==> Claimed(db, ids)[i] in Claimed(db, ids);
  }

  lemma {:induction false} HiredWeigh(db: Db, workers: seq<Worker>, claimed: seq<nat>, firstEvent: nat)
    ensures Running(db, workers + Hired(claimed, firstEvent)) == Running(db, workers) + TotalWeight(db, claimed)
    decreases |claimed|
  {
    var hired := Hired(claimed, firstEvent);
    if claimed == [] {
      assert workers + hired == workers;
    } else {
      assert workers + hired == (workers + [hired[0]]) + Hired(claimed[1..], firstEvent + 1);
      HiredWeigh(db, workers + [hired[0]], claimed[1..], firstEvent + 1);
      assert (workers + [hired[0]])[..|workers|] == workers;
    }
  }

  /** One worker has moved, and the others owe no more than before. */
  lemma {:induction false} OwedMoved(db: Db, later: Db, workers: seq<Worker>, i: nat, after: Worker)
    requires i < |workers|
    requires forall j :: 0 <= j < |workers| && j != i ==> OwedWeight(later, workers[j]) <= OwedWeight(db, workers[j])
    ensures Owed(later, workers[i := after]) <= Owed(db, workers) - OwedWeight(db, workers[i])
        + OwedWeight(later, after)
    decreases |workers|
  {
    var n := |workers| - 1;
    if i < n {
      assert workers[i := after][..n] == workers[..n][i := after];
      OwedMoved(db, later, workers[..n], i, after);
    } else {
      assert workers[i := after][..n] == workers[..n];
      OwedStays(db, later, workers[..n]);
    }
  }

  lemma {:induction false} OwedStays(db: Db, later: Db, workers: seq<Worker>)
    requires forall j :: 0 <= j < |workers| ==> OwedWeight(later, workers[j]) <= OwedWeight(db, workers[j])
    ensures Owed(later, workers) <= Owed(db, workers)
  {
    if workers != [] {
      OwedStays(db, later, workers[..|workers| - 1]);
    }
  }

  lemma {:induction false} NewOweNothing(db: Db, workers: seq<Worker>, more: seq<Worker>)
    requires forall i :: 0 <= i < |more| ==> Pending(more[i].phase) == None
    ensures Owed(db, workers + more) == Owed(db, workers)
    decreases |more|
  {
    if more == [] {
      assert workers + more == workers;
    } else {
      var n := |more| - 1;
      assert (workers + more)[..|workers| + n] == workers + more[..n];
      NewOweNothing(db, workers, more[..n]);
    }
  }

  // ---- no step gains weight -------------------------------------------------------------

  ghost predicate TitlesNotBlank(tasks: seq<Task>) {
    forall t :: 0 <= t < |tasks| ==> Trim(tasks[t].title) != ""
  }

  /** No re-plan is under way, and repairs are only about to be created below the depth limit. */
  ghost predicate NoReplan(db: Db, w: Worker) {
    && (w.phase.DeltaCreate? || w.phase.DeltaReady? ==> w.phase.titles == [])
    && (w.phase.RepairCreate? ==> RepairDepth(TitleOf(db, w.task)) < MAX_REPAIR_DEPTH && w.claim.Some?)
  }

  ghost predicate Settled(s: System) {
    TitlesNotBlank(s.db.tasks) && AllSettled(s.db, s.workers)
  }

  /** An action that is neither a user's, nor a plan, nor the start of a re-plan. */
  predicate Quiet(a: Action) {
    !ByUser(a) && !a.PlanTasks? && (a.Act? && a.choice.NewTasks? ==> a.choice.titles == [])
  }

  lemma TransitionGainsNothing(db: Db, task: nat, to: TaskStatus)
    requires Succeeds(db, Transition(task, to)) && OnlyDraftsQueued(db, Transition(task, to))
    ensures Waiting(Move(db, task, to).tasks) <= Waiting(db.tasks)
  {
    WaitingUpdate(db.tasks, task, db.tasks[task].(status := to));
  }

  /** What a quiet step does to the weights: creating a repair is paid for by the pipeline that creates it. */
  ghost predicate StepPays(db: Db, w: Worker, step: Step) {
    && (MayRepair(step.next) ==> MayRepair(w.phase))
    && (MayRepair(step.failed) ==> MayRepair(w.phase))
    && (step.op.CreateTask? ==>
          w.phase.RepairCreate? && step.next.RepairLink? && step.op.title == RepairTitle(TitleOf(db, w.task)))
    && (step.next.DeltaCreate? || step.next.DeltaReady? ==> step.next.titles == [])
    && (step.failed.DeltaCreate? || step.failed.DeltaReady? ==> step.failed.titles == [])
    && (step.next.RepairCreate? ==> RepairDepth(TitleOf(db, w.task)) < MAX_REPAIR_DEPTH && InRepair(w.phase))
    && !step.failed.RepairCreate?
  }

  lemma PipelineStepPays(db: Db, w: Worker, c: Choice)
    ensures InExecutor(w.phase) ==> StepPays(db, w, ExecutorStep(w, c))
    ensures InTester(w.phase) ==> StepPays(db, w, TesterStep(w, c))
    ensures InReviewer(w.phase) ==> StepPays(db, w, ReviewerStep(db, w, c))
  {
  }

  lemma RepairStepPays(db: Db, w: Worker, c: Choice)
    requires InRepair(w.phase) && NoReplan(db, w) && (c.NewTasks? ==> c.titles == [])
    ensures StepPays(db, w, RepairStep(db, w, c))
  {
  }

  lemma QueueingStepPays(db: Db, w: Worker)
    requires InQueueing(w.phase) && NoReplan(db, w)
    ensures StepPays(db, w, QueueingStep(db, w))
  {
  }

  lemma WalkStepPays(db: Db, w: Worker)
    requires InWalk(w.phase)
    ensures StepPays(db, w, WalkingStep(db, w))
  {
  }

  lemma FinalStepPays(db: Db, w: Worker, c: Choice)
    requires InFinal(w.phase) && (c.NewTasks? ==> c.titles == [])
    ensures StepPays(db, w, FinalStep(db, w, c))
  {
  }

  lemma QuietStepPays(db: Db, w: Worker, c: Choice)
    requires NoReplan(db, w) && (c.NewTasks? ==> c.titles == [])
    ensures StepPays(db, w, StepOf(db, w, c))
  {
    if InExecutor(w.phase) || InTester(w.phase) || InReviewer(w.phase) {
      PipelineStepPays(db, w, c);
    } else if InRepair(w.phase) {
      RepairStepPays(db, w, c);
    } else if InQueueing(w.phase) {
      QueueingStepPays(db, w);
    } else if InWalk(w.phase) {
      WalkStepPays(db, w);
    } else if InFinal(w.phase) {
      FinalStepPays(db, w, c);
    }
  }

  /** A repair weighs one less than the task it repairs, below the depth limit. */
  lemma RepairWeighsLess(failed: string)
    requires Trim(failed) != "" && RepairDepth(failed) < MAX_REPAIR_DEPTH
    ensures Weight(RepairTitle(failed)) == Weight(failed) - 1
  {
    RepairIsOneDeeper(failed);
  }

  /** The acting pipeline never gains weight, and gives up enough for the repair it creates. */
  lemma PipelineWeightFalls(db: Db, w: Worker, c: Choice)
    requires TitlesNotBlank(db.tasks) && NoReplan(db, w) && (c.NewTasks? ==> c.titles == [])
    requires w.claim.Some? ==> w.task < |db.tasks|
    ensures var step := StepOf(db, w, c);
      && PipelineWeight(db, w.(phase := step.failed)) <= PipelineWeight(db, w)
      && PipelineWeight(db, Advanced(db, w, step)) <= PipelineWeight(db, w)
      && (step.op.CreateTask? ==>
            && Weight(step.op.title) + PipelineWeight(db, Advanced(db, w, step)) <= PipelineWeight(db, w)
            && Trim(step.op.title) != "")
  {
    var step := StepOf(db, w, c);
    QuietStepPays(db, w, c);
    if step.op.CreateTask? {
      RepairWeighsLess(TitleOf(db, w.task));
      RepairTitleNotBlank(TitleOf(db, w.task));
    }
  }

  /** Without users, no user's command is ever under way. */
  lemma NextKeepsNoUserMoves(s: System, a: Action)
    requires NoUserMoves(s.workers) && !ByUser(a)
    ensures NoUserMoves(Next(s, a).workers)
  {
    if a.Act? && a.worker < |s.workers| {
      StepOrder(s.db, s.workers[a.worker], a.choice);
    }
  }

  lemma SettledStays(db: Db, later: Db, workers: seq<Worker>)
    requires TasksExtend(db.tasks, later.tasks)
    requires AllSettled(db, workers)
    requires forall i :: 0 <= i < |workers| && workers[i].claim.Some? ==> workers[i].task < |db.tasks|
    ensures AllSettled(later, workers)
  {
  }

  lemma TitlesStayNotBlank(db: Db, op: Op)
    requires Succeeds(db, op) && TitlesNotBlank(db.tasks) && !op.StorePlan?
    requires op.CreateTask? ==> Trim(op.title) != ""
    ensures TitlesNotBlank(Exec(db, op).tasks)
  {
    if op.Claim? {
      ClaimExtends(db, op.ids);
    }
  }

  ghost predicate AllSettled(db: Db, workers: seq<Worker>) {
    forall i :: 0 <= i < |workers| ==> NoReplan(db, workers[i])
  }

  lemma ClaimKeepsSettled(db: Db, after: seq<Worker>, ids: seq<nat>, firstEvent: nat)
    requires AllSettled(db, after)
    requires forall i :: 0 <= i < |after| && after[i].claim.Some? ==> after[i].task < |db.tasks|
    ensures AllSettled(ClaimAll(db, ids), after + Hired(Claimed(db, ids), firstEvent))
  {
    ClaimExtends(db, ids);
    SettledStays(db, ClaimAll(db, ids), after);
  }

  lemma ClaimKeepsPotential(db: Db, after: seq<Worker>, ids: seq<nat>, firstEvent: nat)
    requires forall i :: 0 <= i < |after| && after[i].claim.Some? ==> after[i].task < |db.tasks|
    ensures Waiting(ClaimAll(db, ids).tasks) + Running(ClaimAll(db, ids), after + Hired(Claimed(db, ids), firstEvent))
              == Waiting(db.tasks) + Running(db, after)
  {
    var later := ClaimAll(db, ids);
    ClaimExtends(db, ids);
    ClaimMovesWeight(db, ids);
    ClaimedInRange(db, ids);
    SameTitlesSameTotal(db, later, Claimed(db, ids));
    RunningStays(db, later, after);
    HiredWeigh(later, after, Claimed(db, ids), firstEvent);
  }

  /** A pipeline's task exists. */
  lemma PipelineTasksExist(db: Db, workers: seq<Worker>)
    requires AllTidy(db, workers)
    ensures forall i :: 0 <= i < |workers| && workers[i].claim.Some? ==> workers[i].task < |db.tasks|
  {
    forall i | 0 <= i < |workers| && workers[i].claim.Some? ensures workers[i].task < |db.tasks| {
      assert WorkerTidy(db, workers[i]);
    }
  }

  // ---- what a step costs ------------------------------------------------------------------

  /** A task is only queued when it was waiting already, or by a creator that owes it. */
  ghost predicate QueuesOwed(db: Db, w: Worker, step: Step) {
    || OnlyDraftsQueued(db, step.op)
    || (step.op.Transition? && Pending(w.phase) == Some(step.op.task) && !IsDraft(db, step.op.task)
        && Pending(step.next) == None)
  }

  lemma StepQueuesOwed(db: Db, w: Worker, c: Choice)
    requires WorkerTidy(db, w) && !w.phase.UserMove?
    ensures QueuesOwed(db, w, StepOf(db, w, c))
  {
    if InExecutor(w.phase) || InTester(w.phase) || InReviewer(w.phase) {
      PipelineQueuesNothing(db, w, c);
    } else if Pending(w.phase).Some? && !IsDraft(db, Pending(w.phase).value) {
      CreatorQueuesOwn(db, w, c);
    } else {
      OthersQueueDrafts(db, w, c);
    }
  }

  lemma CreatorQueuesOwn(db: Db, w: Worker, c: Choice)
    requires Pending(w.phase).Some?
    ensures var step := StepOf(db, w, c);
      step.op.Transition? ==> Pending(w.phase) == Some(step.op.task) && Pending(step.next) == None
  {
  }

  /** A move to READY adds at most the task's own weight. */
  lemma QueueingGains(db: Db, task: nat, to: TaskStatus)
    requires Succeeds(db, Transition(task, to))
    ensures Waiting(Move(db, task, to).tasks) <= Waiting(db.tasks) + Weight(TitleOf(db, task))
  {
    WaitingUpdate(db.tasks, task, db.tasks[task].(status := to));
  }

  /** What the waiting tasks gain by a step, the worker that takes it loses. */
  lemma StepBalances(db: Db, w: Worker, step: Step, after: Worker, later: Db)
    requires Succeeds(db, step.op) && later == Exec(db, step.op) && !step.op.StorePlan? && !step.op.Claim?
    requires OrderlyStep(db, w, step) && QueuesOwed(db, w, step) && after.phase == step.next
    requires PipelineWeight(db, after) + (if step.op.CreateTask? then Weight(step.op.title) else 0)
             <= PipelineWeight(db, w)
    ensures Waiting(later.tasks) + PipelineWeight(db, after) + OwedWeight(later, after)
            <= Waiting(db.tasks) + PipelineWeight(db, w) + OwedWeight(db, w)
  {
    if step.op.CreateTask? {
      WaitingAppend(db.tasks, Task(step.op.title, Draft));
      assert IsDraft(later, |db.tasks|);
    } else if step.op.Transition? {
      if OnlyDraftsQueued(db, step.op) {
        TransitionGainsNothing(db, step.op.task, step.op.to);
      } else {
        QueueingGains(db, step.op.task, step.op.to);
      }
    } else {
      OwedByOtherOp(db, step.op, after, later);
    }
  }

  /** Without a move, a task that is being created keeps its status. */
  lemma OwedByOtherOp(db: Db, op: Op, w: Worker, later: Db)
    requires Succeeds(db, op) && later == Exec(db, op)
    requires !op.StorePlan? && !op.Claim? && !op.Transition? && !op.CreateTask?
    ensures later.tasks == db.tasks && OwedWeight(later, w) == OwedWeight(db, w)
  {
  }

  /** A task that is being created stays a draft, or is owed already. */
  lemma OwesNoMore(db: Db, op: Op, w: Worker)
    requires Succeeds(db, op) && WorkerTidy(db, w)
    requires Pending(w.phase).Some? && IsDraft(db, Pending(w.phase).value) ==>
               !(op.Transition? && op.task == Pending(w.phase).value)
    ensures OwedWeight(Exec(db, op), w) <= OwedWeight(db, w)
  {
    ExecExtends(db, op);
    if Pending(w.phase).Some? && IsDraft(db, Pending(w.phase).value) {
      DraftStays(db, op, Pending(w.phase).value);
    }
  }

  lemma OthersOweNoMore(s: System, worker: nat, c: Choice, later: Db)
    requires Tidy(s) && NoUserMoves(s.workers) && worker < |s.workers|
    requires Succeeds(s.db, StepOf(s.db, s.workers[worker], c).op)
    requires later == Exec(s.db, StepOf(s.db, s.workers[worker], c).op)
    ensures forall j :: 0 <= j < |s.workers| && j != worker ==>
              OwedWeight(later, s.workers[j]) <= OwedWeight(s.db, s.workers[j])
  {
    forall j | 0 <= j < |s.workers| && j != worker
      ensures OwedWeight(later, s.workers[j]) <= OwedWeight(s.db, s.workers[j])
    {
      assert WorkerTidy(s.db, s.workers[j]);
      if Pending(s.workers[j].phase).Some? && IsDraft(s.db, Pending(s.workers[j].phase).value) {
        StepLeavesOthersAlone(s, worker, c, j);
      }
      OwesNoMore(s.db, StepOf(s.db, s.workers[worker], c).op, s.workers[j]);
    }
  }

  /** A step that succeeds without a claim, or fails. */
  lemma MoveKeepsPotential(s: System, worker: nat, op: Op, after: Worker, later: Db)
    requires AllTidy(s.db, s.workers) && Settled(s) && worker < |s.workers|
    requires after.claim == s.workers[worker].claim && after.task == s.workers[worker].task && NoReplan(s.db, after)
    requires Succeeds(s.db, op) && later == Exec(s.db, op) && !op.StorePlan?
    requires op.CreateTask? ==> Trim(op.title) != ""
    requires Waiting(later.tasks) + PipelineWeight(s.db, after) + OwedWeight(later, after)
             <= Waiting(s.db.tasks) + PipelineWeight(s.db, s.workers[worker]) + OwedWeight(s.db, s.workers[worker])
    requires forall j :: 0 <= j < |s.workers| && j != worker ==>
               OwedWeight(later, s.workers[j]) <= OwedWeight(s.db, s.workers[j])
    ensures var t := System(later, s.workers[worker := after]); Settled(t) && Potential(t) <= Potential(s)
  {
    var moved := s.workers[worker := after];
    PipelineTasksExist(s.db, s.workers);
    ExecExtends(s.db, op);
    TitlesStayNotBlank(s.db, op);
    RunningUpdate(s.db, s.workers, worker, after);
    OwedMoved(s.db, later, s.workers, worker, after);
    RunningStays(s.db, later, moved);
    SettledStays(s.db, later, moved);
  }

  lemma ClaimingKeepsPotential(s: System, worker: nat, after: Worker, ids: seq<nat>)
    requires AllTidy(s.db, s.workers) && Settled(s) && worker < |s.workers|
    requires after.claim == s.workers[worker].claim && after.task == s.workers[worker].task && NoReplan(s.db, after)
    requires PipelineWeight(s.db, after) <= PipelineWeight(s.db, s.workers[worker]) && Pending(after.phase) == None
    requires forall j :: 0 <= j < |s.workers| && j != worker ==>
               OwedWeight(ClaimAll(s.db, ids), s.workers[j]) <= OwedWeight(s.db, s.workers[j])
    ensures var moved, claimed := s.workers[worker := after], Hired(Claimed(s.db, ids), |s.db.events|);
      var t := System(ClaimAll(s.db, ids), moved + claimed); Settled(t) && Potential(t) <= Potential(s)
  {
    var moved := s.workers[worker := after];
    PipelineTasksExist(s.db, s.workers);
    TitlesStayNotBlank(s.db, Claim(ids));
    RunningUpdate(s.db, s.workers, worker, after);
    OwedMoved(s.db, ClaimAll(s.db, ids), s.workers, worker, after);
    NewOweNothing(ClaimAll(s.db, ids), moved, Hired(Claimed(s.db, ids), |s.db.events|));
    ClaimKeepsSettled(s.db, moved, ids, |s.db.events|);
    ClaimKeepsPotential(s.db, moved, ids, |s.db.events|);
  }

  /** No quiet step raises the potential. */
  lemma ActKeepsPotential(s: System, worker: nat, c: Choice)
    requires Tidy(s) && NoUserMoves(s.workers) && Settled(s) && worker < |s.workers|
    requires c.NewTasks? ==> c.titles == []
    ensures Settled(ActStep(s, worker, c)) && Potential(ActStep(s, worker, c)) <= Potential(s)
  {
    var w := s.workers[worker];
    var step := StepOf(s.db, w, c);
    assert WorkerTidy(s.db, w) && NoReplan(s.db, w);
    StepOrder(s.db, w, c);
    QuietStepPays(s.db, w, c);
    PipelineWeightFalls(s.db, w, c);
    StillSettled(s.db, w, step);
    if !Succeeds(s.db, step.op) {
      MoveKeepsPotential(s, worker, NoOp, w.(phase := step.failed), s.db);
    } else {
      StepOps(s.db, w, c);
      OthersOweNoMore(s, worker, c, Exec(s.db, step.op));
      if step.op.Claim? {
        ClaimingKeepsPotential(s, worker, Advanced(s.db, w, step), step.op.ids);
      } else {
        StepQueuesOwed(s.db, w, c);
        StepBalances(s.db, w, step, Advanced(s.db, w, step), Exec(s.db, step.op));
        MoveKeepsPotential(s, worker, step.op, Advanced(s.db, w, step), Exec(s.db, step.op));
        assert s.workers[worker := Advanced(s.db, w, step)] + [] == s.workers[worker := Advanced(s.db, w, step)];
      }
    }
  }

  lemma StillSettled(db: Db, w: Worker, step: Step)
    requires StepPays(db, w, step) && WorkerTidy(db, w)
    ensures NoReplan(db, Advanced(db, w, step)) && NoReplan(db, w.(phase := step.failed))
  {
  }

  lemma NextKeepsPotential(s: System, a: Action)
    requires Tidy(s) && NoUserMoves(s.workers) && Settled(s) && Quiet(a)
    ensures Settled(Next(s, a)) && Potential(Next(s, a)) <= Potential(s)
  {
    if a.Act? {
      if a.worker < |s.workers| {
        ActKeepsPotential(s, a.worker, a.choice);
      }
    } else {
      var joined := Next(s, a).workers;
      assert joined[..|s.workers|] == s.workers;
    }
  }

  lemma {:induction false} RunKeepsPotential(s: System, actions: seq<Action>)
    requires Safe(s) && Tidy(s) && NoUserMoves(s.workers) && Settled(s)
    requires forall i :: 0 <= i < |actions| ==> Quiet(actions[i])
    ensures Potential(Run(s, actions)) <= Potential(s)
    decreases |actions|
  {
    if actions != [] {
      assert Quiet(actions[0]);
      NextKeepsSafe(s, actions[0]);
      NextKeepsTidy(s, actions[0]);
      NextKeepsNoUserMoves(s, actions[0]);
      NextKeepsPotential(s, actions[0]);
      RunKeepsPotential(Next(s, actions[0]), actions[1..]);
    }
  }

  /** The weights of the pipelines that may still create a repair. */
  function LiveWeight(db: Db, workers: seq<Worker>): nat {
    if workers == [] then 0
    else
      var w := workers[|workers| - 1];
      LiveWeight(db, workers[..|workers| - 1]) + if w.claim.Some?
          && MayRepair(w.phase) then Weight(TitleOf(db, w.task)) else 0
  }

  /** What task runs there still can be: for tasks that wait, are in flight, or will be queued again. */
  function Measure(s: System): nat {
    Waiting(s.db.tasks) + LiveWeight(s.db, s.workers) + Owed(s.db, s.workers)
  }

  /** The pipelines that are through with their task and with repairing it. */
  function RunsFinished(workers: seq<Worker>): nat {
    if workers == [] then 0
    else
      var w := workers[|workers| - 1];
      RunsFinished(workers[..|workers| - 1]) + if w.claim.Some? && !MayRepair(w.phase) then 1 else 0
  }

  lemma {:induction false} RunningIsLiveOrFinished(db: Db, workers: seq<Worker>)
    ensures Running(db, workers) == LiveWeight(db, workers) + RunsFinished(workers)
  {
    if workers != [] {
      RunningIsLiveOrFinished(db, workers[..|workers| - 1]);
    }
  }

  /**
   Between re-plans, and without user retries, only so many pipelines are ever hired,
   whatever the interleaving and however often tasks fail; and every finished task run has
   cost the measure at least one, whatever repairs it led to.
   */
  lemma RunsAreBounded(s: System, actions: seq<Action>)
    requires Safe(s) && Tidy(s) && NoUserMoves(s.workers) && Settled(s)
    requires forall i :: 0 <= i < |actions| ==> Quiet(actions[i])
    ensures RunsStarted(Run(s, actions).workers) <= Potential(s)
    ensures Measure(Run(s, actions)) + (RunsFinished(Run(s, actions).workers) - RunsFinished(s.workers)) <= Measure(s)
  {
    RunKeepsPotential(s, actions);
    RunsWithinRunning(Run(s, actions).db, Run(s, actions).workers);
    RunningIsLiveOrFinished(s.db, s.workers);
    RunningIsLiveOrFinished(Run(s, actions).db, Run(s, actions).workers);
  }
}
