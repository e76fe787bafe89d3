/**
 Who works on a task when users retry: a task has one live pipeline as long as no task is
 queued again, by a user or by the worker that created it, while a pipeline is still at work
 on it, repairs included; otherwise two can work on it at once, and the first can mark FAILED
 what the second has started.
 */
module LivePipelines {
  import opened Options
  import opened TaskStatuses
  import opened DependencyPruning
  import opened Database
  import opened RepairDepths
  import opened Lifecycle
  import opened RunSafety
  import opened PendingTasks
  import opened Claims
  import opened RunBound
  import opened RunGuarantees
  import opened WorkerSteps
  import opened DraftRetries

  // ---- the invariant -------------------------------------------------------------------------

  /** A pipeline that has not come to the end of its task, nor of arranging its repair. */
  predicate Live(w: Worker) {
    w.claim.Some? && MayRepair(w.phase)
  }

  ghost predicate NoneLive(workers: seq<Worker>, task: nat) {
    forall i :: 0 <= i < |workers| && Live(workers[i]) ==> workers[i].task != task
  }

  ghost predicate OneLive(workers: seq<Worker>) {
    forall i, j :: 0 <= i < j < |workers| && Live(workers[i]) && Live(workers[j]) ==> workers[i].task != workers[j].task
  }

  /** No task has two live pipelines, and one that waits to be claimed has none. */
  ghost predicate LiveExclusive(db: Db, workers: seq<Worker>) {
    && OneLive(workers)
    && forall t :: 0 <= t < |db.tasks| && Unstarted(db.tasks[t].status) ==> NoneLive(workers, t)
  }

  /** The operation makes a task READY that a pipeline is still at work on. */
  ghost predicate ReadiesLive(db: Db, workers: seq<Worker>, op: Op) {
    op.Transition? && op.to == Ready && Succeeds(db, op) && !NoneLive(workers, op.task)
  }

  /** A user's command, or the worker that created the task, is about to do so. */
  ghost predicate QueuesLive(s: System, a: Action) {
    && a.Act? && a.worker < |s.workers|
    && ReadiesLive(s.db, s.workers, StepOf(s.db, s.workers[a.worker], a.choice).op)
  }

  // ---- one step ---------------------------------------------------------------------------------

  /** A worker does not come to life again. */
  lemma StepStaysLive(db: Db, w: Worker, c: Choice)
    ensures MayRepair(StepOf(db, w, c).next) ==> MayRepair(w.phase)
    ensures MayRepair(StepOf(db, w, c).failed) ==> MayRepair(w.phase)
  {
    if InWalk(w.phase) {
      WalkStepPays(db, w);
    } else {
      StepOrder(db, w, c);
    }
  }

  ghost predicate NoneRevived(workers: seq<Worker>, after: seq<Worker>) {
    SameOwners(workers, after) && forall i :: 0 <= i < |workers| && Live(after[i]) ==> Live(workers[i])
  }

  lemma OtherOpsKeepLive(db: Db, workers: seq<Worker>, after: seq<Worker>, op: Op)
    requires AllTidy(db, workers) && LiveExclusive(db, workers) && NoneRevived(workers, after)
    requires Succeeds(db, op) && !op.Claim? && !ReadiesLive(db, workers, op)
    ensures LiveExclusive(Exec(db, op), after)
  {
    var later := Exec(db, op);
    PipelineTasksExist(db, workers);
    forall t | 0 <= t < |later.tasks| && Unstarted(later.tasks[t].status) ensures NoneLive(after, t) {
      if t < |db.tasks| && !(op.Transition? && op.task == t && op.to == Ready) {
        UnstartedStays(db, op, t);
        assert NoneLive(workers, t);
      }
    }
  }

  /** Only being made READY lets a task wait again. */
  lemma UnstartedStays(db: Db, op: Op, t: nat)
    requires Succeeds(db, op) && !op.Claim? && t < |db.tasks| && !(op.Transition? && op.task == t && op.to == Ready)
    requires t < |Exec(db, op).tasks| && Unstarted(Exec(db, op).tasks[t].status)
    ensures Unstarted(db.tasks[t].status)
  {
    if op.Transition? {
      StartedOnlyByClaim(db.tasks[op.task].status, op.to);
    }
  }

  lemma ClaimKeepsLive(db: Db, workers: seq<Worker>, after: seq<Worker>, ids: seq<nat>, firstEvent: nat)
    requires LiveExclusive(db, workers) && NoneRevived(workers, after)
    ensures LiveExclusive(ClaimAll(db, ids), after + Hired(Claimed(db, ids), firstEvent))
  {
    var claimed := Claimed(db, ids);
    var all := after + Hired(claimed, firstEvent);
    ClaimedWereReady(db, ids);
    forall i, j | 0 <= i < j < |all| && Live(all[i]) && Live(all[j]) ensures all[i].task != all[j].task {
      if |after| <= j {
        assert all[j].task == claimed[j - |after|] && claimed[j - |after|] in claimed;
        assert NoneLive(workers, claimed[j - |after|]);
      }
    }
    forall t | 0 <= t < |db.tasks| && Unstarted(ClaimAll(db, ids).tasks[t].status) ensures NoneLive(all, t) {
      assert NoneLive(workers, t);
      forall i | |after| <= i < |all| ensures all[i].task != t {
        assert all[i].task == claimed[i - |after|] && claimed[i - |after|] in claimed;
      }
    }
  }

  lemma MovedAreNotRevived(db: Db, workers: seq<Worker>, i: nat, c: Choice)
    requires i < |workers|
    ensures var step := StepOf(db, workers[i], c);
      && NoneRevived(workers, workers[i := Advanced(db, workers[i], step)])
      && NoneRevived(workers, workers[i := workers[i].(phase := step.failed)])
  {
    StepStaysLive(db, workers[i], c);
  }

  lemma ActKeepsLive(s: System, i: nat, c: Choice)
    requires Tidy(s) && LiveExclusive(s.db, s.workers) && i < |s.workers| && !QueuesLive(s, Act(i, c))
    ensures LiveExclusive(ActStep(s, i, c).db, ActStep(s, i, c).workers)
  {
    var w := s.workers[i];
    var step := StepOf(s.db, w, c);
    MovedAreNotRevived(s.db, s.workers, i, c);
    if !Succeeds(s.db, step.op) {
      OtherOpsKeepLive(s.db, s.workers, s.workers[i := w.(phase := step.failed)], NoOp);
    } else {
      var moved := s.workers[i := Advanced(s.db, w, step)];
      if step.op.Claim? {
        ClaimKeepsLive(s.db, s.workers, moved, step.op.ids, |s.db.events|);
      } else {
        OtherOpsKeepLive(s.db, s.workers, moved, step.op);
        assert moved + [] == moved;
      }
    }
  }

  lemma JoinKeepsLive(db: Db, workers: seq<Worker>, w: Worker)
    requires LiveExclusive(db, workers) && w.claim == None
    ensures LiveExclusive(db, workers + [w])
  {
    forall t | 0 <= t < |db.tasks| && Unstarted(db.tasks[t].status) ensures NoneLive(workers + [w], t) {
      assert NoneLive(workers, t);
    }
  }

  /** Every action but the queueing of a task with a live pipeline. */
  lemma NextKeepsLive(s: System, a: Action)
    requires Tidy(s) && LiveExclusive(s.db, s.workers) && !QueuesLive(s, a)
    ensures LiveExclusive(Next(s, a).db, Next(s, a).workers)
  {
    match a
    case Act(i, c) => if i < |s.workers| { ActKeepsLive(s, i, c); }
    case PlanTasks(plan, accepted) =>
      if Succeeds(s.db, StorePlan(plan, accepted)) {
        OtherOpsKeepLive(s.db, s.workers, s.workers, StorePlan(plan, accepted));
      }
    case StartClaim => JoinKeepsLive(s.db, s.workers, Worker(ListTasks, 0, 0, None));
    case StartFinal => JoinKeepsLive(s.db, s.workers, Worker(BlockList, 0, 0, None));
    case Retry(task) => JoinKeepsLive(s.db, s.workers, Worker(UserMove(true), task, 0, None));
    case Confirm(task, approved) => JoinKeepsLive(s.db, s.workers, Worker(UserMove(approved), task, 0, None));
  }

  /** Who makes a task READY: a user's command, or the worker that created it; neither is at work on it. */
  lemma WhoQueues(db: Db, w: Worker, c: Choice)
    requires StepOf(db, w, c).op.Transition? && StepOf(db, w, c).op.to == Ready
    ensures !Live(w)
    ensures w.phase == UserMove(true) || Pending(w.phase) == Some(StepOf(db, w, c).op.task)
  {
  }

  lemma QueueingMoves(s: System, a: Action)
    requires QueuesLive(s, a)
    ensures var task := StepOf(s.db, s.workers[a.worker], a.choice).op.task;
      Next(s, a).db == Move(s.db, task, Ready) && OnlyMoved(s, Next(s, a), a.worker)
  {
  }

  lemma QueueingLiveBreaks(s: System, a: Action)
    requires QueuesLive(s, a)
    ensures !LiveExclusive(Next(s, a).db, Next(s, a).workers)
  {
    var task, t := StepOf(s.db, s.workers[a.worker], a.choice).op.task, Next(s, a);
    var j :| 0 <= j < |s.workers| && Live(s.workers[j]) && s.workers[j].task == task;
    WhoQueues(s.db, s.workers[a.worker], a.choice);
    QueueingMoves(s, a);
    assert t.workers[j] == s.workers[j];
    assert t.db.tasks[task].status == Ready && !NoneLive(t.workers, task);
  }

  /**
   In every reachable state that has it, the step that loses it is exactly one that queues a
   task while a pipeline is still at work on it. A user's command takes such a step, and so
   does the worker that created a task which a user has retried meanwhile.
   */
  lemma LiveStepIsExact(s: System, a: Action)
    requires Reachable(s) && LiveExclusive(s.db, s.workers)
    ensures LiveExclusive(Next(s, a).db, Next(s, a).workers) <==> !QueuesLive(s, a)
  {
    ReachableIsTidy(s);
    if QueuesLive(s, a) {
      QueueingLiveBreaks(s, a);
    } else {
      NextKeepsLive(s, a);
    }
  }

  /** Where tasks that are being created are still drafts, only a user's command takes such a step. */
  lemma OnlyUsersQueueLive(s: System, a: Action)
    requires PendingAreDrafts(s.db, s.workers) && LiveExclusive(s.db, s.workers) && QueuesLive(s, a)
    ensures s.workers[a.worker].phase == UserMove(true)
  {
    WhoQueues(s.db, s.workers[a.worker], a.choice);
  }

  // ---- whole runs ----------------------------------------------------------------------------------

  /** No task is queued again while a pipeline is at work on it. */
  ghost predicate QueuesIdle(s: System, actions: seq<Action>)
    decreases |actions|
  {
    actions == [] || (!QueuesLive(s, actions[0]) && QueuesIdle(Next(s, actions[0]), actions[1..]))
  }

  lemma {:induction false} RunKeepsLive(s: System, actions: seq<Action>)
    requires Safe(s) && Tidy(s) && LiveExclusive(s.db, s.workers) && QueuesIdle(s, actions)
    ensures LiveExclusive(Run(s, actions).db, Run(s, actions).workers)
    decreases |actions|
  {
    if actions != [] {
      NextKeepsSafe(s, actions[0]);
      NextKeepsTidy(s, actions[0]);
      NextKeepsLive(s, actions[0]);
      RunKeepsLive(Next(s, actions[0]), actions[1..]);
    }
  }

  /** However often tasks are retried once their pipelines are through, no task ever has two pipelines at work on it. */
  lemma OnePipelineAtATime(actions: seq<Action>)
    requires QueuesIdle(START, actions)
    ensures OneLive(Run(START, actions).workers)
  {
    StartIsSafe();
    RunKeepsLive(START, actions);
  }

  // ---- a creator that queues a task its pipeline is at work on -------------------------------------------

  /** A retried repair has been linked by its creator, and has failed meanwhile. */
  lemma RetriedRepairFailed(title: string) returns (s: System, i: nat)
    requires CleanTitle(title) && RepairDepth(title) == 0
    ensures Reachable(s) && |s.db.tasks| == 2 && s.db.tasks[0].status == s.db.tasks[1].status == Failed
    ensures 1 < i < |s.workers| && s.workers[1].phase == RepairReady(1)
    ensures Live(s.workers[i]) && s.workers[i].task == 1
    ensures forall j :: 0 <= j < |s.workers| && j != i ==> !Live(s.workers[j])
  {
    var s0, k := DraftReclaimed(title);
    i := k;
    var s1 := Links(s0, 1, 1, 0);
    assert s1.workers[i] == s0.workers[i];
    s := FailsAtOnce(s1, i, 1);
  }

  /** No user's command, but the creator's own step, then makes READY what a pipeline is at work on. */
  lemma CreatorQueuesLive(title: string) returns (s: System)
    requires CleanTitle(title) && RepairDepth(title) == 0
    ensures Reachable(s) && LiveExclusive(s.db, s.workers) && 1 < |s.workers| && s.workers[1].phase == RepairReady(1)
    ensures QueuesLive(s, Act(1, Go)) && !LiveExclusive(Next(s, Act(1, Go)).db, Next(s, Act(1, Go)).workers)
  {
    var failed, i := RetriedRepairFailed(title);
    s := failed;
    assert !NoneLive(s.workers, 1);
    assert StepOf(s.db, s.workers[1], Go).op == Transition(1, Ready);
    QueueingLiveBreaks(s, Act(1, Go));
  }

  // ---- a run with two pipelines at work on one task ----------------------------------------------------

  lemma Asks(s: System, i: nat, task: nat) returns (t: System)
    requires Reachable(s) && At(s, i, task, ActionLoop) && s.db.tasks[task].status == InProgress && HasAttempt(s, i)
    ensures Stretch(s, t, i) && At(t, i, task, CancelAttempt) && HasAttempt(t, i)
    ensures t.db.tasks == SetStatus(s.db.tasks, task, NeedUserInput) && t.workers[i].claim == s.workers[i].claim
  {
    t := Acts(s, i, AskUser, Transition(task, NeedUserInput), CancelAttempt);
  }

  lemma EndsCancelled(s: System, i: nat, task: nat) returns (t: System)
    requires Reachable(s) && At(s, i, task, CancelAttempt) && HasAttempt(s, i)
    ensures Stretch(s, t, i) && At(t, i, task, RepairRead) && t.db.tasks == s.db.tasks
    ensures t.workers[i].claim == s.workers[i].claim
  {
    t := Acts(s, i, Go, CompleteAttempt(s.workers[i].attempt, AttemptCancelled), RepairRead);
  }

  lemma ReadsInProgress(s: System, i: nat, task: nat) returns (t: System)
    requires Reachable(s) && At(s, i, task, RepairRead) && s.db.tasks[task].status == InProgress
    ensures Stretch(s, t, i) && t.db.tasks == s.db.tasks
    ensures At(t, i, task, RepairMark(RootNow(s, task))) && t.workers[i].claim == s.workers[i].claim
  {
    t := Acts(s, i, Go, NoOp, RepairMark(RootNow(s, task)));
  }

  /** A pipeline that failed before reads its task again, and marks FAILED what it finds in progress. */
  lemma MarksFailed(s: System, i: nat, task: nat) returns (t: System)
    requires Reachable(s) && At(s, i, task, RepairRead) && s.db.tasks[task].status == InProgress
    ensures Stretch(s, t, i) && t.db.tasks == SetStatus(s.db.tasks, task, Failed)
    ensures At(t, i, task, RepairNote(RootNow(s, task))) && t.workers[i].claim == s.workers[i].claim
  {
    var s1 := ReadsInProgress(s, i, task);
    t := Acts(s1, i, Go, Transition(task, Failed), RepairNote(RootNow(s, task)));
  }

  /** It ends its attempt, then does so, and is still at work. */
  lemma EndsAndMarksFailed(s: System, i: nat, task: nat) returns (t: System)
    requires Reachable(s) && At(s, i, task, CancelAttempt) && HasAttempt(s, i) && s.workers[i].claim.Some?
    requires s.db.tasks[task].status == InProgress
    ensures Reachable(t) && OnlyMoved(s, t, i) && t.db.tasks == SetStatus(s.db.tasks, task, Failed)
    ensures Live(t.workers[i]) && t.workers[i].task == task
  {
    var ended := EndsCancelled(s, i, task);
    t := MarksFailed(ended, i, task);
  }

  /** A pipeline asks the user. */
  lemma FirstAsks(title: string) returns (s: System)
    requires CleanTitle(title)
    ensures Reachable(s) && s.db.tasks == [Task(title, NeedUserInput)] && s.db.deps == {} && |s.workers| == 2
    ensures At(s, 1, 0, CancelAttempt) && HasAttempt(s, 1) && s.workers[1].claim.Some?
  {
    var s0 := FirstClaimed(title);
    var s1 := Tries(s0, 1, 0);
    s := Asks(s1, 1, 0);
    assert SetStatus([Task(title, InProgress)], 0, NeedUserInput) == [Task(title, NeedUserInput)];
  }

  /** The user answers before it has ended its attempt, and the task is claimed again. */
  lemma AnsweredEarly(title: string) returns (s: System)
    requires CleanTitle(title)
    ensures Reachable(s) && s.db.tasks == [Task(title, InProgress)] && |s.workers| == 5
    ensures At(s, 1, 0, CancelAttempt) && HasAttempt(s, 1) && s.workers[1].claim.Some?
    ensures At(s, 4, 0, StartAttempt) && s.workers[4].claim.Some?
  {
    var s0 := FirstAsks(title);
    var s1 := QueuedByUser(s0, Confirm(0, true), 0);
    s := ClaimsOnly(s1, 0);
    assert s.workers[1] == s.workers[..3][1] == s1.workers[..2][1] == s0.workers[1];
  }

  /** Then the first pipeline marks FAILED what the second has started. */
  lemma TwoPipelinesAtOnce(title: string) returns (s: System, first: nat, second: nat)
    requires CleanTitle(title)
    ensures Reachable(s) && s.db.tasks == [Task(title, Failed)] && first < second < |s.workers|
    ensures s.workers[second].phase == StartAttempt && s.workers[first].task == s.workers[second].task == 0
    ensures Live(s.workers[first]) && Live(s.workers[second])
  {
    first, second := 1, 4;
    var s0 := AnsweredEarly(title);
    s := EndsAndMarksFailed(s0, 1, 0);
    assert SetStatus([Task(title, InProgress)], 0, Failed) == [Task(title, Failed)];
    assert s.workers[4] == s0.workers[4];
  }
}
