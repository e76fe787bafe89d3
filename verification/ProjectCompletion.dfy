/**
 When a project is marked COMPLETED: who completes it has found all its tasks finished before,
 and only tasks created since that check can be unfinished.
 */
module ProjectCompletion {
  import opened Options
  import opened TaskStatuses
  import opened DependencyPruning
  import opened DependencyNormalizer
  import opened Database
  import opened PlanStorage
  import opened Lifecycle
  import opened RunSafety
  import opened RunGuarantees

  // ---- checks ---------------------------------------------------------------------------

  predicate HasCount(p: Phase) {
    p.FinalReview? || p.Complete?
  }

  /** The system just before action `m`. */
  ghost function Moment(actions: seq<Action>, m: nat): System
    requires m <= |actions|
  {
    Run(START, actions[..m])
  }

  /** The worker's own action `m`, taken where it stands at `phase`. */
  ghost predicate ActsAt(actions: seq<Action>, m: nat, worker: nat, phase: Phase) {
    && m < |actions| && actions[m].Act? && actions[m].worker == worker && !actions[m].choice.Crash?
    && worker < |Moment(actions, m).workers| && Moment(actions, m).workers[worker].phase == phase
  }

  /** Action `m` is the worker's check: it finds these many tasks, all DONE or CANCELLED. */
  ghost predicate ChecksAt(actions: seq<Action>, m: nat, worker: nat, count: nat) {
    && ActsAt(actions, m, worker, CountTasks)
    && |Moment(actions, m).db.tasks| == count && AllFinished(Moment(actions, m).db.tasks)
  }

  /** Action `k` marks the project COMPLETED. */
  ghost predicate CompletesAt(actions: seq<Action>, k: nat, worker: nat, count: nat) {
    ActsAt(actions, k, worker, Complete(count))
  }

  /** The same run, with more to come. */
  lemma MomentStays(first: seq<Action>, actions: seq<Action>, m: nat)
    requires first <= actions && m <= |first|
    ensures Moment(actions, m) == Moment(first, m)
    ensures m < |first| ==> actions[m] == first[m]
  {
    assert actions[..m] == first[..m];
  }

  lemma CheckStays(first: seq<Action>, actions: seq<Action>, m: nat, worker: nat, count: nat)
    requires first <= actions && m < |first|
    ensures ChecksAt(first, m, worker, count) <==> ChecksAt(actions, m, worker, count)
  {
    MomentStays(first, actions, m);
  }

  ghost predicate Checked(actions: seq<Action>, worker: nat, count: nat) {
    exists m: nat :: ChecksAt(actions, m, worker, count)
  }

  /** Every worker that knows a count has taken it itself. */
  ghost predicate AllChecked(actions: seq<Action>, workers: seq<Worker>) {
    forall i :: 0 <= i < |workers| && HasCount(workers[i].phase) ==> Checked(actions, i, workers[i].phase.count)
  }

  /** A count only comes from a check that finds all tasks finished. */
  lemma CountFollows(db: Db, w: Worker, c: Choice)
    ensures var step := StepOf(db, w, c);
      && (HasCount(step.next) ==>
            || (HasCount(w.phase) && w.phase.count == step.next.count)
            || (w.phase.CountTasks? && !c.Crash? && AllFinished(db.tasks) && step.next.count == |db.tasks|))
      && !HasCount(step.failed)
  {
    if !InFinal(w.phase) {
      StepNeeds(db, w, c);
      CountIsNeeded(db, w, StepOf(db, w, c));
    }
  }

  lemma CountIsNeeded(db: Db, w: Worker, step: Step)
    requires NextFollows(db, w, step) && !InFinal(w.phase)
    ensures !HasCount(step.next) && !HasCount(step.failed)
  {
  }

  lemma OnlyCompleteCompletes(db: Db, w: Worker, c: Choice)
    ensures StepOf(db, w, c).op.CompleteProject? ==> w.phase.Complete? && !c.Crash?
  {
  }

  lemma MoreActions(first: seq<Action>, a: Action)
    ensures Moment(first + [a], |first|) == Run(START, first)
    ensures Run(START, first + [a]) == Next(Run(START, first), a)
  {
    assert (first + [a])[..|first|] == first;
    RunInTwo(START, first, [a]);
    assert Run(Run(START, first), [a]) == Next(Run(START, first), a);
  }

  lemma CheckedStays(first: seq<Action>, a: Action, worker: nat, count: nat)
    requires Checked(first, worker, count)
    ensures Checked(first + [a], worker, count)
  {
    var m: nat :| ChecksAt(first, m, worker, count);
    CheckStays(first, first + [a], m, worker, count);
  }

  lemma {:induction false} RunIsChecked(actions: seq<Action>)
    ensures AllChecked(actions, Run(START, actions).workers)
    decreases |actions|
  {
    if actions != [] {
      var first, a := actions[..|actions| - 1], actions[|actions| - 1];
      assert actions == first + [a];
      RunIsChecked(first);
      MoreActions(first, a);
      NextIsChecked(first, a, Run(START, first));
    }
  }

  lemma NextIsChecked(first: seq<Action>, a: Action, s: System)
    requires s == Run(START, first) && AllChecked(first, s.workers)
    ensures AllChecked(first + [a], Next(s, a).workers)
  {
    var later := Next(s, a).workers;
    forall i | 0 <= i < |later| && HasCount(later[i].phase) ensures Checked(first + [a], i, later[i].phase.count) {
      CountComesFromCheck(s, a, i);
      if i < |s.workers| && HasCount(s.workers[i].phase) && s.workers[i].phase.count == later[i].phase.count {
        CheckedStays(first, a, i, later[i].phase.count);
      } else {
        MoreActions(first, a);
        assert ChecksAt(first + [a], |first|, i, later[i].phase.count);
      }
    }
  }

  /** Where a worker's count comes from: it had it already, or this is its check. */
  lemma CountComesFromCheck(s: System, a: Action, i: nat)
    requires i < |Next(s, a).workers| && HasCount(Next(s, a).workers[i].phase)
    ensures i < |s.workers|
    ensures var p, q := s.workers[i].phase, Next(s, a).workers[i].phase;
      || (HasCount(p) && p.count == q.count)
      || (a.Act? && a.worker == i && !a.choice.Crash? && p.CountTasks?
          && AllFinished(s.db.tasks) && q.count == |s.db.tasks|)
  {
    if a.Act? && a.worker < |s.workers| {
      CountFollows(s.db, s.workers[a.worker], a.choice);
    }
  }

  lemma {:induction false} ClaimCompletesNoProject(db: Db, ids: seq<nat>)
    ensures ClaimAll(db, ids).project == db.project
    decreases |ids|
  {
    if ids != [] {
      ClaimCompletesNoProject(if Claimable(db, ids[0]) then Move(db, ids[0], InProgress) else db, ids[1..]);
    }
  }

  lemma OnlyCompletingCompletes(db: Db, op: Op)
    ensures Succeeds(db, op) && !op.CompleteProject? ==> Exec(db, op).project == db.project
  {
    if op.Claim? {
      ClaimCompletesNoProject(db, op.ids);
    }
  }

  /** The action that first completes the project. */
  lemma {:induction false} SomeActionCompletes(actions: seq<Action>) returns (k: nat, worker: nat, count: nat)
    requires Run(START, actions).db.project == ProjectCompleted
    ensures CompletesAt(actions, k, worker, count)
    decreases |actions|
  {
    assert actions != [];
    var first, a := actions[..|actions| - 1], actions[|actions| - 1];
    assert actions == first + [a];
    MoreActions(first, a);
    if Run(START, first).db.project == ProjectCompleted {
      k, worker, count := SomeActionCompletes(first);
      MomentStays(first, actions, k);
    } else {
      k, worker, count := CompletionIsAnAct(Run(START, first), a, |first|);
    }
  }

  lemma CompletionIsAnAct(s: System, a: Action, now: nat) returns (k: nat, worker: nat, count: nat)
    requires s.db.project != ProjectCompleted && Next(s, a).db.project == ProjectCompleted
    ensures k == now && a.Act? && a.worker == worker && !a.choice.Crash?
    ensures worker < |s.workers| && s.workers[worker].phase == Complete(count)
  {
    k := now;
    if a.Act? && a.worker < |s.workers| {
      worker := a.worker;
      OnlyCompletingCompletes(s.db, StepOf(s.db, s.workers[worker], a.choice).op);
      OnlyCompleteCompletes(s.db, s.workers[worker], a.choice);
      count := s.workers[worker].phase.count;
    } else if a.PlanTasks? {
      OnlyCompletingCompletes(s.db, StorePlan(a.plan, a.accepted));
    }
  }

  /** The worker that completes the project checked it before. */
  lemma CompletionWasChecked(actions: seq<Action>, k: nat, worker: nat, count: nat) returns (m: nat)
    requires CompletesAt(actions, k, worker, count)
    ensures m < k && ChecksAt(actions, m, worker, count)
  {
    RunIsChecked(actions[..k]);
    m :| ChecksAt(actions[..k], m, worker, count);
    CheckStays(actions[..k], actions, m, worker, count);
  }

  lemma LaterExtends(actions: seq<Action>, m: nat, k: nat)
    requires m <= k <= |actions|
    ensures Extends(Moment(actions, m).db, Moment(actions, k).db)
  {
    assert actions[..k] == actions[..m] + actions[m..k];
    RunInTwo(START, actions[..m], actions[m..k]);
    RunExtends(Moment(actions, m), actions[m..k]);
  }

  /**
   A project is COMPLETED only by a worker that has itself found all tasks of some earlier
   moment DONE or CANCELLED; and those tasks still are, when it completes and ever after.
   */
  lemma CompletedProjectsWereFinished(actions: seq<Action>) returns (m: nat, k: nat, worker: nat, count: nat)
    requires Run(START, actions).db.project == ProjectCompleted
    ensures m < k && CompletesAt(actions, k, worker, count) && ChecksAt(actions, m, worker, count)
    ensures FinishedUpTo(Moment(actions, k).db, count) && FinishedUpTo(Run(START, actions).db, count)
  {
    k, worker, count := SomeActionCompletes(actions);
    m := CompletionWasChecked(actions, k, worker, count);
    LaterExtends(actions, m, k);
    LaterExtends(actions, m, |actions|);
    assert actions[..|actions|] == actions;
  }

  /** An action that stores new tasks: a plan, or a worker that creates a repair or a task of a re-plan. */
  predicate CreatesTasks(s: System, a: Action) {
    match a
    case PlanTasks(plan, accepted) => Succeeds(s.db, StorePlan(plan, accepted)) && plan != []
    case Act(worker, c) => worker < |s.workers| && StepOf(s.db, s.workers[worker], c).op.CreateTask?
    case _ => false
  }

  lemma OthersCreateNothing(s: System, a: Action)
    requires !CreatesTasks(s, a)
    ensures |Next(s, a).db.tasks| == |s.db.tasks|
  {
    match a
    case Act(worker, c) =>
      if worker < |s.workers| {
        StepOps(s.db, s.workers[worker], c);
        OpCreatesNothing(s.db, StepOf(s.db, s.workers[worker], c).op);
      }
    case PlanTasks(plan, accepted) =>
      if Succeeds(s.db, StorePlan(plan, accepted)) {
        assert |Normalize(plan)| == 0 by { NormalizedIsLinkable(plan); }
      }
    case _ =>
  }

  lemma OpCreatesNothing(db: Db, op: Op)
    requires !op.CreateTask? && !op.StorePlan?
    ensures Succeeds(db, op) ==> |Exec(db, op).tasks| == |db.tasks|
  {
    if op.Claim? {
      ClaimExtends(db, op.ids);
    }
  }

  ghost predicate NothingCreated(actions: seq<Action>, m: nat, k: nat)
    requires k <= |actions|
  {
    forall j: nat :: m <= j < k ==> !CreatesTasks(Moment(actions, j), actions[j])
  }

  lemma {:induction false} CountStays(actions: seq<Action>, m: nat, k: nat)
    requires m <= k <= |actions| && NothingCreated(actions, m, k)
    ensures |Moment(actions, k).db.tasks| == |Moment(actions, m).db.tasks|
    decreases k
  {
    if m < k {
      CountStays(actions, m, k - 1);
      assert actions[..k] == actions[..k - 1] + [actions[k - 1]];
      MoreActions(actions[..k - 1], actions[k - 1]);
      OthersCreateNothing(Moment(actions, k - 1), actions[k - 1]);
    }
  }

  /**
   The step that completes a project was preceded by the worker's check, at action `m`, and
   finds all tasks finished exactly when those created since then are; in particular when
   nothing was created in between.
   */
  lemma CompletingStepIsExact(actions: seq<Action>, k: nat, worker: nat, count: nat) returns (m: nat)
    requires CompletesAt(actions, k, worker, count)
    ensures m < k && ChecksAt(actions, m, worker, count)
    ensures var tasks := Moment(actions, k).db.tasks;
      AllFinished(tasks) <==> forall t :: |Moment(actions, m).db.tasks| <= t < |tasks| ==> Finished(tasks[t].status)
    ensures NothingCreated(actions, m, k) ==> AllFinished(Moment(actions, k).db.tasks)
    ensures Moment(actions, k + 1).db.project == ProjectCompleted
  {
    assert actions[..k + 1] == actions[..k] + [actions[k]];
    MoreActions(actions[..k], actions[k]);
    m := CompletionWasChecked(actions, k, worker, count);
    LaterExtends(actions, m, k);
    if NothingCreated(actions, m, k) {
      CountStays(actions, m, k);
    }
  }

  /** A worker about to take a step. */
  function Alone(db: Db, phase: Phase): System {
    System(db, [Worker(phase, 0, 0, None)])
  }

  /** A step that only reads. */
  lemma ReadingStep(db: Db, phase: Phase, c: Choice, next: Phase)
    requires Reachable(Alone(db, phase)) && StepOf(db, Worker(phase, 0, 0, None), c) == Step(NoOp, next, Over)
    ensures Reachable(Alone(db, next))
  {
    var s := Alone(db, phase);
    assert Next(s, Act(0, c)).workers == Alone(db, next).workers;
    NextIsReachable(s, Act(0, c), Alone(db, next));
  }

  lemma FinalStarts()
    ensures Reachable(Alone(EMPTY_DB, BlockList))
  {
    assert Run(START, []) == START;
    NextIsReachable(START, StartFinal, Alone(EMPTY_DB, BlockList));
  }

  lemma NothingToBlock()
    ensures Reachable(Alone(EMPTY_DB, CountTasks))
  {
    FinalStarts();
    ReadingStep(EMPTY_DB, BlockList, Go, Blocking([], 0));
    ReadingStep(EMPTY_DB, Blocking([], 0), Go, CountTasks);
  }

  lemma CheckedEmpty()
    ensures Reachable(Alone(EMPTY_DB, Complete(0)))
  {
    NothingToBlock();
    ReadingStep(EMPTY_DB, CountTasks, Go, FinalReview(0));
    ReadingStep(EMPTY_DB, FinalReview(0), Verdict(true), Complete(0));
  }

  lemma CompletedAnyway(db: Db)
    requires Reachable(Alone(db, Complete(0)))
    ensures Reachable(Alone(db.(project := ProjectCompleted), Over))
  {
    NextIsReachable(Alone(db, Complete(0)), Act(0, Go), Alone(db.(project := ProjectCompleted), Over));
  }

  /** Which can happen: here a plan is stored between the check of a run and its last step. */
  lemma CompletedTooEarly(task: PlannedTask) returns (s: System)
    requires CleanTitle(task.title)
    ensures Reachable(s) && s.db.project == ProjectCompleted && !AllFinished(s.db.tasks)
  {
    CheckedEmpty();
    var checked, plans := Alone(EMPTY_DB, Complete(0)), PlanTasks([task], [true]);
    var db := Next(checked, plans).db;
    assert |db.tasks| == 1 && db.tasks[0].status == Ready;
    NextIsReachable(checked, plans, Alone(db, Complete(0)));
    CompletedAnyway(db);
    s := Alone(db.(project := ProjectCompleted), Over);
  }
}
