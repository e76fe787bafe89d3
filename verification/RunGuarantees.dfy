/** What the invariants promise about any run from an empty store. */
module RunGuarantees {
  import opened Options
  import opened Digraph
  import opened TaskStatuses
  import opened DependencyPruning
  import opened DependencyNormalizer
  import opened PlanOrder
  import opened Database
  import opened EventLog
  import opened PlanStorage
  import opened RepairDepths
  import opened Lifecycle
  import opened RunSafety
  import opened PendingTasks
  import opened RepairLinks
  import opened Claims
  import opened RunBound

  lemma StartIsSafe()
    ensures Safe(START) && Orderly(START) && Exclusive(START) && ClaimsMatchEvents(START.db.events, START.workers)
  {
    forall t: nat ensures NumbersOf(START.db.attempts, t) == [] {
    }
  }

  // ---- runs in pieces -------------------------------------------------------------------

  lemma {:induction false} RunInTwo(s: System, first: seq<Action>, second: seq<Action>)
    ensures Run(s, first + second) == Run(Run(s, first), second)
    decreases |first|
  {
    if first == [] {
      assert first + second == second;
    } else {
      assert (first + second)[1..] == first[1..] + second;
      RunInTwo(Next(s, first[0]), first[1..], second);
    }
  }

  lemma NextExtends(s: System, a: Action)
    ensures Extends(s.db, Next(s, a).db)
  {
    match a
    case Act(worker, c) =>
      if worker < |s.workers| && Succeeds(s.db, StepOf(s.db, s.workers[worker], c).op) {
        ExecExtends(s.db, StepOf(s.db, s.workers[worker], c).op);
      }
    case PlanTasks(plan, accepted) =>
      if Succeeds(s.db, StorePlan(plan, accepted)) {
        ExecExtends(s.db, StorePlan(plan, accepted));
      }
    case _ =>
  }

  lemma {:induction false} RunExtends(s: System, actions: seq<Action>)
    ensures Extends(s.db, Run(s, actions).db)
    decreases |actions|
  {
    if actions != [] {
      NextExtends(s, actions[0]);
      RunExtends(Next(s, actions[0]), actions[1..]);
      ExtendsTransitive(s.db, Next(s, actions[0]).db, Run(s, actions).db);
    }
  }

  /** The states that some run leads to from an empty store. */
  ghost predicate Reachable(s: System) {
    exists actions :: Run(START, actions) == s
  }

  lemma NextIsReachable(s: System, a: Action, t: System)
    requires Reachable(s) && Next(s, a) == t
    ensures Reachable(t)
  {
    var actions :| Run(START, actions) == s;
    RunInTwo(START, actions, [a]);
    assert Run(s, [a]) == t;
    assert Run(START, actions + [a]) == t;
  }

  lemma ReachableIsSafe(s: System)
    requires Reachable(s)
    ensures Safe(s)
  {
    var actions :| Run(START, actions) == s;
    StartIsSafe();
    RunKeepsSafe(START, actions);
  }

  lemma ReachableIsTidy(s: System)
    requires Reachable(s)
    ensures Tidy(s)
  {
    var actions :| Run(START, actions) == s;
    StartIsSafe();
    RunKeepsTidy(START, actions);
  }

  // ---- dependencies ----------------------------------------------------------------------

  lemma {:induction false} StartedAfterAll(db: Db, t: nat, d: nat, n: nat)
    requires DependencySafe(db) && t < |db.tasks| && Started(db.tasks[t].status)
    requires ReachesIn<nat>(db.deps, t, d, n)
    ensures d < |db.tasks| && (d == t || db.tasks[d].status == Done)
    decreases n
  {
    if n > 0 {
      var w: nat :| (t, w) in db.deps && ReachesIn<nat>(db.deps, w, d, n - 1);
      StartedAfterAll(db, w, d, n - 1);
    }
  }

  /** In every reachable state a started task has all it waits for, directly or through others, done. */
  lemma StartedTaskWaitedForAll(s: System, t: nat, d: nat)
    requires Reachable(s) && t < |s.db.tasks| && Started(s.db.tasks[t].status)
    requires Reaches<nat>(s.db.deps, t, d) && d != t
    ensures d < |s.db.tasks| && s.db.tasks[d].status == Done
  {
    ReachableIsSafe(s);
    var n: nat :| ReachesIn<nat>(s.db.deps, t, d, n);
    StartedAfterAll(s.db, t, d, n);
  }

  /** No run can ever store a cycle of dependencies, so no task waits for itself. */
  lemma StoredGraphIsAcyclic(s: System)
    requires Reachable(s)
    ensures Acyclic<nat>(s.db.deps)
  {
    ReachableIsSafe(s);
  }

  /** Task `a` is only started once `b` is DONE. */
  predicate StartsAfter(db: Db, a: nat, b: nat) {
    a < |db.tasks| && b < |db.tasks| && (Started(db.tasks[a].status) ==> db.tasks[b].status == Done)
  }

  /** The plan's `i`-th task is one of those that run last. */
  predicate IsFinal(plan: seq<PlannedTask>, i: nat) {
    i < |plan| && plan[i].title in RolesOf(plan).finals
  }

  /**
   Once distinct titles are planned, whatever happened before and happens after, a final task
   of that plan starts only when every other task of the plan is DONE.
   */
  lemma FinalTasksRunLast(s: System, plan: seq<PlannedTask>, accepted: seq<bool>, after: seq<Action>, later: System,
          base: nat, f: nat, n: nat)
    requires Reachable(s) && DistinctPlan(plan) && |accepted| == |plan| && n < |plan|
    requires IsFinal(plan, f) && !IsFinal(plan, n)
    requires base == |s.db.tasks| && later == Run(Next(s, PlanTasks(plan, accepted)), after)
    ensures StartsAfter(later.db, base + f, base + n)
  {
    PlanIsStored(s, plan, accepted, after, later);
    FinalWaits(later.db, base, plan, f, n);
  }

  /** The plan's tasks and dependencies are among the rows. */
  ghost predicate StillStored(db: Db, base: nat, plan: seq<PlannedTask>) {
    base + |plan| <= |db.tasks| && IdEdges(base, Normalize(plan)) <= db.deps
  }

  ghost predicate PlanKept(db: Db, base: nat, plan: seq<PlannedTask>) {
    DependencySafe(db) && StillStored(db, base, plan)
  }

  lemma PlanIsStored(s: System, plan: seq<PlannedTask>, accepted: seq<bool>, after: seq<Action>, later: System)
    requires Reachable(s) && CleanTitles(plan) && |accepted| == |plan|
    requires later == Run(Next(s, PlanTasks(plan, accepted)), after)
    ensures PlanKept(later.db, |s.db.tasks|, plan)
  {
    var planned := Next(s, PlanTasks(plan, accepted));
    ReachableIsSafe(s);
    NextKeepsSafe(s, PlanTasks(plan, accepted));
    JustStored(s.db, plan, accepted);
    PlanStaysKept(planned, after, |s.db.tasks|, plan);
  }

  lemma JustStored(db: Db, plan: seq<PlannedTask>, accepted: seq<bool>)
    requires CleanTitles(plan) && |accepted| == |plan|
    ensures StillStored(Exec(db, StorePlan(plan, accepted)), |db.tasks|, plan)
  {
    assert |Titles(Normalize(plan))| == |Normalize(plan)| == |plan|;
  }

  lemma PlanStaysKept(planned: System, after: seq<Action>, base: nat, plan: seq<PlannedTask>)
    requires Safe(planned) && StillStored(planned.db, base, plan)
    ensures PlanKept(Run(planned, after).db, base, plan)
  {
    RunKeepsSafe(planned, after);
    RunExtends(planned, after);
  }

  lemma FinalWaits(db: Db, base: nat, plan: seq<PlannedTask>, f: nat, n: nat)
    requires DistinctPlan(plan) && n < |plan| && IsFinal(plan, f) && !IsFinal(plan, n)
    requires PlanKept(db, base, plan)
    ensures StartsAfter(db, base + f, base + n)
  {
    PlannedReach(base, plan, f, n);
    KeptWaits(db, base, plan, f, n);
  }

  lemma KeptWaits(db: Db, base: nat, plan: seq<PlannedTask>, f: nat, n: nat)
    requires PlanKept(db, base, plan) && StoredToWait(base, plan, f, n)
    requires f < |plan| && n < |plan| && f != n
    ensures StartsAfter(db, base + f, base + n)
  {
    StoredReachWaits(db, IdEdges(base, Normalize(plan)), base + f, base + n);
  }

  /** The stored dependencies of the plan lead from its `f`-th task to its `n`-th. */
  ghost predicate StoredToWait(base: nat, plan: seq<PlannedTask>, f: nat, n: nat) {
    Reaches<nat>(IdEdges(base, Normalize(plan)), base + f, base + n)
  }

  lemma ReachedStartsAfter(db: Db, a: nat, b: nat)
    requires DependencySafe(db) && a < |db.tasks| && b < |db.tasks| && Reaches<nat>(db.deps, a, b) && a != b
    ensures StartsAfter(db, a, b)
  {
    if Started(db.tasks[a].status) {
      var n: nat :| ReachesIn<nat>(db.deps, a, b, n);
      StartedAfterAll(db, a, b, n);
    }
  }

  /** Dependencies that are among the stored ones. */
  lemma StoredReachWaits(db: Db, edges: set<(nat, nat)>, a: nat, b: nat)
    requires DependencySafe(db) && edges <= db.deps && a < |db.tasks| && b < |db.tasks| && a != b
    requires Reaches<nat>(edges, a, b)
    ensures StartsAfter(db, a, b)
  {
    ReachesMonotone<nat>(edges, db.deps, a, b);
    ReachedStartsAfter(db, a, b);
  }

  lemma PlannedReach(base: nat, plan: seq<PlannedTask>, f: nat, n: nat)
    requires DistinctPlan(plan) && n < |plan| && IsFinal(plan, f) && !IsFinal(plan, n)
    ensures StoredToWait(base, plan, f, n) && f != n
  {
    var out := Normalize(plan);
    FinalsComeLast(plan, f, n);
    NormalizedIsLinkable(plan);
    assert Titles(out) == Titles(plan) && out[f].title == Titles(out)[f] && out[n].title == Titles(out)[n];
    TitleWalkIsIdWalk(base, out, f, n);
  }

  // ---- history ---------------------------------------------------------------------------

  /** The log tells each task's whole story, and its attempts are numbered 1, 2, 3 and so on. */
  lemma HistoryIsFaithful(s: System, t: nat)
    requires Reachable(s) && t < |s.db.tasks|
    ensures Chains(ChangesOf(s.db.events, t)) && LastStatus(ChangesOf(s.db.events, t)) == s.db.tasks[t].status
    ensures Consecutive(NumbersOf(s.db.attempts, t))
  {
    ReachableIsSafe(s);
    ReplayIsChain(s.db.events, t);
  }

  // ---- completion ------------------------------------------------------------------------

  /** `t` was approved itself, or something approved is a repair of it, or of what it is a repair of. */
  ghost predicate ApprovedFor(db: Db, t: nat, attempt: nat) {
    && Approved(db, attempt)
    && var worked := db.attempts[attempt].task;
       || worked == t || LinkOf(db.events, worked) == Some(t)
       || (LinkOf(db.events, worked).Some? && LinkOf(db.events, worked) == LinkOf(db.events, t))
  }

  /** Every DONE task is justified by an approved attempt, along repair links. */
  lemma DoneTasksAreJustified(s: System, t: nat)
    requires Reachable(s) && t < |s.db.tasks| && s.db.tasks[t].status == Done
    ensures Justified(s.db, t)
  {
    ReachableIsSafe(s);
  }

  /** Unless a task is retried while it is being created, the path is at most one link long. */
  lemma DoneTasksWereApproved(actions: seq<Action>, t: nat)
    requires RunRetriesNoPending(START, actions)
    requires t < |Run(START, actions).db.tasks| && Run(START, actions).db.tasks[t].status == Done
    ensures exists attempt :: ApprovedFor(Run(START, actions).db, t, attempt)
  {
    StartIsSafe();
    RunKeepsOrderly(START, actions);
    ApprovedInForest(Run(START, actions).db, t);
  }

  lemma LinkAt(events: seq<Event>, path: seq<nat>, i: nat)
    requires IsLinkPath(events, path) && i < |path| - 1
    ensures LinkOf(events, path[i]) == Some(path[i + 1])
  {
  }

  lemma ShortPath(db: Db, path: seq<nat>)
    requires DepthOneForest(db) && IsLinkPath(db.events, path)
    ensures |path| <= 2 && (|path| == 2 ==> LinkOf(db.events, path[0]) == Some(path[1]))
  {
    if |path| >= 2 {
      LinkAt(db.events, path, 0);
    }
    if |path| > 2 {
      LinkAt(db.events, path, 1);
    }
  }

  lemma ApprovedInForest(db: Db, t: nat)
    requires DepthOneForest(db) && Justified(db, t)
    ensures exists attempt :: ApprovedFor(db, t, attempt)
  {
    var path, attempt :| JustifiedBy(db, t, path, attempt);
    ShortPath(db, path);
    assert ApprovedFor(db, t, attempt);
  }

  // ---- ownership and repairs -------------------------------------------------------------------

  /**
   Every READY to IN_PROGRESS event of a run is the claim of exactly one pipeline; without
   user actions no two pipelines ever worked on the same task.
   */
  lemma ClaimsAreExclusive(actions: seq<Action>)
    ensures var s := Run(START, actions);
      && ClaimsMatchEvents(s.db.events, s.workers)
      && (NoUser(actions) ==> OneOwner(s.workers))
  {
    StartIsSafe();
    RunKeepsClaims(START, actions);
    if NoUser(actions) {
      RunKeepsExclusive(START, actions);
    }
  }

  /**
   Unless a task is retried while it is being created, every repair links straight to its
   root, which the search finds at once.
   */
  lemma RepairsLinkToRoots(actions: seq<Action>, t: nat)
    requires RunRetriesNoPending(START, actions)
    ensures var events := Run(START, actions).db.events;
      && (LinkOf(events, t).Some? ==> LinkOf(events, LinkOf(events, t).value) == None)
      && RootOf(events, t, {}, MAX_LINK_STEPS) == (match LinkOf(events, t) { case Some(root) => root case None => t })
  {
    StartIsSafe();
    RunKeepsOrderly(START, actions);
    RootInForest(Run(START, actions).db, t);
  }

  // ---- how many runs a plan leads to -----------------------------------------------------------

  lemma {:induction false} WaitingIsSmall(tasks: seq<Task>)
    ensures Waiting(tasks) <= (1 + MAX_REPAIR_DEPTH) * |tasks|
  {
    if tasks != [] {
      WaitingIsSmall(tasks[..|tasks| - 1]);
    }
  }

  lemma {:induction false} WaitingConcat(tasks: seq<Task>, more: seq<Task>)
    ensures Waiting(tasks + more) == Waiting(tasks) + Waiting(more)
    decreases |more|
  {
    if more == [] {
      assert tasks + more == tasks;
    } else {
      var n := |more| - 1;
      assert tasks + more == (tasks + more[..n]) + [more[n]];
      WaitingAppend(tasks + more[..n], more[n]);
      WaitingConcat(tasks, more[..n]);
    }
  }

  lemma {:induction false} FinishedWereStarted(workers: seq<Worker>)
    ensures RunsFinished(workers) <= RunsStarted(workers)
  {
    if workers != [] {
      FinishedWereStarted(workers[..|workers| - 1]);
    }
  }

  lemma StoredTitlesNotBlank(plan: seq<PlannedTask>, accepted: seq<bool>)
    requires CleanTitles(plan) && |accepted| == |plan|
    ensures |Normalize(plan)| == |plan| && TitlesNotBlank(StoredTasks(Normalize(plan), accepted))
  {
    var out := Normalize(plan);
    forall i | 0 <= i < |plan| ensures CleanTitle(out[i].title) {
      assert out[i].title == Titles(out)[i] == Titles(plan)[i] == plan[i].title;
    }
  }

  lemma {:induction false} OwedWithNewTasks(db: Db, later: Db, workers: seq<Worker>, more: seq<Task>)
    requires AllTidy(db, workers) && later.tasks == db.tasks + more
    ensures Owed(later, workers) == Owed(db, workers)
    decreases |workers|
  {
    if workers != [] {
      assert WorkerTidy(db, workers[|workers| - 1]);
      OwedWithNewTasks(db, later, workers[..|workers| - 1], more);
    }
  }

  /** New tasks add four runs each at most. */
  lemma NewTasksAddFour(s: System, later: Db, more: seq<Task>)
    requires AllTidy(s.db, s.workers) && Settled(s) && TitlesNotBlank(more)
    requires later.tasks == s.db.tasks + more
    ensures Settled(System(later, s.workers)) && Potential(System(later, s.workers)) <= Potential(s) + 4 * |more|
  {
    PipelineTasksExist(s.db, s.workers);
    WaitingConcat(s.db.tasks, more);
    WaitingIsSmall(more);
    RunningStays(s.db, later, s.workers);
    OwedWithNewTasks(s.db, later, s.workers, more);
    SettledStays(s.db, later, s.workers);
  }

  lemma PlanAddsFour(s: System, plan: seq<PlannedTask>, accepted: seq<bool>)
    requires AllTidy(s.db, s.workers) && Settled(s) && CleanTitles(plan) && |accepted| == |plan|
    ensures var t := Next(s, PlanTasks(plan, accepted));
      t.workers == s.workers && Settled(t) && Potential(t) <= Potential(s) + 4 * |plan|
  {
    StoredTitlesNotBlank(plan, accepted);
    var t := Next(s, PlanTasks(plan, accepted));
    NewTasksAddFour(s, t.db, StoredTasks(Normalize(plan), accepted));
    assert t == System(t.db, s.workers);
  }

  lemma PlannedPotential(s: System, plan: seq<PlannedTask>, accepted: seq<bool>, after: seq<Action>)
    requires Safe(s) && Tidy(s) && Settled(s) && NoUserMoves(s.workers)
    requires CleanTitles(plan) && |accepted| == |plan|
    requires forall i :: 0 <= i < |after| ==> Quiet(after[i])
    ensures RunsStarted(Run(Next(s, PlanTasks(plan, accepted)), after).workers) <= Potential(s) + 4 * |plan|
  {
    NextKeepsSafe(s, PlanTasks(plan, accepted));
    NextKeepsTidy(s, PlanTasks(plan, accepted));
    PlanAddsFour(s, plan, accepted);
    RunsAreBounded(Next(s, PlanTasks(plan, accepted)), after);
  }

  /**
   A plan of `n` tasks, made in any reachable state in which no re-plan and no user command
   is under way, adds at most `4 * n` task runs, repairs included, to those that were waiting,
   in flight or to be queued again, until the next plan or user action.
   */
  lemma PlanLeadsToBoundedRuns(s: System, plan: seq<PlannedTask>, accepted: seq<bool>, after: seq<Action>)
    requires Reachable(s) && Settled(s) && NoUserMoves(s.workers)
    requires CleanTitles(plan) && |accepted| == |plan|
    requires forall i :: 0 <= i < |after| ==> Quiet(after[i])
    ensures var t := Run(s, [PlanTasks(plan, accepted)] + after);
      && RunsStarted(t.workers) - RunsFinished(s.workers) <= Measure(s) + 4 * |plan|
      && (Measure(s) == 0 ==> RunsStarted(t.workers) - RunsStarted(s.workers) <= 4 * |plan|)
  {
    ReachableIsSafe(s);
    ReachableIsTidy(s);
    assert ([PlanTasks(plan, accepted)] + after)[1..] == after;
    PlannedPotential(s, plan, accepted, after);
    RunningIsLiveOrFinished(s.db, s.workers);
    FinishedWereStarted(s.workers);
  }
}
