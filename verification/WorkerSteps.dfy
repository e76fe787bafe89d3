/**
 Steps and short stretches of one worker's code in a reachable state, to build runs from.
 Each leads to a reachable state, and says what it changed.
 */
module WorkerSteps {
  import opened Options
  import opened TaskStatuses
  import opened DependencyPruning
  import opened DependencyNormalizer
  import opened Database
  import opened PlanStorage
  import opened RepairDepths
  import opened Lifecycle
  import opened RepairLinks
  import opened RunGuarantees

  // ---- what a stretch leaves as it is -------------------------------------------------------

  predicate NotesLimit(e: Event) {
    e.Noted? && e.kind == LIMIT_REACHED
  }

  /** How often the log says that a repair limit was reached. */
  function LimitsReached(events: seq<Event>): nat {
    if events == [] then 0
    else LimitsReached(events[..|events| - 1]) + if NotesLimit(events[|events| - 1]) then 1 else 0
  }

  lemma LimitsAppend(events: seq<Event>, e: Event)
    ensures LimitsReached(events + [e]) == LimitsReached(events) + if NotesLimit(e) then 1 else 0
  {
    assert (events + [e])[..|events|] == events;
  }

  ghost predicate OnlyMoved(s: System, t: System, i: nat) {
    |t.workers| == |s.workers| && forall j :: 0 <= j < |s.workers| && j != i ==> t.workers[j] == s.workers[j]
  }

  /** No link was written and no limit reached. */
  ghost predicate SameStory(s: System, t: System) {
    && (forall u: nat :: LinkOf(t.db.events, u) == LinkOf(s.db.events, u))
    && LimitsReached(t.db.events) == LimitsReached(s.db.events)
  }

  /** Only worker `i` moved, and nothing was linked. */
  ghost predicate Stretch(s: System, t: System, i: nat) {
    Reachable(t) && OnlyMoved(s, t, i) && SameStory(s, t) && t.db.deps == s.db.deps
  }

  predicate Plain(op: Op) {
    match op
    case Transition(_, _) => true
    case CreateTask(_) => true
    case CreateAttempt(_) => true
    case CompleteAttempt(_, _) => true
    case NoOp => true
    case AddEvent(e) => e.Noted? && !NotesLimit(e)
    case _ => false
  }

  lemma PlainTellsNothing(db: Db, op: Op)
    requires Succeeds(db, op) && Plain(op)
    ensures LimitsReached(Exec(db, op).events) == LimitsReached(db.events)
  {
    match op
    case Transition(task, to) => LimitsAppend(db.events, StatusChanged(task, db.tasks[task].status, to));
    case CreateAttempt(task) =>
      assert "task_attempt.created"[0] != LIMIT_REACHED[0];
      LimitsAppend(db.events, Noted(task, "task_attempt.created"));
    case CompleteAttempt(attempt, _) =>
      assert "task_attempt.completed"[0] != LIMIT_REACHED[0];
      LimitsAppend(db.events, Noted(db.attempts[attempt].task, "task_attempt.completed"));
    case AddEvent(e) => LimitsAppend(db.events, e);
    case _ =>
  }

  /** A step of worker `i` that succeeds and links nothing. */
  lemma Acts(s: System, i: nat, c: Choice, op: Op, next: Phase) returns (t: System)
    requires Reachable(s) && i < |s.workers| && Succeeds(s.db, op) && Plain(op)
    requires StepOf(s.db, s.workers[i], c).op == op && StepOf(s.db, s.workers[i], c).next == next
    ensures Stretch(s, t, i) && t.db == Exec(s.db, op)
    ensures t.workers[i] == Advanced(s.db, s.workers[i], Step(op, next, Over))
  {
    t := Next(s, Act(i, c));
    NextIsReachable(s, Act(i, c), t);
    OtherOpsAddNoLink(s.db, op);
    PlainTellsNothing(s.db, op);
  }

  // ---- executing ---------------------------------------------------------------------------

  predicate At(s: System, i: nat, task: nat, phase: Phase) {
    i < |s.workers| && s.workers[i].phase == phase && s.workers[i].task == task && task < |s.db.tasks|
  }

  predicate HasAttempt(s: System, i: nat) {
    i < |s.workers| && s.workers[i].attempt < |s.db.attempts|
  }

  predicate AtStart(s: System, i: nat, task: nat) {
    At(s, i, task, StartAttempt) && s.db.tasks[task].status == InProgress
  }

  lemma Tries(s: System, i: nat, task: nat) returns (t: System)
    requires Reachable(s) && AtStart(s, i, task)
    ensures Stretch(s, t, i) && At(t, i, task, ActionLoop) && t.db.tasks == s.db.tasks && HasAttempt(t, i)
    ensures t.workers[i].claim == s.workers[i].claim
  {
    t := Acts(s, i, Go, CreateAttempt(task), ActionLoop);
  }

  lemma Fails(s: System, i: nat, task: nat) returns (t: System)
    requires Reachable(s) && At(s, i, task, ActionLoop) && s.db.tasks[task].status == InProgress && HasAttempt(s, i)
    ensures Stretch(s, t, i) && At(t, i, task, FailAttempt) && t.db.tasks == SetStatus(s.db.tasks, task, Failed)
    ensures HasAttempt(t, i) && t.workers[i].claim == s.workers[i].claim
  {
    t := Acts(s, i, FailNow, Transition(task, Failed), FailAttempt);
  }

  lemma EndsFailed(s: System, i: nat, task: nat) returns (t: System)
    requires Reachable(s) && At(s, i, task, FailAttempt) && HasAttempt(s, i)
    ensures Stretch(s, t, i) && At(t, i, task, RepairRead) && t.db.tasks == s.db.tasks
    ensures t.workers[i].claim == s.workers[i].claim
  {
    t := Acts(s, i, Go, CompleteAttempt(s.workers[i].attempt, AttemptFailed), RepairRead);
  }

  /** The run of a task that fails at once. */
  lemma FailsAtOnce(s: System, i: nat, task: nat) returns (t: System)
    requires Reachable(s) && AtStart(s, i, task)
    ensures Stretch(s, t, i) && At(t, i, task, RepairRead) && t.db.tasks == SetStatus(s.db.tasks, task, Failed)
    ensures t.workers[i].claim == s.workers[i].claim
  {
    var s1 := Tries(s, i, task);
    var s2 := Fails(s1, i, task);
    t := EndsFailed(s2, i, task);
  }

  // ---- repairing ----------------------------------------------------------------------------

  function RootNow(s: System, task: nat): nat {
    RootOf(s.db.events, task, {}, MAX_LINK_STEPS)
  }

  lemma ReadsFailed(s: System, i: nat, task: nat) returns (t: System)
    requires Reachable(s) && At(s, i, task, RepairRead) && s.db.tasks[task].status == Failed
    ensures Stretch(s, t, i) && At(t, i, task, RepairNote(RootNow(s, task))) && t.db.tasks == s.db.tasks
  {
    t := Acts(s, i, Go, NoOp, RepairNote(RootNow(s, task)));
  }

  /** A failure is noted; below the depth limit a repair is about to be created. */
  lemma NotesFailure(s: System, i: nat, task: nat, root: nat) returns (t: System)
    requires Reachable(s) && At(s, i, task, RepairNote(root))
    ensures Stretch(s, t, i) && t.db.tasks == s.db.tasks
    ensures At(t, i, task, if RepairDepth(s.db.tasks[task].title) < MAX_REPAIR_DEPTH then RepairCreate(root)
        else RepairLimit)
  {
    assert "task.failed"[0] != LIMIT_REACHED[0];
    t := Acts(s, i, Go, AddEvent(Noted(task, "task.failed")),
      if RepairDepth(s.db.tasks[task].title) < MAX_REPAIR_DEPTH then RepairCreate(root) else RepairLimit);
  }

  lemma CreatesRepair(s: System, i: nat, task: nat, root: nat) returns (t: System)
    requires Reachable(s) && At(s, i, task, RepairCreate(root))
    ensures Stretch(s, t, i) && At(t, i, task, RepairLink(|s.db.tasks|, root))
    ensures t.db.tasks == s.db.tasks + [Task(RepairTitle(s.db.tasks[task].title), Draft)]
  {
    t := Acts(s, i, Go, CreateTask(RepairTitle(s.db.tasks[task].title)), RepairLink(|s.db.tasks|, root));
  }

  /** From a failed task below the depth limit to its repair, not yet linked. */
  lemma Repairs(s: System, i: nat, task: nat) returns (t: System)
    requires Reachable(s) && At(s, i, task, RepairRead) && s.db.tasks[task].status == Failed
    requires RepairDepth(s.db.tasks[task].title) < MAX_REPAIR_DEPTH
    ensures Stretch(s, t, i) && At(t, i, task, RepairLink(|s.db.tasks|, RootNow(s, task)))
    ensures t.db.tasks == s.db.tasks + [Task(RepairTitle(s.db.tasks[task].title), Draft)]
  {
    var s1 := ReadsFailed(s, i, task);
    var s2 := NotesFailure(s1, i, task, RootNow(s, task));
    t := CreatesRepair(s2, i, task, RootNow(s, task));
  }

  /** A link is written. */
  lemma Links(s: System, i: nat, repair: nat, root: nat) returns (t: System)
    requires Reachable(s) && i < |s.workers| && s.workers[i].phase == RepairLink(repair, root) && repair < |s.db.tasks|
    requires LinkOf(s.db.events, repair) == None
    ensures Reachable(t) && OnlyMoved(s, t, i) && t.db.tasks == s.db.tasks && t.db.deps == s.db.deps
    ensures t.workers[i] == s.workers[i].(phase := RepairReady(repair))
    ensures forall u: nat :: LinkOf(t.db.events, u) == if u == repair then Some(root) else LinkOf(s.db.events, u)
    ensures LimitsReached(t.db.events) == LimitsReached(s.db.events)
  {
    t := Next(s, Act(i, Go));
    NextIsReachable(s, Act(i, Go), t);
    LinkEventLinks(s.db.events, repair, root);
  }

  lemma LinkEventLinks(events: seq<Event>, repair: nat, root: nat)
    requires LinkOf(events, repair) == None
    ensures var later := events + [RepairLinked(repair, root)];
      && (forall u: nat :: LinkOf(later, u) == if u == repair then Some(root) else LinkOf(events, u))
      && LimitsReached(later) == LimitsReached(events)
  {
    forall u: nat
      ensures LinkOf(events + [RepairLinked(repair, root)], u) == if u == repair then Some(root) else LinkOf(events, u)
    {
      LinkOfAppend(events, RepairLinked(repair, root), u);
    }
    LimitsAppend(events, RepairLinked(repair, root));
  }

  // ---- claiming -------------------------------------------------------------------------------

  /** New workers joined behind those there were. */
  predicate Joined(s: System, t: System, more: nat) {
    |t.workers| == |s.workers| + more && s.workers == t.workers[..|s.workers|]
  }

  lemma Joins(s: System, a: Action, phase: Phase, task: nat) returns (t: System)
    requires Reachable(s) && Next(s, a) == System(s.db, s.workers + [Worker(phase, task, 0, None)])
    ensures Reachable(t) && t.db == s.db && Joined(s, t, 1) && t.workers[|s.workers|] == Worker(phase, task, 0, None)
  {
    t := Next(s, a);
    NextIsReachable(s, a, t);
  }

  lemma ClaimOfOne(db: Db, task: nat)
    requires Claimable(db, task)
    ensures Claimed(db, [task]) == [task] && ClaimAll(db, [task]) == Move(db, task, InProgress)
  {
    assert [task][1..] == [];
    assert ClaimAll(Move(db, task, InProgress), []) == Move(db, task, InProgress);
  }

  lemma ClaimMoves(s: System, n: nat, task: nat)
    requires |s.workers| == n + 1 && s.workers[n].phase == ClaimTx([task]) && Claimable(s.db, task)
    ensures Next(s, Act(n, Go)) == System(
              Move(s.db, task, InProgress),
              s.workers[n := s.workers[n].(phase := Over)] + Hired([task], |s.db.events|))
  {
    ClaimOfOne(s.db, task);
  }

  lemma MoveTellsNothing(db: Db, task: nat, to: TaskStatus)
    requires task < |db.tasks|
    ensures forall u: nat :: LinkOf(Move(db, task, to).events, u) == LinkOf(db.events, u)
    ensures LimitsReached(Move(db, task, to).events) == LimitsReached(db.events)
  {
    forall u: nat ensures LinkOf(Move(db, task, to).events, u) == LinkOf(db.events, u) {
      LinkOfAppend(db.events, StatusChanged(task, db.tasks[task].status, to), u);
    }
    LimitsAppend(db.events, StatusChanged(task, db.tasks[task].status, to));
  }

  lemma ClaimsOne(s: System, n: nat, task: nat) returns (t: System)
    requires Reachable(s) && |s.workers| == n + 1 && s.workers[n].phase == ClaimTx([task]) && Claimable(s.db, task)
    ensures Reachable(t) && t.db == Move(s.db, task, InProgress) && SameStory(s, t)
    ensures |t.workers| == n + 2 && s.workers[..n] == t.workers[..n] && t.workers[n].phase == Over
    ensures AtStart(t, n + 1, task) && t.workers[n + 1].claim.Some?
  {
    ClaimMoves(s, n, task);
    t := System(
      Move(s.db, task, InProgress), s.workers[n := s.workers[n].(phase := Over)] + Hired([task], |s.db.events|));
    NextIsReachable(s, Act(n, Go), t);
    MoveTellsNothing(s.db, task, InProgress);
  }

  /** The only task that can be claimed. */
  predicate OnlyReady(db: Db, task: nat) {
    Claimable(db, task) && db.deps == {} && forall t :: 0 <= t < |db.tasks| && t != task ==> db.tasks[t].status != Ready
  }

  lemma {:induction false} OnlyCandidate(db: Db, task: nat, from: nat)
    requires OnlyReady(db, task) && from <= task
    ensures Candidates(db.tasks, db.deps, 1, from) == [task]
    decreases task - from
  {
    if from < task {
      OnlyCandidate(db, task, from + 1);
    } else {
      assert Candidates(db.tasks, db.deps, 0, from + 1) == [];
    }
  }

  lemma OthersStay(s: System, t: System, later: System, more: nat)
    requires more > 0 && Joined(s, t, more) && OnlyMoved(t, later, |s.workers|)
    ensures Joined(s, later, more)
  {
    forall j | 0 <= j < |s.workers| ensures later.workers[j] == s.workers[j] {
      assert t.workers[..|s.workers|][j] == t.workers[j];
    }
  }

  /** A new scheduler lists and picks the only READY task. */
  lemma PicksOnly(s: System, task: nat) returns (t: System)
    requires Reachable(s) && OnlyReady(s.db, task)
    ensures Reachable(t) && t.db == s.db && Joined(s, t, 1) && t.workers[|s.workers|].phase == ClaimTx([task])
  {
    var n := |s.workers|;
    var s0 := Joins(s, StartClaim, ListTasks, 0);
    var s1 := Acts(s0, n, Go, NoOp, ListDeps(s.db.tasks));
    OnlyCandidate(s.db, task, 0);
    t := Acts(s1, n, Go, NoOp, ClaimTx([task]));
    OthersStay(s, s0, s1, 1);
    OthersStay(s, s1, t, 1);
  }

  /** One claim of the only READY task. */
  lemma ClaimsOnly(s: System, task: nat) returns (t: System)
    requires Reachable(s) && OnlyReady(s.db, task)
    ensures Reachable(t) && t.db == Move(s.db, task, InProgress) && SameStory(s, t) && Joined(s, t, 2)
    ensures t.workers[|s.workers|].phase == Over && AtStart(t, |s.workers| + 1, task)
    ensures t.workers[|s.workers| + 1].claim.Some?
  {
    var picked := PicksOnly(s, task);
    t := ClaimsOne(picked, |s.workers|, task);
  }

  // ---- users ------------------------------------------------------------------------------------

  /** A user's command carried out: the task is READY. */
  lemma QueuedByUser(s: System, a: Action, task: nat) returns (t: System)
    requires Reachable(s) && task < |s.db.tasks| && CanTransition(s.db.tasks[task].status, Ready)
    requires Next(s, a) == System(s.db, s.workers + [Worker(UserMove(true), task, 0, None)])
    ensures Reachable(t) && t.db == Move(s.db, task, Ready) && SameStory(s, t) && Joined(s, t, 1)
    ensures t.workers[|s.workers|].phase == Over
  {
    var s0 := Joins(s, a, UserMove(true), task);
    t := Acts(s0, |s.workers|, Go, Transition(task, Ready), Over);
    OthersStay(s, s0, t, 1);
  }

  // ---- a first task ---------------------------------------------------------------------------------

  lemma NoLoop(edges: set<(nat, nat)>, a: nat, b: nat)
    requires forall a, b :: (a, b) in edges ==> 0 <= a < 1 && 0 <= b < 1 && a != b
    ensures (a, b) !in edges
  {
  }

  lemma OneTaskHasNoEdge(edges: set<(nat, nat)>)
    requires forall a, b :: (a, b) in edges ==> 0 <= a < 1 && 0 <= b < 1 && a != b
    ensures edges == {}
  {
    var none: set<(nat, nat)> := {};
    forall e | e in edges ensures e in none {
      NoLoop(edges, e.0, e.1);
    }
  }

  /** A plan of one task is stored. */
  lemma OnePlanned(title: string) returns (s: System)
    requires CleanTitle(title)
    ensures Reachable(s) && s.db.deps == {} && s.db.tasks == [Task(title, Ready)] && s.workers == []
    ensures LimitsReached(s.db.events) == 0 && forall u: nat :: LinkOf(s.db.events, u) == None
  {
    var plan := [PlannedTask(title, [], false, false, false)];
    s := Next(START, PlanTasks(plan, [true]));
    assert Run(START, []) == START;
    NextIsReachable(START, PlanTasks(plan, [true]), s);
    NormalizedIsLinkable(plan);
    IdEdgesInRange(0, Normalize(plan));
    assert Normalize(plan)[0].title == Titles(Normalize(plan))[0] == Titles(plan)[0];
    OneTaskHasNoEdge(s.db.deps);
    forall u: nat ensures LinkOf(s.db.events, u) == None {
      LinkOfMore([], StoredEvents(0, [true]), u);
    }
    assert s.db.events == StoredEvents(0, [true]) == [StatusChanged(0, Draft, Ready)];
    LimitsAppend([], StatusChanged(0, Draft, Ready));
    assert [] + [StatusChanged(0, Draft, Ready)] == [StatusChanged(0, Draft, Ready)];
  }

  /** A plan of one task is stored, and the task is claimed. */
  lemma FirstClaimed(title: string) returns (s: System)
    requires CleanTitle(title)
    ensures Reachable(s) && s.db.deps == {} && s.db.tasks == [Task(title, InProgress)]
    ensures |s.workers| == 2 && s.workers[0].phase == Over && AtStart(s, 1, 0) && s.workers[1].claim.Some?
    ensures forall u: nat :: LinkOf(s.db.events, u) == None
  {
    var s0 := OnePlanned(title);
    s := ClaimsOnly(s0, 0);
  }
}
