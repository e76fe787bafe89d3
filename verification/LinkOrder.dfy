/**
 Repair links in every reachable state, whatever users retry: links lead to older tasks whose
 titles are nested less deep, so the walk to the root ends before its cap. A link is written
 once, by the worker that created the repair; and writing one keeps a forest of depth one
 exactly when its root has got no link since it was read and nothing links to the repair yet.
 */
module LinkOrder {
  import opened Options
  import opened Text
  import opened DependencyNormalizer
  import opened Database
  import opened RepairDepths
  import opened Lifecycle
  import opened RunSafety
  import opened PendingTasks
  import opened RepairLinks
  import opened RunGuarantees

  // ---- levels --------------------------------------------------------------------------

  /** How deep a title is nested, where a blank title counts as even less than an unnested one. */
  function Level(title: string): nat {
    if Trim(title) == "" then 0 else 1 + RepairDepth(title)
  }

  lemma RepairIsOneLevelUp(failed: string)
    ensures Level(RepairTitle(failed)) == 1 + Level(failed)
  {
    RepairTitleNotBlank(failed);
    RepairIsOneDeeper(failed);
    if Trim(failed) == "" {
      TrimOfFix(failed);
      assert !(FIX <= "Fix:");
    }
  }

  function LevelOf(db: Db, task: nat): nat {
    Level(TitleOf(db, task))
  }

  /** What every link satisfies: the root is an older task past DRAFT, at a lower level, and levels end at four. */
  predicate Below(db: Db, root: nat, repair: nat) {
    && root < repair < |db.tasks| && PastDraft(db, root)
    && LevelOf(db, root) < LevelOf(db, repair) <= 1 + MAX_REPAIR_DEPTH
  }

  ghost predicate LinksDescend(db: Db) {
    forall r: nat :: LinkOf(db.events, r).Some? ==> Below(db, LinkOf(db.events, r).value, r)
  }

  // ---- the walk to the root ---------------------------------------------------------------

  /** Wherever the walk ends, it is no deeper than where it started. */
  lemma {:induction false} RootIsNoDeeper(db: Db, task: nat, seen: set<nat>, steps: nat)
    requires LinksDescend(db) && PastDraft(db, task)
    ensures var root := RootOf(db.events, task, seen, steps);
      root <= task && PastDraft(db, root) && LevelOf(db, root) <= LevelOf(db, task)
    decreases steps
  {
    if steps > 0 && task !in seen && LinkOf(db.events, task).Some? {
      RootIsNoDeeper(db, LinkOf(db.events, task).value, seen + {task}, steps - 1);
    }
  }

  ghost predicate Descends(events: seq<Event>, level: nat -> nat) {
    forall r: nat :: LinkOf(events, r).Some? ==>
      LinkOf(events, r).value < r && level(LinkOf(events, r).value) < level(r)
  }

  /** Where every link goes down a level, the walk ends before it has taken as many steps as there are levels. */
  lemma {:induction false} WalkEndsAtRoot(events: seq<Event>, level: nat -> nat, task: nat, seen: set<nat>, steps: nat)
    requires Descends(events, level) && steps > 0 && (LinkOf(events, task).Some? ==> level(task) < steps)
    requires forall t :: t in seen ==> t > task
    ensures LinkOf(events, RootOf(events, task, seen, steps)) == None
    decreases steps
  {
    match LinkOf(events, task)
    case None =>
    case Some(next) => WalkEndsAtRoot(events, level, next, seen + {task}, steps - 1);
  }

  // ---- who writes a link --------------------------------------------------------------------

  predicate HasRoot(p: Phase) {
    p.RepairMark? || p.RepairNote? || p.RepairCreate?
  }

  /** A worker that repairs knows a root no deeper than its task; one that links has a repair nobody else has linked. */
  ghost predicate LinksWell(db: Db, w: Worker) {
    && (WorksOnTask(w.phase) ==> w.claim.Some?)
    && (w.claim.Some? ==> PastDraft(db, w.task))
    && (HasRoot(w.phase) ==> PastDraft(db, w.phase.root) && LevelOf(db, w.phase.root) <= LevelOf(db, w.task))
    && (w.phase.RepairCreate? ==> LevelOf(db, w.task) <= MAX_REPAIR_DEPTH)
    && (w.phase.RepairLink? ==> Below(db, w.phase.root, w.phase.repair) && LinkOf(db.events, w.phase.repair) == None)
  }

  ghost predicate AllLinkWell(db: Db, workers: seq<Worker>) {
    forall i :: 0 <= i < |workers| ==> LinksWell(db, workers[i])
  }

  ghost predicate LinksApart(workers: seq<Worker>) {
    forall i, j :: 0 <= i < j < |workers| && workers[i].phase.RepairLink? && workers[j].phase.RepairLink? ==>
      workers[i].phase.repair != workers[j].phase.repair
  }

  ghost predicate LinksOrdered(s: System) {
    LinksDescend(s.db) && AllLinkWell(s.db, s.workers) && LinksApart(s.workers)
  }

  // ---- one step --------------------------------------------------------------------------------

  /** Where the phases of a repair come from. */
  ghost predicate RepairFlows(db: Db, w: Worker, op: Op, next: Phase) {
    && (WorksOnTask(next) ==> WorksOnTask(w.phase))
    && (HasRoot(next) ==>
          || (w.phase.RepairRead? && next.root == RootOf(db.events, w.task, {}, MAX_LINK_STEPS))
          || (HasRoot(w.phase) && next.root == w.phase.root))
    && (next.RepairCreate? ==> RepairDepth(TitleOf(db, w.task)) < MAX_REPAIR_DEPTH)
    && (next.RepairLink? ==>
          && w.phase == RepairCreate(next.root) && next.repair == |db.tasks|
          && op == CreateTask(RepairTitle(TitleOf(db, w.task))))
  }

  lemma RepairStepFlows(db: Db, w: Worker, c: Choice)
    requires InRepair(w.phase)
    requires w.phase.RepairCreate? ==> RepairDepth(TitleOf(db, w.task)) < MAX_REPAIR_DEPTH
    ensures var step := RepairStep(db, w, c);
      RepairFlows(db, w, step.op, step.next) && RepairFlows(db, w, NoOp, step.failed)
  {
  }

  lemma OtherStepFlows(db: Db, w: Worker, step: Step)
    requires OrderlyStep(db, w, step) && !InRepair(w.phase)
    requires w.phase.RepairLink? ==> step.next.RepairReady? || step.next.Over?
    ensures RepairFlows(db, w, step.op, step.next) && RepairFlows(db, w, NoOp, step.failed)
  {
  }

  lemma LinkingEnds(db: Db, w: Worker, c: Choice)
    requires w.phase.RepairLink?
    ensures StepOf(db, w, c).next.RepairReady? || StepOf(db, w, c).next.Over?
  {
  }

  lemma StepFlows(db: Db, w: Worker, c: Choice)
    requires LinksWell(db, w)
    ensures var step := StepOf(db, w, c);
      RepairFlows(db, w, step.op, step.next) && RepairFlows(db, w, NoOp, step.failed)
  {
    if InRepair(w.phase) && !c.Crash? {
      RepairStepFlows(db, w, c);
    } else if !InRepair(w.phase) {
      StepOrder(db, w, c);
      if w.phase.RepairLink? {
        LinkingEnds(db, w, c);
      }
      OtherStepFlows(db, w, StepOf(db, w, c));
    }
  }

  /** Links are only written by a worker that is about to. */
  ghost predicate WritesOwnLink(w: Worker, op: Op) {
    AddsLink(op) ==> w.phase.RepairLink? && op.event == RepairLinked(w.phase.repair, w.phase.root)
  }

  lemma BelowStays(db: Db, later: Db, root: nat, repair: nat)
    requires Extends(db, later) && Below(db, root, repair)
    ensures Below(later, root, repair)
  {
  }

  /** A worker other than the one that acts. */
  lemma LinksWellStays(db: Db, op: Op, w: Worker)
    requires Succeeds(db, op) && LinksWell(db, w)
    requires AddsLink(op) && w.phase.RepairLink? ==> op.event.task != w.phase.repair
    ensures LinksWell(Exec(db, op), w)
  {
    ExecExtends(db, op);
    if w.phase.RepairLink? {
      BelowStays(db, Exec(db, op), w.phase.root, w.phase.repair);
      LinkAfter(db, op, w.phase.repair);
    }
  }

  /** What a transaction does to the link of a task. */
  lemma LinkAfter(db: Db, op: Op, t: nat)
    requires Succeeds(db, op)
    ensures LinkOf(Exec(db, op).events, t)
            == if LinkOf(db.events, t) == None && AddsLink(op) && op.event.task == t then Some(op.event.failedTask)
               else LinkOf(db.events, t)
  {
    if AddsLink(op) {
      LinkOfAppend(db.events, op.event, t);
    } else {
      OtherOpsAddNoLink(db, op);
    }
  }

  lemma DescentStays(db: Db, w: Worker, op: Op)
    requires Succeeds(db, op) && LinksDescend(db) && LinksWell(db, w) && WritesOwnLink(w, op)
    ensures LinksDescend(Exec(db, op))
  {
    var later := Exec(db, op);
    ExecExtends(db, op);
    forall r: nat | LinkOf(later.events, r).Some? ensures Below(later, LinkOf(later.events, r).value, r) {
      LinkAfter(db, op, r);
      BelowStays(db, later, LinkOf(later.events, r).value, r);
    }
  }

  lemma NewRepairIsBelow(db: Db, root: nat, failed: nat)
    requires DbSafe(db) && PastDraft(db, root) && LevelOf(db, root) <= LevelOf(db, failed) <= MAX_REPAIR_DEPTH
    ensures var later := Exec(db, CreateTask(RepairTitle(TitleOf(db, failed))));
      Below(later, root, |db.tasks|) && LinkOf(later.events, |db.tasks|) == None
  {
    RepairIsOneLevelUp(TitleOf(db, failed));
    NoLinkWithoutEvent(db.events, |db.tasks|);
  }

  /** The worker that acts, once its phase has moved on. */
  lemma NextLinksWell(db: Db, w: Worker, op: Op, after: Worker, later: Db)
    requires DbSafe(db) && LinksDescend(db) && LinksWell(db, w) && RepairFlows(db, w, op, after.phase)
    requires Succeeds(db, op) && later == Exec(db, op) && after.task == w.task && after.claim == w.claim
    ensures LinksWell(later, after)
  {
    ExecExtends(db, op);
    if HasRoot(after.phase) {
      RootIsKnown(db, w, op, after.phase);
      LevelStays(db, later, w.task);
      LevelStays(db, later, after.phase.root);
    } else if after.phase.RepairLink? {
      NewRepairIsBelow(db, after.phase.root, w.task);
    }
  }

  lemma RootIsKnown(db: Db, w: Worker, op: Op, next: Phase)
    requires LinksDescend(db) && LinksWell(db, w) && RepairFlows(db, w, op, next) && HasRoot(next)
    ensures w.claim.Some? && PastDraft(db, w.task) && PastDraft(db, next.root)
    ensures LevelOf(db, next.root) <= LevelOf(db, w.task)
        && (next.RepairCreate? ==> LevelOf(db, w.task) <= MAX_REPAIR_DEPTH)
  {
    if w.phase.RepairRead? {
      RootIsNoDeeper(db, w.task, {}, MAX_LINK_STEPS);
    }
  }

  lemma LevelStays(db: Db, later: Db, task: nat)
    requires Extends(db, later) && task < |db.tasks|
    ensures LevelOf(later, task) == LevelOf(db, task)
  {
  }

  lemma LinksStayApart(db: Db, workers: seq<Worker>, i: nat, op: Op, after: Worker)
    requires i < |workers| && LinksApart(workers) && AllLinkWell(db, workers)
    requires RepairFlows(db, workers[i], op, after.phase)
    ensures LinksApart(workers[i := after])
  {
    forall j | 0 <= j < |workers| && workers[j].phase.RepairLink? ensures workers[j].phase.repair < |db.tasks| {
      assert LinksWell(db, workers[j]);
    }
  }

  lemma OthersLinkWell(db: Db, workers: seq<Worker>, i: nat, op: Op, later: Db, after: Worker)
    requires i < |workers| && AllLinkWell(db, workers) && LinksApart(workers)
    requires Succeeds(db, op) && WritesOwnLink(workers[i], op) && later == Exec(db, op) && LinksWell(later, after)
    ensures AllLinkWell(later, workers[i := after])
  {
    forall j | 0 <= j < |workers| && j != i ensures LinksWell(later, workers[j]) {
      LinksWellStays(db, op, workers[j]);
    }
  }

  /** The workers after a step that succeeded, but for new pipelines. */
  lemma MovedLinkWell(s: System, i: nat, step: Step, later: Db, moved: seq<Worker>)
    requires Safe(s) && LinksOrdered(s) && i < |s.workers| && Succeeds(s.db, step.op) && later == Exec(s.db, step.op)
    requires RepairFlows(s.db, s.workers[i], step.op, step.next) && WritesOwnLink(s.workers[i], step.op)
    requires moved == s.workers[i := Advanced(s.db, s.workers[i], step)]
    ensures LinksDescend(later) && AllLinkWell(later, moved) && LinksApart(moved)
  {
    var after := Advanced(s.db, s.workers[i], step);
    DescentStays(s.db, s.workers[i], step.op);
    NextLinksWell(s.db, s.workers[i], step.op, after, later);
    LinksStayApart(s.db, s.workers, i, step.op, after);
    OthersLinkWell(s.db, s.workers, i, step.op, later, after);
  }

  lemma ActKeepsLinksOrdered(s: System, i: nat, c: Choice)
    requires Safe(s) && LinksOrdered(s) && i < |s.workers|
    ensures LinksOrdered(ActStep(s, i, c))
  {
    var w := s.workers[i];
    var step := StepOf(s.db, w, c);
    assert LinksWell(s.db, w);
    StepFlows(s.db, w, c);
    StepOrder(s.db, w, c);
    if !Succeeds(s.db, step.op) {
      StoppedLinkWell(s, i, w.(phase := step.failed));
    } else {
      var moved := s.workers[i := Advanced(s.db, w, step)];
      MovedLinkWell(s, i, step, Exec(s.db, step.op), moved);
      if step.op.Claim? {
        HiredLinkWell(s.db, step.op.ids, |s.db.events|);
        JoinedLinkWell(Exec(s.db, step.op), moved, Hired(Claimed(s.db, step.op.ids), |s.db.events|));
      } else {
        assert moved + [] == moved;
      }
    }
  }

  lemma StoppedLinkWell(s: System, i: nat, after: Worker)
    requires Safe(s) && LinksOrdered(s) && i < |s.workers|
    requires RepairFlows(s.db, s.workers[i], NoOp, after.phase)
    requires after.task == s.workers[i].task && after.claim == s.workers[i].claim
    ensures LinksOrdered(System(s.db, s.workers[i := after]))
  {
    NextLinksWell(s.db, s.workers[i], NoOp, after, s.db);
    LinksStayApart(s.db, s.workers, i, NoOp, after);
    OthersLinkWell(s.db, s.workers, i, NoOp, s.db, after);
  }

  lemma JoinedLinkWell(db: Db, workers: seq<Worker>, hired: seq<Worker>)
    requires AllLinkWell(db, workers) && LinksApart(workers) && AllLinkWell(db, hired)
    requires forall k :: 0 <= k < |hired| ==> !hired[k].phase.RepairLink?
    ensures AllLinkWell(db, workers + hired) && LinksApart(workers + hired)
  {
  }

  lemma HiredLinkWell(db: Db, ids: seq<nat>, firstEvent: nat)
    ensures AllLinkWell(ClaimAll(db, ids), Hired(Claimed(db, ids), firstEvent))
  {
    HiredAreTidy(db, ids, firstEvent);
    var hired := Hired(Claimed(db, ids), firstEvent);
    forall i | 0 <= i < |hired| ensures LinksWell(ClaimAll(db, ids), hired[i]) {
      assert WorkerTidy(ClaimAll(db, ids), hired[i]);
    }
  }

  // ---- every reachable state ------------------------------------------------------------------------

  lemma PlanKeepsLinksOrdered(s: System, plan: seq<PlannedTask>, accepted: seq<bool>)
    requires LinksOrdered(s)
    ensures LinksOrdered(Next(s, PlanTasks(plan, accepted)))
  {
    var op := StorePlan(plan, accepted);
    if Succeeds(s.db, op) {
      DescentStays(s.db, Worker(Over, 0, 0, None), op);
      forall j | 0 <= j < |s.workers| ensures LinksWell(Exec(s.db, op), s.workers[j]) {
        LinksWellStays(s.db, op, s.workers[j]);
      }
    }
  }

  lemma NextKeepsLinksOrdered(s: System, a: Action)
    requires Safe(s) && LinksOrdered(s)
    ensures LinksOrdered(Next(s, a))
  {
    match a
    case Act(i, c) => if i < |s.workers| { ActKeepsLinksOrdered(s, i, c); }
    case PlanTasks(plan, accepted) => PlanKeepsLinksOrdered(s, plan, accepted);
    case StartClaim => JoinKeepsLinksOrdered(s, ListTasks, 0);
    case StartFinal => JoinKeepsLinksOrdered(s, BlockList, 0);
    case Retry(task) => JoinKeepsLinksOrdered(s, UserMove(true), task);
    case Confirm(task, approved) => JoinKeepsLinksOrdered(s, UserMove(approved), task);
  }

  lemma JoinKeepsLinksOrdered(s: System, phase: Phase, task: nat)
    requires LinksOrdered(s) && !WorksOnTask(phase) && !phase.RepairLink?
    ensures LinksOrdered(s.(workers := s.workers + [Worker(phase, task, 0, None)]))
  {
  }

  lemma {:induction false} RunKeepsLinksOrdered(s: System, actions: seq<Action>)
    requires Safe(s) && LinksOrdered(s)
    ensures LinksOrdered(Run(s, actions))
    decreases |actions|
  {
    if actions != [] {
      NextKeepsSafe(s, actions[0]);
      NextKeepsLinksOrdered(s, actions[0]);
      RunKeepsLinksOrdered(Next(s, actions[0]), actions[1..]);
    }
  }

  lemma ReachableLinksOrdered(s: System)
    requires Reachable(s)
    ensures LinksOrdered(s)
  {
    var actions :| Run(START, actions) == s;
    StartIsSafe();
    RunKeepsLinksOrdered(START, actions);
  }

  /**
   In every reachable state, user retries of any kind included, the walk along repair links
   ends at a task without one: its cap of 16 is never what stops it.
   */
  lemma RootIsAlwaysFound(s: System, task: nat)
    requires Reachable(s)
    ensures LinkOf(s.db.events, RootOf(s.db.events, task, {}, MAX_LINK_STEPS)) == None
  {
    ReachableLinksOrdered(s);
    WalkEndsAtRoot(s.db.events, t => LevelOf(s.db, t), task, {}, MAX_LINK_STEPS);
  }

  // ---- the step that writes a link ---------------------------------------------------------------------

  ghost predicate NoneLinkedTo(events: seq<Event>, task: nat) {
    forall t: nat :: LinkOf(events, t) != Some(task)
  }

  /** What a new link does to a forest of depth one. */
  lemma NewLinkInForest(db: Db, repair: nat, root: nat, later: Db)
    requires DepthOneForest(db) && LinkOf(db.events, repair) == None && repair != root && PastDraft(db, root)
    requires later == db.(events := db.events + [RepairLinked(repair, root)])
    ensures DepthOneForest(later) <==> LinkOf(db.events, root) == None && NoneLinkedTo(db.events, repair)
  {
    forall t: nat ensures LinkOf(later.events, t) == if t == repair then Some(root) else LinkOf(db.events, t) {
      LinkOfAppend(db.events, RepairLinked(repair, root), t);
    }
    if NoneLinkedTo(db.events, repair) {
      assert LinkOf(later.events, repair) == Some(root);
      if LinkOf(db.events, root) == None {
        forall r: nat | LinkOf(later.events, r).Some?
          ensures PastDraft(later, LinkOf(later.events, r).value)
          ensures LinkOf(later.events, LinkOf(later.events, r).value) == None
        {
          assert LinkOf(db.events, r) != Some(repair);
        }
        assert DepthOneForest(later);
      } else {
        assert !DepthOneForest(later);
      }
    } else {
      var t: nat :| LinkOf(db.events, t) == Some(repair);
      assert LinkOf(later.events, t) == Some(repair);
      assert !DepthOneForest(later);
    }
  }

  /**
   In every reachable state whose links form a forest of depth one, the worker that writes a
   link keeps the forest exactly when the root it read has no link by now and no task is
   linked to its repair.
   */
  lemma LinkStepIsExact(s: System, i: nat, c: Choice)
    requires Reachable(s) && DepthOneForest(s.db) && i < |s.workers| && s.workers[i].phase.RepairLink? && !c.Crash?
    ensures var repair, root := s.workers[i].phase.repair, s.workers[i].phase.root;
      DepthOneForest(Next(s, Act(i, c)).db) <==>
        LinkOf(s.db.events, root) == None && NoneLinkedTo(s.db.events, repair)
  {
    ReachableLinksOrdered(s);
    assert LinksWell(s.db, s.workers[i]);
    LinkStepWrites(s, i, c);
    NewLinkInForest(s.db, s.workers[i].phase.repair, s.workers[i].phase.root, Next(s, Act(i, c)).db);
  }

  lemma LinkStepWrites(s: System, i: nat, c: Choice)
    requires i < |s.workers| && s.workers[i].phase.RepairLink? && s.workers[i].phase.repair < |s.db.tasks| && !c.Crash?
    ensures Next(s, Act(i, c)).db
            == s.db.(events := s.db.events + [RepairLinked(s.workers[i].phase.repair, s.workers[i].phase.root)])
  {
  }
}
