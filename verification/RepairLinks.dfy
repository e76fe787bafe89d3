/**
 Repair links over whole runs: as long as no user retries a task that some worker is still
 creating, they form a forest of depth one.
 */
module RepairLinks {
  import opened Options
  import opened TaskStatuses
  import opened DependencyNormalizer
  import opened Database
  import opened Lifecycle
  import opened RunSafety
  import opened PendingTasks

  // ---- the forest ---------------------------------------------------------------------

  /** Every link leads to a task that has none itself. */
  ghost predicate DepthOneForest(db: Db) {
    forall r: nat :: LinkOf(db.events, r).Some? ==>
      var root := LinkOf(db.events, r).value; PastDraft(db, root) && LinkOf(db.events, root) == None
  }

  /** A worker that links has an unlinked repair, and it knows a root without a link. */
  ghost predicate KnowsRoot(db: Db, p: Phase) {
    && (p.RepairLink? ==> LinkOf(db.events, p.repair) == None)
    && (RootIn(p).Some? ==> PastDraft(db, RootIn(p).value) && LinkOf(db.events, RootIn(p).value) == None)
  }

  ghost predicate AllKnowRoots(db: Db, workers: seq<Worker>) {
    forall i :: 0 <= i < |workers| ==> KnowsRoot(db, workers[i].phase)
  }

  ghost predicate Linked(s: System) {
    AllKnowRoots(s.db, s.workers) && DepthOneForest(s.db)
  }

  ghost predicate Orderly(s: System) {
    Tidy(s) && DraftsHeld(s) && Linked(s)
  }

  // ---- links in a growing log ------------------------------------------------------------

  /** The link of a task is the first that was logged for it. */
  lemma {:induction false} LinkIsFirst(events: seq<Event>, task: nat, target: nat)
    ensures LinkOf(events, task) == Some(target) <==>
            exists i :: 0 <= i < |events| && events[i] == RepairLinked(task, target)
                        && forall k :: 0 <= k < i ==> !(events[k].RepairLinked? && events[k].task == task)
  {
    if events != [] {
      var rest := events[1..];
      LinkIsFirst(rest, task, target);
      if !(events[0].RepairLinked? && events[0].task == task) {
        if i :| 0 <= i < |rest| && rest[i] == RepairLinked(task, target)
                && forall k :: 0 <= k < i ==> !(rest[k].RepairLinked? && rest[k].task == task) {
          assert events[i + 1] == RepairLinked(task, target);
          assert forall k :: 0 < k < i + 1 ==> events[k] == rest[k - 1];
        }
        if i :| 0 <= i < |events| && events[i] == RepairLinked(task, target)
                && forall k :: 0 <= k < i ==> !(events[k].RepairLinked? && events[k].task == task) {
          assert rest[i - 1] == RepairLinked(task, target);
          assert forall k :: 0 <= k < i - 1 ==> rest[k] == events[k + 1];
        }
      }
    }
  }

  lemma {:induction false} LinkOfAppend(events: seq<Event>, e: Event, task: nat)
    ensures LinkOf(events + [e], task) ==
              if LinkOf(events, task).Some? then LinkOf(events, task)
              else if e.RepairLinked? && e.task == task then Some(e.failedTask) else None
    decreases |events|
  {
    if events == [] {
      assert (events + [e])[1..] == [];
    } else {
      assert (events + [e])[1..] == events[1..] + [e];
      LinkOfAppend(events[1..], e, task);
    }
  }

  /** Events that are not links leave every link as it is. */
  lemma {:induction false} LinkOfMore(events: seq<Event>, more: seq<Event>, task: nat)
    requires forall i :: 0 <= i < |more| ==> !more[i].RepairLinked?
    ensures LinkOf(events + more, task) == LinkOf(events, task)
    decreases |more|
  {
    if more == [] {
      assert events + more == events;
    } else {
      var n := |more| - 1;
      assert events + more == (events + more[..n]) + [more[n]];
      LinkOfAppend(events + more[..n], more[n], task);
      LinkOfMore(events, more[..n], task);
    }
  }

  lemma {:induction false} NoLinkWithoutEvent(events: seq<Event>, task: nat)
    requires forall i :: 0 <= i < |events| ==> events[i].task != task
    ensures LinkOf(events, task) == None
    decreases |events|
  {
    if events != [] {
      NoLinkWithoutEvent(events[1..], task);
    }
  }

  lemma {:induction false} ClaimAddsNoLink(db: Db, ids: seq<nat>)
    ensures forall t: nat :: LinkOf(ClaimAll(db, ids).events, t) == LinkOf(db.events, t)
    decreases |ids|
  {
    if ids != [] {
      var next := if Claimable(db, ids[0]) then Move(db, ids[0], InProgress) else db;
      forall t: nat ensures LinkOf(next.events, t) == LinkOf(db.events, t) {
        LinkOfAppend(db.events, StatusChanged(ids[0], Ready, InProgress), t);
      }
      ClaimAddsNoLink(next, ids[1..]);
    }
  }

  /** Only adding a link event changes a link. */
  lemma OtherOpsAddNoLink(db: Db, op: Op)
    requires Succeeds(db, op) && !AddsLink(op)
    ensures forall t: nat :: LinkOf(Exec(db, op).events, t) == LinkOf(db.events, t)
  {
    forall t: nat ensures LinkOf(Exec(db, op).events, t) == LinkOf(db.events, t) {
      match op
      case Transition(task, to) => LinkOfAppend(db.events, StatusChanged(task, db.tasks[task].status, to), t);
      case CreateAttempt(task) => LinkOfAppend(db.events, Noted(task, "task_attempt.created"), t);
      case CompleteAttempt(attempt, _) =>
        LinkOfAppend(db.events, Noted(db.attempts[attempt].task, "task_attempt.completed"), t);
      case AddEvent(event) => LinkOfAppend(db.events, event, t);
      case Claim(ids) => ClaimAddsNoLink(db, ids);
      case StorePlan(plan, accepted) => LinkOfMore(db.events, StoredEvents(|db.tasks|, accepted), t);
      case _ =>
    }
  }

  /** In a forest of depth one the root is found in one step: the link if there is one, else the task itself. */
  lemma RootInForest(db: Db, task: nat)
    requires DepthOneForest(db)
    ensures RootOf(db.events, task, {}, MAX_LINK_STEPS) ==
              match LinkOf(db.events, task) { case Some(root) => root case None => task }
    ensures LinkOf(db.events, RootOf(db.events, task, {}, MAX_LINK_STEPS)) == None
  {
    if LinkOf(db.events, task).Some? {
      var root := LinkOf(db.events, task).value;
      assert LinkOf(db.events, root) == None;
      assert RootOf(db.events, root, {task}, MAX_LINK_STEPS - 1) == root;
    }
  }

  // ---- what a step does to links ------------------------------------------------------------

  /** A task past DRAFT gets no link, and stays past DRAFT. */
  lemma UnlinkedStays(db: Db, op: Op, task: nat)
    requires Succeeds(db, op) && PastDraft(db, task) && (AddsLink(op) ==> IsDraft(db, op.event.task))
    ensures PastDraft(Exec(db, op), task)
    ensures LinkOf(Exec(db, op).events, task) == LinkOf(db.events, task)
  {
    ExecExtends(db, op);
    if AddsLink(op) {
      LinkOfAppend(db.events, op.event, task);
    } else {
      OtherOpsAddNoLink(db, op);
    }
  }

  /** A link is added from a draft to a task past DRAFT that has no link. */
  ghost predicate LinksToRoot(db: Db, op: Op) {
    AddsLink(op) ==>
      (IsDraft(db, op.event.task) && PastDraft(db, op.event.failedTask)
          && LinkOf(db.events, op.event.failedTask) == None)
  }

  lemma ForestStays(db: Db, op: Op)
    requires Succeeds(db, op) && DepthOneForest(db)
    requires LinksToRoot(db, op)
    ensures DepthOneForest(Exec(db, op))
  {
    var later := Exec(db, op);
    forall r: nat | LinkOf(later.events, r).Some?
      ensures PastDraft(later, LinkOf(later.events, r).value)
          && LinkOf(later.events, LinkOf(later.events, r).value) == None
    {
      if AddsLink(op) {
        LinkOfAppend(db.events, op.event, r);
      } else {
        OtherOpsAddNoLink(db, op);
      }
      UnlinkedStays(db, op, LinkOf(later.events, r).value);
    }
  }

  lemma StepLinksToRoot(db: Db, w: Worker, c: Choice)
    requires KnowsRoot(db, w.phase) && (Pending(w.phase).Some? ==> IsDraft(db, Pending(w.phase).value))
    ensures LinksToRoot(db, StepOf(db, w, c).op)
  {
    StepOrder(db, w, c);
  }

  /** A worker other than the one that acts. */
  lemma RootStaysKnown(db: Db, op: Op, p: Phase)
    requires Succeeds(db, op) && KnowsRoot(db, p) && LinksToRoot(db, op)
    requires AddsLink(op) && p.RepairLink? ==> op.event.task != p.repair
    ensures KnowsRoot(Exec(db, op), p)
  {
    if RootIn(p).Some? {
      UnlinkedStays(db, op, RootIn(p).value);
    }
    if p.RepairLink? {
      if AddsLink(op) {
        LinkOfAppend(db.events, op.event, p.repair);
      } else {
        OtherOpsAddNoLink(db, op);
      }
    }
  }

  /** The worker that acts, once its phase has moved on. */
  lemma NextKnowsRoot(db: Db, w: Worker, op: Op, next: Phase)
    requires DbSafe(db) && DepthOneForest(db) && WorkerTidy(db, w) && KnowsRoot(db, w.phase)
    requires OrderFollows(db, w, next) && Succeeds(db, op) && LinksToRoot(db, op)
    requires next.RepairLink? ==> op.CreateTask? && next.repair == |db.tasks|
    ensures KnowsRoot(Exec(db, op), next)
  {
    if RootIn(next).Some? {
      if RootIn(next) != RootIn(w.phase) {
        RootInForest(db, w.task);
        assert LinkOf(db.events, w.task).Some? ==> PastDraft(db, LinkOf(db.events, w.task).value);
      }
      UnlinkedStays(db, op, RootIn(next).value);
    }
    if next.RepairLink? {
      NoLinkWithoutEvent(db.events, |db.tasks|);
    }
  }

  lemma OthersKnowRoots(s: System, worker: nat, c: Choice, later: Db)
    requires Tidy(s) && AllKnowRoots(s.db, s.workers) && worker < |s.workers|
    requires Succeeds(s.db, StepOf(s.db, s.workers[worker], c).op)
    requires later == Exec(s.db, StepOf(s.db, s.workers[worker], c).op)
    requires LinksToRoot(s.db, StepOf(s.db, s.workers[worker], c).op)
    ensures forall i :: 0 <= i < |s.workers| && i != worker ==> KnowsRoot(later, s.workers[i].phase)
  {
    StepOrder(s.db, s.workers[worker], c);
    forall i | 0 <= i < |s.workers| && i != worker ensures KnowsRoot(later, s.workers[i].phase) {
      RootStaysKnown(s.db, StepOf(s.db, s.workers[worker], c).op, s.workers[i].phase);
    }
  }

  lemma MovedAreLinked(s: System, worker: nat, c: Choice)
    requires DbSafe(s.db) && Orderly(s) && worker < |s.workers|
    requires Succeeds(s.db, StepOf(s.db, s.workers[worker], c).op)
    ensures var step := StepOf(s.db, s.workers[worker], c);
      Linked(System(Exec(s.db, step.op), s.workers[worker := Advanced(s.db, s.workers[worker], step)]))
  {
    var w := s.workers[worker];
    var step := StepOf(s.db, w, c);
    assert WorkerTidy(s.db, w) && KnowsRoot(s.db, w.phase);
    StepOrder(s.db, w, c);
    StepLinksToRoot(s.db, w, c);
    ForestStays(s.db, step.op);
    NextKnowsRoot(s.db, w, step.op, step.next);
    OthersKnowRoots(s, worker, c, Exec(s.db, step.op));
  }

  // ---- whole runs -----------------------------------------------------------------------------------

  lemma ActKeepsLinked(s: System, worker: nat, c: Choice)
    requires DbSafe(s.db) && Orderly(s) && worker < |s.workers|
    ensures Linked(ActStep(s, worker, c))
  {
    var w := s.workers[worker];
    var step := StepOf(s.db, w, c);
    if !Succeeds(s.db, step.op) {
      StepOrder(s.db, w, c);
      assert WorkerTidy(s.db, w) && KnowsRoot(s.db, w.phase);
      NextKnowsRoot(s.db, w, NoOp, step.failed);
    } else {
      MovedAreLinked(s, worker, c);
      if !step.op.Claim? {
        var moved := s.workers[worker := Advanced(s.db, w, step)];
        assert moved + [] == moved;
      }
    }
  }

  lemma PlanKeepsLinked(s: System, plan: seq<PlannedTask>, accepted: seq<bool>)
    requires Linked(s)
    ensures Linked(Next(s, PlanTasks(plan, accepted)))
  {
    var op := StorePlan(plan, accepted);
    if Succeeds(s.db, op) {
      ForestStays(s.db, op);
      forall i | 0 <= i < |s.workers| ensures KnowsRoot(Exec(s.db, op), s.workers[i].phase) {
        RootStaysKnown(s.db, op, s.workers[i].phase);
      }
    }
  }

  lemma NextKeepsLinked(s: System, a: Action)
    requires DbSafe(s.db) && Orderly(s)
    ensures Linked(Next(s, a))
  {
    match a
    case Act(worker, c) => if worker < |s.workers| { ActKeepsLinked(s, worker, c); }
    case PlanTasks(plan, accepted) => PlanKeepsLinked(s, plan, accepted);
    case _ =>
  }

  lemma NextKeepsOrderly(s: System, a: Action)
    requires DbSafe(s.db) && Orderly(s) && RetriesNoPending(s, a)
    ensures Orderly(Next(s, a))
  {
    NextKeepsTidy(s, a);
    NextHoldsDrafts(s, a);
    NextKeepsLinked(s, a);
  }

  /** Unless a task is retried while it is being created, links form a forest of depth one in every state of a run. */
  lemma {:induction false} RunKeepsOrderly(s: System, actions: seq<Action>)
    requires Safe(s) && Orderly(s) && RunRetriesNoPending(s, actions)
    ensures Safe(Run(s, actions)) && Orderly(Run(s, actions))
    decreases |actions|
  {
    if actions != [] {
      NextKeepsSafe(s, actions[0]);
      NextKeepsOrderly(s, actions[0]);
      RunKeepsOrderly(Next(s, actions[0]), actions[1..]);
    }
  }

  // ---- the cap ---------------------------------------------------------------------------------

  lemma {:induction false} WalkOnChain(events: seq<Event>, task: nat, seen: set<nat>, steps: nat, n: nat)
    requires task <= n && LinkOf(events, n) == None
    requires forall t: nat :: task <= t < n ==> LinkOf(events, t) == Some(t + 1)
    requires forall t :: t in seen ==> t < task
    ensures RootOf(events, task, seen, steps) == if task + steps < n then task + steps else n
    decreases steps
  {
    if steps > 0 && task < n {
      WalkOnChain(events, task + 1, seen + {task}, steps - 1, n);
    }
  }

  /** On a chain of any length the walk gives the end, but goes no further than 16 links. */
  lemma WalkIsCapped(events: seq<Event>, n: nat)
    requires LinkOf(events, n) == None && forall t: nat :: t < n ==> LinkOf(events, t) == Some(t + 1)
    ensures RootOf(events, 0, {}, MAX_LINK_STEPS) == if n < 16 then n else 16
  {
    WalkOnChain(events, 0, {}, MAX_LINK_STEPS, n);
  }
}
