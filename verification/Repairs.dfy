/** Repairing failed tasks (`internal/runtime/service_repair.go`), on an undisturbed store. */
module Repairs {
  import opened Options
  import opened TaskStatuses
  import opened Database
  import opened TaskStores
  import opened RepairDepths
  import opened Lifecycle
  import opened RunSafety
  import opened RepairLinks

  // ---- following links ------------------------------------------------------------------

  lemma {:induction false} LinkSkips(events: seq<Event>, task: nat, i: nat)
    requires i <= |events|
    requires forall k :: 0 <= k < i ==> !(events[k].RepairLinked? && events[k].task == task)
    ensures LinkOf(events, task) == LinkOf(events[i..], task)
    decreases i
  {
    if i == 0 {
      assert events[0..] == events;
    } else {
      LinkSkips(events, task, i - 1);
      assert events[i - 1..][1..] == events[i..];
    }
  }

  method RepairTargetID(store: TaskStore, task: nat) returns (target: Option<nat>)
    ensures target == LinkOf(store.events, task)
  {
    var events := store.events;
    for i := 0 to |events|
      invariant forall k :: 0 <= k < i ==> !(events[k].RepairLinked? && events[k].task == task)
    {
      LinkSkips(events, task, i);
      if events[i].RepairLinked? && events[i].task == task {
        return Some(events[i].failedTask);
      }
    }
    LinkSkips(events, task, |events|);
    return None;
  }

  method RootRepairTargetID(store: TaskStore, task: nat) returns (root: nat)
    ensures root == RootOf(store.events, task, {}, MAX_LINK_STEPS)
    ensures DepthOneForest(store.Snapshot()) ==> LinkOf(store.events, root) == None
    ensures DepthOneForest(store.Snapshot()) ==>
        root == match LinkOf(store.events, task) { case Some(r) => r case None => task }
  {
    root := task;
    var seen := {};
    ghost var steps: nat := MAX_LINK_STEPS;
    for i := 0 to MAX_LINK_STEPS
      invariant steps == MAX_LINK_STEPS - i
      invariant RootOf(store.events, root, seen, steps) == RootOf(store.events, task, {}, MAX_LINK_STEPS)
    {
      if root in seen {
        break;
      }
      seen := seen + {root};
      var next := RepairTargetID(store, root);
      if next == None {
        break;
      }
      root := next.value;
      steps := steps - 1;
    }
    if DepthOneForest(store.Snapshot()) {
      RootInForest(store.Snapshot(), task);
    }
  }

  // ---- creating a repair -----------------------------------------------------------------

  datatype RepairOutcome = RepairQueued(repair: nat) | LimitReached(created: nat)

  /** A task is marked FAILED unless it is finished or failed already, or the table forbids it. */
  function Marked(s: TaskStatus): TaskStatus {
    if s !in {Failed, Done, Cancelled} && CanTransition(s, Failed) then Failed else s
  }

  function MarkedTasks(tasks: seq<Task>, task: nat): seq<Task>
    requires task < |tasks|
  {
    SetStatus(tasks, task, Marked(tasks[task].status))
  }

  function DeltaTasks(titles: seq<string>): seq<Task> {
    seq(|titles|, i requires 0 <= i < |titles| => Task(titles[i], Ready))
  }

  ghost predicate OldLinksKept(before: seq<Event>, later: seq<Event>, count: nat) {
    forall t: nat :: t < count ==> LinkOf(later, t) == LinkOf(before, t)
  }

  method MarkFailed(store: TaskStore, task: nat)
    requires store.Valid() && task < |store.tasks|
    modifies store
    ensures store.Valid() && store.tasks == MarkedTasks(old(store.tasks), task)
        && store.dependencies == old(store.dependencies)
    ensures OldLinksKept(old(store.events), store.events, |store.tasks|)
  {
    var status := store.tasks[task].status;
    if status !in {Failed, Done, Cancelled} && CanTransition(status, Failed) {
      OtherOpsAddNoLink(store.Snapshot(), Transition(task, Failed));
      var moved := store.TransitionTask(task, Failed);
    }
  }

  /** Queues the tasks of a delta re-plan, each READY. */
  method QueueDeltaTasks(store: TaskStore, titles: seq<string>)
    requires store.Valid()
    modifies store
    ensures store.Valid() && store.tasks == old(store.tasks) + DeltaTasks(titles)
    ensures store.dependencies == old(store.dependencies)
        && OldLinksKept(old(store.events), store.events, |old(store.tasks)|)
    ensures store.project == old(store.project)
  {
    ghost var base := |store.tasks|;
    for i := 0 to |titles|
      invariant store.Valid() && store.tasks == old(store.tasks) + DeltaTasks(titles)[..i]
      invariant store.project == old(store.project)
      invariant store.dependencies == old(store.dependencies) && OldLinksKept(old(store.events), store.events, base)
    {
      var id := store.CreateTask(titles[i]);
      OtherOpsAddNoLink(store.Snapshot(), Transition(id, Ready));
      var moved := store.TransitionTask(id, Ready);
    }
  }

  method Note(store: TaskStore, task: nat, kind: string)
    requires store.Valid() && task < |store.tasks|
    modifies store
    ensures store.Valid() && store.tasks == old(store.tasks) && store.dependencies == old(store.dependencies)
    ensures OldLinksKept(old(store.events), store.events, |store.tasks|)
  {
    OtherOpsAddNoLink(store.Snapshot(), AddEvent(Noted(task, kind)));
    var noted := store.AddTaskEvent(Noted(task, kind));
  }

  /** Creates a repair task, links it to the root, and queues it. */
  method QueueRepair(store: TaskStore, title: string, root: nat) returns (repair: nat)
    requires store.Valid()
    modifies store
    ensures store.Valid() && repair == |old(store.tasks)| && store.tasks == old(store.tasks) + [Task(title, Ready)]
    ensures LinkOf(store.events, repair) == Some(root)
    ensures store.dependencies == old(store.dependencies)
        && OldLinksKept(old(store.events), store.events, |old(store.tasks)|)
  {
    NoLinkWithoutEvent(store.events, |store.tasks|);
    repair := store.CreateTask(title);
    forall t: nat ensures LinkOf(store.events + [RepairLinked(repair, root)], t)
                            == if t == repair then Some(root) else LinkOf(store.events, t) {
      LinkOfAppend(store.events, RepairLinked(repair, root), t);
    }
    var linked := store.AddTaskEvent(RepairLinked(repair, root));
    OtherOpsAddNoLink(store.Snapshot(), Transition(repair, Ready));
    var moved := store.TransitionTask(repair, Ready);
  }

  /** Marks the task FAILED where that can be, then queues its repair or the tasks of a re-plan. */
  method RepairOrReplan(store: TaskStore, task: nat, delta: seq<string>) returns (r: Result<RepairOutcome>)
    requires store.Valid()
    modifies store
    ensures store.Valid() && store.dependencies == old(store.dependencies)
    ensures r.Failure? <==> task >= |old(store.tasks)|
    ensures r.Failure? ==> store.Snapshot() == old(store.Snapshot())
    ensures r.Success? ==> OldLinksKept(old(store.events), store.events, |old(store.tasks)|)
    ensures r.Success? && RepairDepth(old(store.tasks)[task].title) < MAX_REPAIR_DEPTH ==>
              && r.value == RepairQueued(|old(store.tasks)|)
              && store.tasks == MarkedTasks(old(store.tasks), task)
                  + [Task(RepairTitle(old(store.tasks)[task].title), Ready)]
              && LinkOf(store.events, |old(store.tasks)|) == Some(RootOf(old(store.events), task, {}, MAX_LINK_STEPS))
    ensures r.Success? && RepairDepth(old(store.tasks)[task].title) >= MAX_REPAIR_DEPTH ==>
              && r.value == LimitReached(|delta|)
              && store.tasks == MarkedTasks(old(store.tasks), task) + DeltaTasks(delta)
  {
    if task >= |store.tasks| {
      return Failure(ForeignKeyViolated);
    }
    var title := store.tasks[task].title;
    var root := RootRepairTargetID(store, task);
    MarkFailed(store, task);
    Note(store, task, "task.failed");
    var depth := CountRepairDepth(title);
    if depth >= MAX_REPAIR_DEPTH {
      Note(store, task, LIMIT_REACHED);
      QueueDeltaTasks(store, delta);
      return Success(LimitReached(|delta|));
    }
    var repair := QueueRepair(store, RepairTitle(title), root);
    return Success(RepairQueued(repair));
  }

  /** The statuses in which a task is marked FAILED: those of a pipeline at work. */
  lemma MarkedIs(s: TaskStatus)
    ensures Marked(s) == if s in {InProgress, Implemented, Testing, Reviewing} then Failed else s
  {
  }

  /**
   Below the depth limit a failed task gets one READY repair, linked to the root of the
   task's own links; at the limit it gets the tasks of a re-plan instead, each READY. A task
   that a pipeline was at work on is FAILED then; no other one changes.
   */
  method CreateRepairTask(store: TaskStore, task: nat, delta: seq<string>) returns (r: Result<RepairOutcome>)
    requires store.Valid()
    modifies store
    ensures store.Valid() && store.dependencies == old(store.dependencies)
    ensures r.Failure? <==> task >= |old(store.tasks)|
    ensures r.Failure? ==> store.Snapshot() == old(store.Snapshot())
    ensures r.Success? ==> OldLinksKept(old(store.events), store.events, |old(store.tasks)|)
    ensures r.Success? ==>
              && |old(store.tasks)| <= |store.tasks|
              && forall t :: 0 <= t < |old(store.tasks)| ==>
                   var before := old(store.tasks)[t];
                   store.tasks[t] == if t == task && before.status in {InProgress, Implemented, Testing, Reviewing}
                                     then Task(before.title, Failed) else before
    ensures r.Success? && RepairDepth(old(store.tasks)[task].title) < 3 ==>
              && r.value == RepairQueued(|old(store.tasks)|) && |store.tasks| == |old(store.tasks)| + 1
              && store.tasks[|old(store.tasks)|] == Task("Fix: " + old(store.tasks)[task].title, Ready)
              && LinkOf(store.events, |old(store.tasks)|) == Some(RootOf(old(store.events), task, {}, MAX_LINK_STEPS))
    ensures r.Success? && RepairDepth(old(store.tasks)[task].title) < 3 && DepthOneForest(old(store.Snapshot())) ==>
              LinkOf(store.events, |old(store.tasks)|)
              == Some(match LinkOf(old(store.events), task) { case Some(root) => root case None => task })
    ensures r.Success? && RepairDepth(old(store.tasks)[task].title) >= 3 ==>
              && r.value == LimitReached(|delta|) && |store.tasks| == |old(store.tasks)| + |delta|
              && forall i :: 0 <= i < |delta| ==> store.tasks[|old(store.tasks)| + i] == Task(delta[i], Ready)
  {
    if task < |store.tasks| {
      MarkedIs(store.tasks[task].status);
    }
    if DepthOneForest(store.Snapshot()) {
      RootInForest(store.Snapshot(), task);
    }
    r := RepairOrReplan(store, task, delta);
  }

  // ---- after an approved repair ---------------------------------------------------------

  predicate HasFailed(s: TaskStatus) {
    s == Failed || s == ReviewFailed
  }

  /** What is marked DONE along with a repaired task: the failed repairs of it, but for the successful one. */
  predicate Superseded(db: Db, t: nat, root: nat, repair: nat) {
    t < |db.tasks| && t != repair && HasFailed(db.tasks[t].status) && LinkOf(db.events, t) == Some(root)
  }

  /** Failed tasks may be DONE afterwards; everything else, links included, is as before. */
  ghost predicate OnlyRepairs(db: Db, later: Db) {
    && |later.tasks| == |db.tasks|
    && (forall t :: 0 <= t < |db.tasks| ==>
          later.tasks[t] == db.tasks[t] || (HasFailed(db.tasks[t].status)
              && later.tasks[t] == db.tasks[t].(status := Done)))
    && (forall t: nat :: LinkOf(later.events, t) == LinkOf(db.events, t))
    && later.deps == db.deps && later.attempts == db.attempts && later.observations == db.observations
    && later.tests == db.tests && later.reviews == db.reviews && later.project == db.project
  }

  method Complete(store: TaskStore, task: nat)
    requires store.Valid() && task < |store.tasks| && HasFailed(store.tasks[task].status)
    modifies store
    ensures store.Valid() && OnlyRepairs(old(store.Snapshot()), store.Snapshot())
    ensures store.tasks == SetStatus(old(store.tasks), task, Done)
  {
    ghost var db := store.Snapshot();
    OtherOpsAddNoLink(db, Transition(task, Done));
    var moved := store.TransitionTask(task, Done);
  }

  method CompleteSupersededRepairTasks(store: TaskStore, root: nat, repair: nat)
    requires store.Valid()
    modifies store
    ensures store.Valid() && OnlyRepairs(old(store.Snapshot()), store.Snapshot())
    ensures forall t :: 0 <= t < |store.tasks| ==>
              store.tasks[t]
              == if t != repair && old(store.tasks)[t].status in {Failed, ReviewFailed}
                    && LinkOf(old(store.events), t) == Some(root) then Task(old(store.tasks)[t].title, Done)
                 else old(store.tasks)[t]
  {
    var tasks := store.tasks;
    ghost var db := store.Snapshot();
    for i := 0 to |tasks|
      invariant store.Valid() && OnlyRepairs(db, store.Snapshot())
      invariant forall t :: 0 <= t < |tasks| ==>
                  store.tasks[t] == DoneIf(t < i && Superseded(db, t, root, repair), tasks[t])
    {
      if i != repair && HasFailed(tasks[i].status) {
        var target := RepairTargetID(store, i);
        if target == Some(root) {
          Complete(store, i);
        }
      }
    }
  }

  /** The repaired task is DONE and no other repair of it is left failed. */
  ghost predicate RepairComplete(db: Db, root: nat, repair: nat) {
    root < |db.tasks| && db.tasks[root].status == Done && forall t: nat :: !Superseded(db, t, root, repair)
  }

  lemma RepairStaysComplete(db: Db, later: Db, root: nat, repair: nat)
    requires RepairComplete(db, root, repair) && OnlyRepairs(db, later)
    ensures RepairComplete(later, root, repair)
  {
    forall t: nat ensures !Superseded(later, t, root, repair) {
      assert !Superseded(db, t, root, repair);
    }
  }

  /** The rows once the failed task a repair is for, and the other failed repairs of it, are DONE. */
  function AfterRepair(db: Db, repair: nat): seq<Task> {
    match LinkOf(db.events, repair)
    case None => db.tasks
    case Some(root) =>
      if root >= |db.tasks| || !HasFailed(db.tasks[root].status) then db.tasks
      else seq(|db.tasks|, t requires 0 <= t < |db.tasks| => DoneIf(t == root || Superseded(db, t, root, repair),
          db.tasks[t]))
  }

  function DoneIf(completed: bool, task: Task): Task {
    if completed then task.(status := Done) else task
  }

  /** One failed task along the links: it and its other failed repairs become DONE. */
  method CompleteOne(store: TaskStore, root: nat, repair: nat)
    requires store.Valid() && root < |store.tasks| && HasFailed(store.tasks[root].status)
    modifies store
    ensures store.Valid() && OnlyRepairs(old(store.Snapshot()), store.Snapshot())
    ensures RepairComplete(store.Snapshot(), root, repair)
    ensures forall t :: 0 <= t < |store.tasks| ==>
              store.tasks[t] == DoneIf(t == root || Superseded(old(store.Snapshot()), t, root, repair),
                  old(store.tasks)[t])
  {
    Complete(store, root);
    CompleteSupersededRepairTasks(store, root, repair);
  }

  /** Links lead from the repair to `t`, or to what `t` is a repair of too. */
  ghost predicate LeadsTo(events: seq<Event>, repair: nat, t: nat) {
    exists path :: IsLinkPath(events, path) && path[0] == repair && |path| > 1
                   && (EndOf(path) == t || LinkOf(events, t) == Some(EndOf(path)))
  }

  /** Only tasks that links lead to have changed. */
  ghost predicate OnlyLinked(db: Db, later: Db, repair: nat) {
    |later.tasks| == |db.tasks|
    && forall t :: 0 <= t < |db.tasks| && later.tasks[t] != db.tasks[t] ==> LeadsTo(db.events, repair, t)
  }

  lemma OneMoreLink(events: seq<Event>, path: seq<nat>, target: nat)
    requires IsLinkPath(events, path) && LinkOf(events, EndOf(path)) == Some(target)
    ensures forall t: nat :: t == target || LinkOf(events, t) == Some(target) ==> LeadsTo(events, path[0], t)
  {
    LongerPath(events, path, target);
    assert EndOf(path + [target]) == target;
  }

  /** The walk has come along these links. */
  ghost predicate Along(events: seq<Event>, path: seq<nat>, repair: nat, current: nat) {
    IsLinkPath(events, path) && path[0] == repair && EndOf(path) == current
  }

  lemma OneMoreAlong(events: seq<Event>, path: seq<nat>, repair: nat, current: nat, target: nat)
    requires Along(events, path, repair, current) && LinkOf(events, current) == Some(target)
    ensures Along(events, path + [target], repair, target)
  {
    LongerPath(events, path, target);
  }

  lemma StillOnlyLinked(db: Db, now: Db, later: Db, path: seq<nat>, current: nat, root: nat, repair: nat)
    requires OnlyRepairs(db, now) && OnlyLinked(db, now, repair) && Along(db.events, path, repair, current)
    requires LinkOf(db.events, current) == Some(root) && |later.tasks| == |now.tasks|
    requires forall t :: 0 <= t < |now.tasks| ==>
               later.tasks[t] == DoneIf(t == root || Superseded(now, t, root, repair), now.tasks[t])
    ensures OnlyLinked(db, later, repair)
  {
    OneMoreLink(db.events, path, root);
  }

  /** What an approved repair's links lead to is justified. */
  lemma LedToIsJustified(db: Db, later: Db, repair: nat, attempt: nat, t: nat)
    requires OnlyRepairs(db, later) && LeadsTo(db.events, repair, t)
    requires Approved(db, attempt) && db.attempts[attempt].task == repair
    ensures Justified(later, t)
  {
    var path :| IsLinkPath(db.events, path) && path[0] == repair && |path| > 1
                && (EndOf(path) == t || LinkOf(db.events, t) == Some(EndOf(path)));
    assert JustifiedBy(later, t, path, attempt);
  }

  /** What holds of the walk after `i` links: the path it came along, and what it has completed so far. */
  ghost predicate Walked(db: Db, now: Db, repair: nat, path: seq<nat>, current: nat, i: nat) {
    && OnlyRepairs(db, now) && OnlyLinked(db, now, repair) && Along(db.events, path, repair, current)
    && (i == 0 ==> current == repair && now == db)
    && (i > 0 ==> LinkOf(db.events, repair).Some?)
    && (i > 0 ==> FirstIsComplete(db, now, repair, LinkOf(db.events, repair).value))
    && (i > 0 && DepthOneForest(db) ==>
          i == 1 && current == LinkOf(db.events, repair).value && now.tasks == AfterRepair(db, repair))
  }

  ghost predicate FirstIsComplete(db: Db, now: Db, repair: nat, root: nat) {
    root < |db.tasks| && HasFailed(db.tasks[root].status) ==> RepairComplete(now, root, repair)
  }

  /** What one link's task does to the rows. */
  ghost predicate Completes(before: Db, later: Db, root: nat, repair: nat) {
    && root < |before.tasks| && OnlyRepairs(before, later)
    && if HasFailed(before.tasks[root].status) then
         && RepairComplete(later, root, repair)
         && forall t :: 0 <= t < |before.tasks| ==>
              later.tasks[t] == DoneIf(t == root || Superseded(before, t, root, repair), before.tasks[t])
       else later == before
  }

  lemma WalkedOneMore(db: Db, before: Db, later: Db, repair: nat, path: seq<nat>, current: nat, target: nat, i: nat)
    requires Walked(db, before, repair, path, current, i) && LinkOf(db.events, current) == Some(target)
    requires Completes(before, later, target, repair)
    ensures Walked(db, later, repair, path + [target], target, i + 1)
  {
    OneMoreAlong(db.events, path, repair, current, target);
    if HasFailed(before.tasks[target].status) {
      StillOnlyLinked(db, before, later, path, current, target, repair);
      var root := LinkOf(db.events, repair).value;
      if i > 0 && root < |db.tasks| && HasFailed(db.tasks[root].status) {
        RepairStaysComplete(before, later, root, repair);
      }
    }
    if DepthOneForest(db) {
      assert i == 0;
      assert later.tasks == AfterRepair(db, repair);
    }
  }

  /** The walk along the links. */
  method FollowLinks(store: TaskStore, repair: nat) returns (r: Result<()>)
    requires store.Valid()
    modifies store
    ensures store.Valid() && OnlyRepairs(old(store.Snapshot()), store.Snapshot())
    ensures OnlyLinked(old(store.Snapshot()), store.Snapshot(), repair)
    ensures LinkOf(old(store.events), repair).Some? ==>
        FirstIsComplete(old(store.Snapshot()), store.Snapshot(), repair, LinkOf(old(store.events), repair).value)
    ensures DepthOneForest(old(store.Snapshot())) ==>
        r.Success? && store.tasks == AfterRepair(old(store.Snapshot()), repair)
  {
    ghost var db := store.Snapshot();
    var current, seen := repair, {};
    ghost var path := [repair];
    for i := 0 to MAX_LINK_STEPS
      invariant store.Valid() && Walked(db, store.Snapshot(), repair, path, current, i)
      invariant i == 0 ==> seen == {}
    {
      if current in seen {
        return Success(());
      }
      seen := seen + {current};
      var target := RepairTargetID(store, current);
      if target == None {
        return Success(());
      }
      if target.value >= |store.tasks| {
        return Failure(NoRows);
      }
      ghost var before := store.Snapshot();
      if HasFailed(store.tasks[target.value].status) {
        CompleteOne(store, target.value, repair);
      }
      WalkedOneMore(db, before, store.Snapshot(), repair, path, current, target.value, i);
      path := path + [target.value];
      current := target.value;
    }
    return Success(());
  }

  lemma CompleteMeans(db: Db, root: nat, repair: nat)
    requires RepairComplete(db, root, repair)
    ensures db.tasks[root].status == Done
    ensures forall t :: 0 <= t < |db.tasks| && t != repair && LinkOf(db.events, t) == Some(root) ==>
              db.tasks[t].status !in {Failed, ReviewFailed}
  {
    forall t | 0 <= t < |db.tasks| && t != repair && LinkOf(db.events, t) == Some(root)
      ensures db.tasks[t].status !in {Failed, ReviewFailed}
    {
      assert !Superseded(db, t, root, repair);
    }
  }

  /** In a forest exactly the repaired task, if it had failed, and its other failed repairs become DONE. */
  lemma AfterRepairIs(db: Db, repair: nat)
    ensures |AfterRepair(db, repair)| == |db.tasks|
    ensures var tasks, root := db.tasks, LinkOf(db.events, repair);
      forall t :: 0 <= t < |tasks| ==>
        AfterRepair(db, repair)[t]
        == if root.Some? && root.value < |tasks| && tasks[root.value].status in {Failed, ReviewFailed}
              && (t == root.value || (t != repair && tasks[t].status in {Failed, ReviewFailed}
                                      && LinkOf(db.events, t) == root))
           then Task(tasks[t].title, Done) else tasks[t]
  {
  }

  /**
   Follows the repair's links. If the task it repairs had failed, that task is DONE
   afterwards and no other repair of it is left failed. Where links form a forest of depth
   one, exactly that task and its other failed repairs have become DONE. And in every case
   what has become DONE is justified by the repair's approved attempt.
   */
  method CompleteRepairedTask(store: TaskStore, repair: nat) returns (r: Result<()>)
    requires store.Valid()
    modifies store
    ensures store.Valid() && OnlyRepairs(old(store.Snapshot()), store.Snapshot())
    ensures var db, root := old(store.Snapshot()), LinkOf(old(store.events), repair);
      root.Some? && root.value < |db.tasks| && db.tasks[root.value].status in {Failed, ReviewFailed} ==>
        && store.tasks[root.value].status == Done
        && forall t :: 0 <= t < |store.tasks| && t != repair && LinkOf(store.events, t) == root ==>
             store.tasks[t].status !in {Failed, ReviewFailed}
    ensures DepthOneForest(old(store.Snapshot())) ==>
              var tasks, root := old(store.tasks), LinkOf(old(store.events), repair);
              && r.Success? && |store.tasks| == |tasks|
              && forall t :: 0 <= t < |tasks| ==>
                   store.tasks[t]
                   == if root.Some? && root.value < |tasks| && tasks[root.value].status in {Failed, ReviewFailed}
                         && (t == root.value || (t != repair && tasks[t].status in {Failed, ReviewFailed}
                                                 && LinkOf(old(store.events), t) == root))
                      then Task(tasks[t].title, Done) else tasks[t]
    ensures forall attempt: nat ::
              Approved(old(store.Snapshot()), attempt) && store.attempts[attempt].task == repair ==>
              forall t :: 0 <= t < |store.tasks| && store.tasks[t] != old(store.tasks)[t] ==>
                Justified(store.Snapshot(), t)
  {
    ghost var db := store.Snapshot();
    AfterRepairIs(db, repair);
    r := FollowLinks(store, repair);
    ghost var root := LinkOf(db.events, repair);
    if root.Some? && root.value < |db.tasks| && HasFailed(db.tasks[root.value].status) {
      CompleteMeans(store.Snapshot(), root.value, repair);
    }
    forall attempt: nat, t | Approved(db, attempt) && db.attempts[attempt].task == repair
        && 0 <= t < |store.tasks| && store.tasks[t] != db.tasks[t]
      ensures Justified(store.Snapshot(), t)
    {
      LedToIsJustified(db, store.Snapshot(), repair, attempt, t);
    }
  }
}
