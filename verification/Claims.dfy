/**
 Who owns a task: each READY to IN_PROGRESS event hires exactly one pipeline, and without
 user retries no task is hired for twice.
 */
module Claims {
  import opened Options
  import opened TaskStatuses
  import opened Database
  import opened Lifecycle
  import opened RunSafety
  import opened PendingTasks

  // ---- one event, one pipeline ------------------------------------------------------------

  predicate IsClaimEvent(e: Event) {
    e.StatusChanged? && e.from == Ready && e.to == InProgress
  }

  /** A pipeline's claim is the event that started its task. */
  predicate OwnsClaim(events: seq<Event>, w: Worker) {
    w.claim.Some? ==> w.claim.value < |events| && events[w.claim.value] == StatusChanged(w.task, Ready, InProgress)
  }

  predicate HasOwner(workers: seq<Worker>, event: nat) {
    exists i :: 0 <= i < |workers| && workers[i].claim == Some(event)
  }

  ghost predicate ClaimsMatchEvents(events: seq<Event>, workers: seq<Worker>) {
    && (forall i :: 0 <= i < |workers| ==> OwnsClaim(events, workers[i]))
    && (forall i, j :: 0 <= i < j < |workers| && workers[i].claim.Some? ==> workers[i].claim != workers[j].claim)
    && (forall k :: 0 <= k < |events| && IsClaimEvent(events[k]) ==> HasOwner(workers, k))
  }

  function ClaimEvents(claimed: seq<nat>): seq<Event> {
    seq(|claimed|, i requires 0 <= i < |claimed| => StatusChanged(claimed[i], Ready, InProgress))
  }

  lemma {:induction false} ClaimLogs(db: Db, ids: seq<nat>)
    ensures ClaimAll(db, ids).events == db.events + ClaimEvents(Claimed(db, ids))
    decreases |ids|
  {
    if ids != [] {
      var next := if Claimable(db, ids[0]) then Move(db, ids[0], InProgress) else db;
      ClaimLogs(next, ids[1..]);
      if Claimable(db, ids[0]) {
        assert ClaimEvents(Claimed(db, ids))
            == [StatusChanged(ids[0], Ready, InProgress)] + ClaimEvents(Claimed(next, ids[1..]));
      }
    }
  }

  lemma StoredAreNoClaims(base: nat, accepted: seq<bool>)
    ensures forall k :: 0 <= k < |accepted| ==> !IsClaimEvent(StoredEvents(base, accepted)[k])
  {
  }

  /** Only a claim logs the start of a task. */
  lemma OtherOpsClaimNothing(db: Db, op: Op)
    requires Succeeds(db, op) && !op.Claim? && (op.Transition? ==> op.to != InProgress)
    ensures db.events <= Exec(db, op).events
    ensures forall k :: |db.events| <= k < |Exec(db, op).events| ==> !IsClaimEvent(Exec(db, op).events[k])
  {
    if op.StorePlan? {
      StoredAreNoClaims(|db.tasks|, op.accepted);
      var later := Exec(db, op);
      forall k | |db.events| <= k < |later.events| ensures !IsClaimEvent(later.events[k]) {
        assert later.events[k] == StoredEvents(|db.tasks|, op.accepted)[k - |db.events|];
      }
    }
  }

  /** Other workers, and a worker's own progress, change no claim. */
  lemma ClaimsStayMatched(events: seq<Event>, later: seq<Event>, workers: seq<Worker>, after: seq<Worker>)
    requires ClaimsMatchEvents(events, workers) && events <= later && |workers| <= |after|
    requires forall k :: |events| <= k < |later| ==> !IsClaimEvent(later[k])
    requires forall i :: 0 <= i < |workers| ==> after[i].claim == workers[i].claim && after[i].task == workers[i].task
    requires forall i :: |workers| <= i < |after| ==> after[i].claim == None
    ensures ClaimsMatchEvents(later, after)
  {
    forall i | 0 <= i < |after| ensures OwnsClaim(later, after[i]) {
      assert i < |workers| ==> OwnsClaim(events, workers[i]);
    }
    forall k | 0 <= k < |later| && IsClaimEvent(later[k]) ensures HasOwner(after, k) {
      assert later[k] == events[k];
      var i :| 0 <= i < |workers| && workers[i].claim == Some(k);
      assert after[i].claim == Some(k);
    }
  }

  /** Each new pipeline's claim is the new event that says so. */
  predicate ClaimInOrder(events: seq<Event>, more: seq<Event>, hired: seq<Worker>) {
    |more| == |hired| && forall i :: 0 <= i < |hired| ==>
      hired[i].claim == Some(|events| + i) && more[i] == StatusChanged(hired[i].task, Ready, InProgress)
  }

  lemma JoinersMatch(events: seq<Event>, workers: seq<Worker>, more: seq<Event>, hired: seq<Worker>)
    requires ClaimsMatchEvents(events, workers) && ClaimInOrder(events, more, hired)
    ensures ClaimsMatchEvents(events + more, workers + hired)
  {
    var later, all := events + more, workers + hired;
    forall i | 0 <= i < |all| ensures OwnsClaim(later, all[i]) {
      assert i < |workers| ==> OwnsClaim(events, workers[i]);
    }
    forall k | 0 <= k < |later| && IsClaimEvent(later[k]) ensures HasOwner(all, k) {
      if k < |events| {
        assert HasOwner(workers, k);
        var i :| 0 <= i < |workers| && workers[i].claim == Some(k);
        assert all[i].claim == Some(k);
      } else {
        assert all[|workers| + (k - |events|)].claim == Some(k);
      }
    }
  }

  lemma HiredMatch(events: seq<Event>, workers: seq<Worker>, after: seq<Worker>, claimed: seq<nat>)
    requires ClaimsMatchEvents(events, workers) && |workers| == |after|
    requires forall i :: 0 <= i < |workers| ==> after[i].claim == workers[i].claim && after[i].task == workers[i].task
    ensures ClaimsMatchEvents(events + ClaimEvents(claimed), after + Hired(claimed, |events|))
  {
    ClaimsStayMatched(events, events, workers, after);
    JoinersMatch(events, after, ClaimEvents(claimed), Hired(claimed, |events|));
  }

  lemma NextKeepsClaims(s: System, a: Action)
    requires ClaimsMatchEvents(s.db.events, s.workers)
    ensures ClaimsMatchEvents(Next(s, a).db.events, Next(s, a).workers)
  {
    var t := Next(s, a);
    if a.Act? {
      if a.worker < |s.workers| {
        ActKeepsClaims(s, a.worker, a.choice);
      }
    } else if a.PlanTasks? {
      if Succeeds(s.db, StorePlan(a.plan, a.accepted)) {
        OtherOpsClaimNothing(s.db, StorePlan(a.plan, a.accepted));
        ClaimsStayMatched(s.db.events, t.db.events, s.workers, t.workers);
      }
    } else {
      ClaimsStayMatched(s.db.events, t.db.events, s.workers, t.workers);
    }
  }

  lemma ActKeepsClaims(s: System, worker: nat, c: Choice)
    requires ClaimsMatchEvents(s.db.events, s.workers) && worker < |s.workers|
    ensures ClaimsMatchEvents(ActStep(s, worker, c).db.events, ActStep(s, worker, c).workers)
  {
    var w := s.workers[worker];
    var step := StepOf(s.db, w, c);
    StepOps(s.db, w, c);
    if !Succeeds(s.db, step.op) {
      ClaimsStayMatched(s.db.events, s.db.events, s.workers, s.workers[worker := w.(phase := step.failed)]);
    } else {
      var after := s.workers[worker := Advanced(s.db, w, step)];
      if step.op.Claim? {
        ClaimLogs(s.db, step.op.ids);
        HiredMatch(s.db.events, s.workers, after, Claimed(s.db, step.op.ids));
      } else {
        OtherOpsClaimNothing(s.db, step.op);
        ClaimsStayMatched(s.db.events, Exec(s.db, step.op).events, s.workers, after);
        assert after + [] == after;
      }
    }
  }

  /** In every run, user retries included, claim events and pipelines correspond one to one. */
  lemma {:induction false} RunKeepsClaims(s: System, actions: seq<Action>)
    requires ClaimsMatchEvents(s.db.events, s.workers)
    ensures ClaimsMatchEvents(Run(s, actions).db.events, Run(s, actions).workers)
    decreases |actions|
  {
    if actions != [] {
      NextKeepsClaims(s, actions[0]);
      RunKeepsClaims(Next(s, actions[0]), actions[1..]);
    }
  }

  // ---- one owner, without user retries -------------------------------------------------------

  predicate Unstarted(s: TaskStatus) {
    s == Draft || s == Ready
  }

  ghost predicate NobodyHas(workers: seq<Worker>, task: nat) {
    forall i :: 0 <= i < |workers| && workers[i].claim.Some? ==> workers[i].task != task
  }

  /** No two pipelines, finished ones included, were ever hired for the same task. */
  ghost predicate OneOwner(workers: seq<Worker>) {
    forall i, j :: 0 <= i < j < |workers| && workers[i].claim.Some? && workers[j].claim.Some? ==>
        workers[i].task != workers[j].task
  }

  ghost predicate Exclusive(s: System) {
    && OneOwner(s.workers)
    && (forall t :: 0 <= t < |s.db.tasks| && Unstarted(s.db.tasks[t].status) ==> NobodyHas(s.workers, t))
    && (forall i :: 0 <= i < |s.workers| ==> !s.workers[i].phase.UserMove?)
    && (forall i :: 0 <= i < |s.workers| && s.workers[i].claim.Some? ==> s.workers[i].task < |s.db.tasks|)
  }

  predicate ByUser(a: Action) {
    a.Retry? || a.Confirm?
  }

  /** Without users a task only becomes READY when its creator queues it as a draft. */
  ghost predicate OnlyDraftsQueued(db: Db, op: Op) {
    op.Transition? && Succeeds(db, op) && Unstarted(op.to) ==> Unstarted(db.tasks[op.task].status)
  }

  lemma StepQueuesDrafts(db: Db, w: Worker, c: Choice)
    requires WorkerTidy(db, w) && (Pending(w.phase).Some? ==> IsDraft(db, Pending(w.phase).value)) && !w.phase.UserMove?
    ensures OnlyDraftsQueued(db, StepOf(db, w, c).op)
  {
    if InExecutor(w.phase) || InTester(w.phase) || InReviewer(w.phase) {
      PipelineQueuesNothing(db, w, c);
    } else {
      OthersQueueDrafts(db, w, c);
    }
  }

  lemma PipelineQueuesNothing(db: Db, w: Worker, c: Choice)
    requires InExecutor(w.phase) || InTester(w.phase) || InReviewer(w.phase)
    ensures OnlyDraftsQueued(db, StepOf(db, w, c).op)
  {
  }

  lemma OthersQueueDrafts(db: Db, w: Worker, c: Choice)
    requires WorkerTidy(db, w) && (Pending(w.phase).Some? ==> IsDraft(db, Pending(w.phase).value)) && !w.phase.UserMove?
    requires !InExecutor(w.phase) && !InTester(w.phase) && !InReviewer(w.phase)
    ensures OnlyDraftsQueued(db, StepOf(db, w, c).op)
  {
  }

  lemma {:induction false} ClaimedWereReady(db: Db, ids: seq<nat>)
    ensures forall t :: t in Claimed(db, ids) ==> t < |db.tasks| && db.tasks[t].status == Ready
    ensures forall i, j :: 0 <= i < j < |Claimed(db, ids)| ==> Claimed(db, ids)[i] != Claimed(db, ids)[j]
    ensures |ClaimAll(db, ids).tasks| == |db.tasks|
    ensures forall t :: 0 <= t < |db.tasks| ==>
              ClaimAll(db, ids).tasks[t]
                == if t in Claimed(db, ids) then db.tasks[t].(status := InProgress) else db.tasks[t]
    decreases |ids|
  {
    if ids != [] {
      var next := if Claimable(db, ids[0]) then Move(db, ids[0], InProgress) else db;
      ClaimedWereReady(next, ids[1..]);
      if Claimable(db, ids[0]) {
        assert ids[0] !in Claimed(next, ids[1..]);
        assert Claimed(db, ids) == [ids[0]] + Claimed(next, ids[1..]);
      }
    }
  }

  /** The tasks that have not started are the ones that had not, or were just created. */
  lemma UnstartedBefore(db: Db, op: Op, later: Db, t: nat)
    requires Succeeds(db, op) && later == Exec(db, op) && OnlyDraftsQueued(db, op)
    requires t < |db.tasks| <= |later.tasks| && Unstarted(later.tasks[t].status)
    ensures Unstarted(db.tasks[t].status)
    ensures op.Claim? ==> t !in Claimed(db, op.ids)
  {
    if op.Claim? {
      ClaimedWereReady(db, op.ids);
    }
  }

  /** No worker is a user's. */
  ghost predicate NoUserMoves(workers: seq<Worker>) {
    forall i :: 0 <= i < |workers| ==> !workers[i].phase.UserMove?
  }

  /** The workers after a step: the same owners, and one more for each claimed task. */
  ghost predicate SameOwners(workers: seq<Worker>, after: seq<Worker>) {
    |after| == |workers| && forall i :: 0 <= i < |workers| ==>
        after[i].claim == workers[i].claim && after[i].task == workers[i].task
  }

  lemma OwnersAfterClaim(db: Db, workers: seq<Worker>, after: seq<Worker>, ids: seq<nat>, firstEvent: nat)
    requires Exclusive(System(db, workers)) && SameOwners(workers, after) && NoUserMoves(after)
    ensures Exclusive(System(ClaimAll(db, ids), after + Hired(Claimed(db, ids), firstEvent)))
  {
    var claimed := Claimed(db, ids);
    var all := after + Hired(claimed, firstEvent);
    ClaimedWereReady(db, ids);
    forall i, j | 0 <= i < j < |all| && all[i].claim.Some? && all[j].claim.Some? ensures all[i].task != all[j].task {
      if |after| <= j {
        assert all[j].task == claimed[j - |after|];
        assert claimed[j - |after|] in claimed;
        assert NobodyHas(workers, claimed[j - |after|]);
      }
    }
    forall t | 0 <= t < |db.tasks| && Unstarted(ClaimAll(db, ids).tasks[t].status) ensures NobodyHas(all, t) {
      assert NobodyHas(workers, t);
    }
    forall i | |after| <= i < |all| ensures all[i].task < |db.tasks| {
      assert claimed[i - |after|] in claimed;
    }
  }

  lemma OwnersAfterOther(db: Db, workers: seq<Worker>, after: seq<Worker>, op: Op)
    requires Exclusive(System(db, workers)) && SameOwners(workers, after) && NoUserMoves(after)
    requires Succeeds(db, op) && !op.Claim? && OnlyDraftsQueued(db, op)
    ensures Exclusive(System(Exec(db, op), after))
  {
    var later := Exec(db, op);
    ExecExtends(db, op);
    forall t | 0 <= t < |later.tasks| && Unstarted(later.tasks[t].status) ensures NobodyHas(after, t) {
      if t < |db.tasks| {
        UnstartedBefore(db, op, later, t);
        assert NobodyHas(workers, t);
      }
    }
  }

  lemma ActKeepsExclusive(s: System, worker: nat, c: Choice)
    requires Tidy(s) && DraftsHeld(s) && Exclusive(s) && worker < |s.workers|
    ensures Exclusive(ActStep(s, worker, c))
  {
    var w := s.workers[worker];
    var step := StepOf(s.db, w, c);
    StepOrder(s.db, w, c);
    StepQueuesDrafts(s.db, w, c);
    if Succeeds(s.db, step.op) {
      var after := s.workers[worker := Advanced(s.db, w, step)];
      if step.op.Claim? {
        OwnersAfterClaim(s.db, s.workers, after, step.op.ids, |s.db.events|);
      } else {
        OwnersAfterOther(s.db, s.workers, after, step.op);
        assert after + [] == after;
      }
    } else {
      OwnersAfterOther(s.db, s.workers, s.workers[worker := w.(phase := step.failed)], NoOp);
    }
  }

  lemma NextKeepsExclusive(s: System, a: Action)
    requires Tidy(s) && DraftsHeld(s) && Exclusive(s) && !ByUser(a)
    ensures Exclusive(Next(s, a))
  {
    if a.Act? {
      if a.worker < |s.workers| {
        ActKeepsExclusive(s, a.worker, a.choice);
      }
    } else if a.PlanTasks? {
      if Succeeds(s.db, StorePlan(a.plan, a.accepted)) {
        OwnersAfterOther(s.db, s.workers, s.workers, StorePlan(a.plan, a.accepted));
      }
    } else {
      forall t | 0 <= t < |s.db.tasks| && Unstarted(s.db.tasks[t].status) ensures NobodyHas(Next(s, a).workers, t) {
        assert NobodyHas(s.workers, t);
      }
    }
  }

  predicate NoUser(actions: seq<Action>) {
    forall i :: 0 <= i < |actions| ==> !ByUser(actions[i])
  }

  /** Without user retries no task is ever owned by two pipelines. */
  lemma {:induction false} RunKeepsExclusive(s: System, actions: seq<Action>)
    requires Safe(s) && Tidy(s) && DraftsHeld(s) && Exclusive(s) && NoUser(actions)
    ensures Safe(Run(s, actions)) && Tidy(Run(s, actions)) && DraftsHeld(Run(s, actions))
    ensures Exclusive(Run(s, actions))
    decreases |actions|
  {
    if actions != [] {
      assert !ByUser(actions[0]);
      NextKeepsSafe(s, actions[0]);
      NextKeepsTidy(s, actions[0]);
      NextHoldsDrafts(s, actions[0]);
      NextKeepsExclusive(s, actions[0]);
      RunKeepsExclusive(Next(s, actions[0]), actions[1..]);
    }
  }
}
