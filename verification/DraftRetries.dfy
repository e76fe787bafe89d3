/**
 What retrying a task can do while it is being created: a repair that is claimed before it is
 linked becomes the root of its own repairs, and links no longer form a forest of depth one.
 */
module DraftRetries {
  import opened Options
  import opened TaskStatuses
  import opened DependencyPruning
  import opened Database
  import opened RepairDepths
  import opened Lifecycle
  import opened PendingTasks
  import opened RepairLinks
  import opened RunGuarantees
  import opened LinkOrder
  import opened WorkerSteps

  /** The run of an unlinked task that fails at once, up to where its repair is about to be linked. */
  lemma FailsAndCreates(s: System, i: nat, task: nat) returns (t: System)
    requires Reachable(s) && AtStart(s, i, task)
    requires LinkOf(s.db.events, task) == None && RepairDepth(s.db.tasks[task].title) < MAX_REPAIR_DEPTH
    ensures Stretch(s, t, i) && At(t, i, task, RepairLink(|s.db.tasks|, task))
    ensures t.db.tasks == SetStatus(s.db.tasks, task, Failed) + [Task(RepairTitle(s.db.tasks[task].title), Draft)]
  {
    var s1 := FailsAtOnce(s, i, task);
    t := Repairs(s1, i, task);
  }

  /** A repair, task 1, is created but not yet linked; its user retries it, and it is claimed. */
  lemma DraftReclaimed(title: string) returns (s: System, i: nat)
    requires CleanTitle(title) && RepairDepth(title) == 0
    ensures Reachable(s) && s.db.tasks == [Task(title, Failed), Task(RepairTitle(title), InProgress)]
    ensures forall u: nat :: LinkOf(s.db.events, u) == None
    ensures 1 < i < |s.workers| && s.workers[1].phase == RepairLink(1, 0)
    ensures AtStart(s, i, 1) && s.workers[i].claim.Some?
    ensures forall j :: 0 <= j < |s.workers| && j != 1 && j != i ==> s.workers[j].phase == Over
  {
    var s1 := FirstRepair(title);
    var s2 := QueuedByUser(s1, Retry(1), 1);
    s := ClaimsOnly(s2, 1);
    i := |s2.workers| + 1;
    assert forall j :: 0 <= j < 2 ==> s.workers[j] == s.workers[..3][j] == s2.workers[..2][j] == s1.workers[j];
    assert s.workers[2] == s.workers[..3][2] == s2.workers[2];
  }

  /** It fails and gets a repair of its own, task 2. Now both links are still to be written. */
  lemma BothLinksPending(title: string) returns (s: System, i: nat)
    requires CleanTitle(title) && RepairDepth(title) == 0
    ensures Reachable(s) && |s.db.tasks| == 3 && PastDraft(s.db, 0) && PastDraft(s.db, 1)
    ensures forall u: nat :: LinkOf(s.db.events, u) == None
    ensures 1 < i < |s.workers| && s.workers[1].phase == RepairLink(1, 0) && s.workers[i].phase == RepairLink(2, 1)
  {
    var s0, j := DraftReclaimed(title);
    i := j;
    RepairIsOneDeeper(title);
    s := FailsAndCreates(s0, i, 1);
  }

  /** If the second link is written first, the first one then leads from a task that is a root already. */
  lemma RetriedDraftBreaksForest(title: string) returns (s: System)
    requires CleanTitle(title) && RepairDepth(title) == 0
    ensures Reachable(s) && DepthOneForest(s.db) && 1 < |s.workers| && s.workers[1].phase == RepairLink(1, 0)
    ensures LinkOf(s.db.events, 0) == None && !DepthOneForest(Next(s, Act(1, Go)).db)
  {
    var s0, i := BothLinksPending(title);
    s := Links(s0, i, 2, 1);
    assert LinkOf(s.db.events, 2) == Some(1);
    LinkStepIsExact(s, 1, Go);
  }

  /** If the first link is written first, the second one then leads to a task that was linked after it was read. */
  lemma LinkedRootBreaksForest(title: string) returns (s: System, i: nat)
    requires CleanTitle(title) && RepairDepth(title) == 0
    ensures Reachable(s) && DepthOneForest(s.db) && i < |s.workers| && s.workers[i].phase == RepairLink(2, 1)
    ensures NoneLinkedTo(s.db.events, 2) && !DepthOneForest(Next(s, Act(i, Go)).db)
  {
    var s0, j := BothLinksPending(title);
    i := j;
    s := Links(s0, 1, 1, 0);
    assert LinkOf(s.db.events, 1) == Some(0);
    LinkStepIsExact(s, i, Go);
  }

  /** A task has failed and its repair, task 1, is about to be linked by worker 1. */
  lemma FirstRepair(title: string) returns (s: System)
    requires CleanTitle(title) && RepairDepth(title) == 0
    ensures Reachable(s) && s.db.deps == {}
    ensures s.db.tasks == [Task(title, Failed), Task(RepairTitle(title), Draft)]
    ensures forall u: nat :: LinkOf(s.db.events, u) == None
    ensures |s.workers| == 2 && s.workers[0].phase == Over && s.workers[1].phase == RepairLink(1, 0)
  {
    var s0 := FirstClaimed(title);
    s := FailsAndCreates(s0, 1, 0);
    assert SetStatus([Task(title, InProgress)], 0, Failed) == [Task(title, Failed)];
  }
}
