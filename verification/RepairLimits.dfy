/**
 Re-plans after the repair limit: nothing bounds how often a project goes through them, since
 the tasks of a re-plan start without any repairs of their own.
 */
module RepairLimits {
  import opened Options
  import opened Text
  import opened TaskStatuses
  import opened DependencyPruning
  import opened Database
  import opened RepairDepths
  import opened Lifecycle
  import opened PendingTasks
  import opened RepairLinks
  import opened RunGuarantees
  import opened WorkerSteps

  /** The tasks of one round: the failed task and its failed repairs, up to the depth limit. */
  function RoundOf(title: string): seq<Task>
    requires Trim(title) != ""
    decreases if RepairDepth(title) < MAX_REPAIR_DEPTH then MAX_REPAIR_DEPTH - RepairDepth(title) else 0
  {
    RepairTitleNotBlank(title);
    RepairIsOneDeeper(title);
    [Task(title, Failed)] + if RepairDepth(title) < MAX_REPAIR_DEPTH then RoundOf(RepairTitle(title)) else []
  }

  function RoundsOf(title: string, n: nat): seq<Task>
    requires Trim(title) != ""
  {
    if n == 0 then [] else RoundsOf(title, n - 1) + RoundOf(title)
  }

  predicate AllFailed(tasks: seq<Task>) {
    forall t :: 0 <= t < |tasks| ==> tasks[t].status == Failed
  }

  predicate OthersOver(workers: seq<Worker>, i: nat) {
    forall j :: 0 <= j < |workers| && j != i ==> workers[j].phase == Over
  }

  /** Some tasks have failed, one is READY, and nobody is at work. */
  ghost predicate Resting(s: System, failed: seq<Task>, title: string) {
    && Reachable(s) && s.db.deps == {} && AllFailed(failed) && s.db.tasks == failed + [Task(title, Ready)]
    && OthersOver(s.workers, |s.workers|)
  }

  /** The last of some failed tasks is in the hands of worker `i`, which stands at `phase`. */
  ghost predicate Handling(s: System, failed: seq<Task>, i: nat, phase: Phase) {
    && Reachable(s) && s.db.deps == {} && AllFailed(failed) && s.db.tasks == failed && failed != []
    && At(s, i, |failed| - 1, phase) && OthersOver(s.workers, i)
  }

  lemma LastMoves(tasks: seq<Task>, title: string, from: TaskStatus, to: TaskStatus)
    ensures SetStatus(tasks + [Task(title, from)], |tasks|, to) == tasks + [Task(title, to)]
  {
  }

  /** The READY task is claimed. */
  lemma NextStarts(s: System, failed: seq<Task>, title: string) returns (t: System)
    requires Resting(s, failed, title)
    ensures Reachable(t) && t.db.deps == {} && t.db.tasks == failed + [Task(title, InProgress)]
    ensures AtStart(t, |s.workers| + 1, |failed|) && OthersOver(t.workers, |s.workers| + 1)
    ensures LimitsReached(t.db.events) == LimitsReached(s.db.events)
  {
    assert OnlyReady(s.db, |failed|);
    t := ClaimsOnly(s, |failed|);
    LastMoves(failed, title, Ready, InProgress);
    forall j | 0 <= j < |s.workers| ensures t.workers[j].phase == Over {
      assert t.workers[j] == t.workers[..|s.workers|][j];
    }
  }

  /** The READY task is claimed and fails. */
  lemma NextFails(s: System, failed: seq<Task>, title: string) returns (t: System, i: nat)
    requires Resting(s, failed, title)
    ensures Handling(t, failed + [Task(title, Failed)], i, RepairRead)
    ensures LimitsReached(t.db.events) == LimitsReached(s.db.events)
  {
    i := |s.workers| + 1;
    var started := NextStarts(s, failed, title);
    t := FailsAtOnce(started, i, |failed|);
    LastMoves(failed, title, InProgress, Failed);
    OneMoreFailed(t, failed, title, i);
  }

  lemma OneMoreFailed(s: System, failed: seq<Task>, title: string, i: nat)
    requires Reachable(s) && s.db.deps == {} && AllFailed(failed) && s.db.tasks == failed + [Task(title, Failed)]
    requires At(s, i, |failed|, RepairRead) && OthersOver(s.workers, i)
    ensures Handling(s, failed + [Task(title, Failed)], i, RepairRead)
  {
  }

  /** Below the depth limit it gets a repair, which is linked and queued. */
  lemma GetsRepair(s: System, failed: seq<Task>, i: nat) returns (t: System)
    requires Handling(s, failed, i, RepairRead) && RepairDepth(failed[|failed| - 1].title) < MAX_REPAIR_DEPTH
    ensures Resting(t, failed, RepairTitle(failed[|failed| - 1].title))
    ensures LimitsReached(t.db.events) == LimitsReached(s.db.events)
  {
    var linked := GetsLinkedRepair(s, i, |failed| - 1);
    t := Queues(linked, i, |failed|);
    LastMoves(failed, RepairTitle(failed[|failed| - 1].title), Draft, Ready);
  }

  lemma GetsLinkedRepair(s: System, i: nat, task: nat) returns (t: System)
    requires Reachable(s) && At(s, i, task, RepairRead) && s.db.tasks[task].status == Failed
    requires RepairDepth(s.db.tasks[task].title) < MAX_REPAIR_DEPTH
    ensures Reachable(t) && OnlyMoved(s, t, i) && t.workers[i].phase == RepairReady(|s.db.tasks|)
    ensures t.db.tasks == s.db.tasks + [Task(RepairTitle(s.db.tasks[task].title), Draft)] && t.db.deps == s.db.deps
    ensures LimitsReached(t.db.events) == LimitsReached(s.db.events)
  {
    var created := Repairs(s, i, task);
    NewIsUnlinked(s, created);
    t := Links(created, i, |s.db.tasks|, RootNow(s, task));
  }

  /** No link was written for a task that did not exist. */
  lemma NewIsUnlinked(s: System, t: System)
    requires Reachable(s) && SameStory(s, t)
    ensures LinkOf(t.db.events, |s.db.tasks|) == None
  {
    ReachableIsSafe(s);
    NoLinkWithoutEvent(s.db.events, |s.db.tasks|);
  }

  lemma Queues(s: System, i: nat, task: nat) returns (t: System)
    requires Reachable(s) && i < |s.workers| && s.workers[i].phase == RepairReady(task) && IsDraft(s.db, task)
    ensures Stretch(s, t, i) && t.db.tasks == SetStatus(s.db.tasks, task, Ready) && t.workers[i].phase == Over
  {
    t := Acts(s, i, Go, Transition(task, Ready), Over);
  }

  /** At the depth limit that is noted, and the planner gives one new task, which is queued. */
  lemma GetsReplan(s: System, failed: seq<Task>, i: nat, title: string) returns (t: System)
    requires Handling(s, failed, i, RepairRead) && RepairDepth(failed[|failed| - 1].title) >= MAX_REPAIR_DEPTH
    ensures Resting(t, failed, title)
    ensures LimitsReached(t.db.events) == LimitsReached(s.db.events) + 1
  {
    var noted := ReachesLimit(s, i, |failed| - 1, title);
    t := QueuesDelta(noted, i, title);
  }

  lemma ReachesLimit(s: System, i: nat, task: nat, title: string) returns (t: System)
    requires Reachable(s) && At(s, i, task, RepairRead) && s.db.tasks[task].status == Failed
    requires RepairDepth(s.db.tasks[task].title) >= MAX_REPAIR_DEPTH
    ensures Reachable(t) && OnlyMoved(s, t, i) && t.workers[i].phase == DeltaCreate([title])
    ensures t.db.tasks == s.db.tasks && t.db.deps == s.db.deps
    ensures LimitsReached(t.db.events) == LimitsReached(s.db.events) + 1
  {
    var s1 := ReadsFailed(s, i, task);
    var s2 := NotesFailure(s1, i, task, RootNow(s, task));
    t := NotesLimitReached(s2, i, task, title);
  }

  lemma NotesLimitReached(s: System, i: nat, task: nat, title: string) returns (t: System)
    requires Reachable(s) && At(s, i, task, RepairLimit)
    ensures Reachable(t) && OnlyMoved(s, t, i) && At(t, i, task, DeltaCreate([title]))
    ensures t.db.tasks == s.db.tasks && t.db.deps == s.db.deps
    ensures LimitsReached(t.db.events) == LimitsReached(s.db.events) + 1
  {
    t := Next(s, Act(i, NewTasks([title])));
    NextIsReachable(s, Act(i, NewTasks([title])), t);
    assert t.db == Exec(s.db, AddEvent(Noted(task, LIMIT_REACHED)));
    LimitsAppend(s.db.events, Noted(task, LIMIT_REACHED));
  }

  lemma CreatesDelta(s: System, i: nat, title: string) returns (t: System)
    requires Reachable(s) && i < |s.workers| && s.workers[i].phase == DeltaCreate([title])
    ensures Stretch(s, t, i) && t.workers[i].phase == DeltaReady(|s.db.tasks|, [])
    ensures t.db.tasks == s.db.tasks + [Task(title, Draft)]
  {
    assert [title][1..] == [];
    t := Acts(s, i, Go, CreateTask(title), DeltaReady(|s.db.tasks|, []));
  }

  lemma ReadiesDelta(s: System, i: nat, task: nat) returns (t: System)
    requires Reachable(s) && i < |s.workers| && s.workers[i].phase == DeltaReady(task, []) && IsDraft(s.db, task)
    ensures Stretch(s, t, i) && t.db.tasks == SetStatus(s.db.tasks, task, Ready)
    ensures t.workers[i].phase == DeltaCreate([])
  {
    t := Acts(s, i, Go, Transition(task, Ready), DeltaCreate([]));
  }

  lemma EndsDelta(s: System, i: nat) returns (t: System)
    requires Reachable(s) && i < |s.workers| && s.workers[i].phase == DeltaCreate([])
    ensures Stretch(s, t, i) && t.db.tasks == s.db.tasks && t.workers[i].phase == Over
  {
    t := Acts(s, i, Go, NoOp, Over);
  }

  lemma QueuesDelta(s: System, i: nat, title: string) returns (t: System)
    requires Reachable(s) && i < |s.workers| && s.workers[i].phase == DeltaCreate([title])
    ensures Stretch(s, t, i) && t.workers[i].phase == Over
    ensures t.db.tasks == s.db.tasks + [Task(title, Ready)]
  {
    var s1 := CreatesDelta(s, i, title);
    var s2 := ReadiesDelta(s1, i, |s.db.tasks|);
    LastMoves(s.db.tasks, title, Draft, Ready);
    t := EndsDelta(s2, i);
  }

  lemma RoundStarts(failed: seq<Task>, title: string)
    requires Trim(title) != ""
    ensures RepairDepth(title) >= MAX_REPAIR_DEPTH ==> failed + [Task(title, Failed)] == failed + RoundOf(title)
    ensures Trim(RepairTitle(title)) != "" && RepairDepth(RepairTitle(title)) == 1 + RepairDepth(title)
    ensures RepairDepth(title) < MAX_REPAIR_DEPTH ==>
        failed + [Task(title, Failed)] + RoundOf(RepairTitle(title)) == failed + RoundOf(title)
  {
    RepairTitleNotBlank(title);
    RepairIsOneDeeper(title);
  }

  /** A task fails, so do its repairs up to the depth limit, and a re-plan queues a task. */
  lemma {:induction false} Round(s: System, failed: seq<Task>, title: string, next: string) returns (t: System)
    requires Resting(s, failed, title) && Trim(title) != ""
    ensures Resting(t, failed + RoundOf(title), next)
    ensures LimitsReached(t.db.events) == LimitsReached(s.db.events) + 1
    decreases if RepairDepth(title) < MAX_REPAIR_DEPTH then MAX_REPAIR_DEPTH - RepairDepth(title) else 0
  {
    var longer := failed + [Task(title, Failed)];
    var s1, i := NextFails(s, failed, title);
    RoundStarts(failed, title);
    if RepairDepth(title) < MAX_REPAIR_DEPTH {
      var s2 := GetsRepair(s1, longer, i);
      t := Round(s2, longer, RepairTitle(title), next);
    } else {
      t := GetsReplan(s1, longer, i, next);
    }
  }

  /**
   For every `n` there is a run that reaches the repair limit `n` times: each time the planner
   gives a task, which fails like the one before, and so do all its repairs.
   */
  lemma {:induction false} RepairLimitsAreNotBounded(title: string, n: nat) returns (s: System)
    requires CleanTitle(title)
    ensures Resting(s, RoundsOf(title, n), title) && LimitsReached(s.db.events) == n
  {
    if n == 0 {
      s := OnePlanned(title);
    } else {
      var earlier := RepairLimitsAreNotBounded(title, n - 1);
      s := Round(earlier, RoundsOf(title, n - 1), title, title);
    }
  }
}
