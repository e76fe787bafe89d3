/**
 What happens when nothing can run any more (`blockTasksWaitingOnBlockedDependencies` in
 `internal/runtime/service_run.go`): a pass blocks the tasks that wait for a task that cannot
 complete, one level at a time, and as many passes as there are READY tasks always suffice.
 */
module BlockingPasses {
  import opened Digraph
  import opened TaskStatuses
  import opened Database
  import opened TaskStores
  import opened Lifecycle
  import opened Scheduler
  import opened RunGuarantees

  // ---- one pass ----------------------------------------------------------------------

  function BlockAll(db: Db, todo: seq<nat>): Db
    requires InRange(db, todo)
    decreases |todo|
  {
    if todo == [] then db else BlockAll(Move(db, todo[0], Blocked), todo[1..])
  }

  lemma {:induction false} TargetsInRange(db: Db, from: nat)
    requires from <= |db.tasks|
    ensures var targets := BlockTargets(db, from);
      && Increasing(targets)
      && (forall i :: 0 <= i < |targets| ==> from <= targets[i] < |db.tasks|)
      && (forall t: nat :: t in targets <==>
            from <= t < |db.tasks| && db.tasks[t].status in {Ready, Draft} && HasBlockingDependency(db, t))
    decreases |db.tasks| - from
  {
    if from < |db.tasks| {
      TargetsInRange(db, from + 1);
    }
  }

  function Pass(db: Db): Db {
    TargetsInRange(db, 0);
    BlockAll(db, BlockTargets(db, 0))
  }

  method WaitingForBlocked(tasks: seq<Task>, dependencies: set<(nat, nat)>, ghost db: Db) returns (waiting: set<nat>)
    requires db.tasks == tasks && db.deps == dependencies
    ensures forall t: nat :: t in waiting <==> HasBlockingDependency(db, t)
  {
    waiting := {};
    var rest := dependencies;
    while rest != {}
      invariant rest <= dependencies
      invariant forall t :: t in waiting <==>
                  exists d :: d in dependencies - rest && d.0 == t && d.1 < |tasks|
                      && BlocksDependents(tasks[d.1].status)
      decreases |rest|
    {
      var e: (nat, nat) :| e in rest;
      if e.1 < |tasks| && BlocksDependents(tasks[e.1].status) {
        waiting := waiting + {e.0};
      }
      rest := rest - {e};
    }
    assert dependencies - rest == dependencies;
  }

  predicate InRange(db: Db, todo: seq<nat>) {
    forall i :: 0 <= i < |todo| ==> todo[i] < |db.tasks|
  }

  lemma NextTarget(db: Db, i: nat, waits: bool)
    requires i < |db.tasks| && waits == HasBlockingDependency(db, i)
    ensures InRange(db, BlockTargets(db, i + 1))
    ensures BlockTargets(db, i) == OneTarget(db.tasks[i], waits, i) + BlockTargets(db, i + 1)
  {
    TargetsInRange(db, i + 1);
  }

  function OneTarget(task: Task, waits: bool, i: nat): seq<nat> {
    if task.status in {Ready, Draft} && waits then [i] else []
  }

  lemma {:induction false} BlockedAre(db: Db, todo: seq<nat>)
    requires Increasing(todo) && InRange(db, todo)
    ensures var later := BlockAll(db, todo);
      && |later.tasks| == |db.tasks| && later.deps == db.deps
      && forall t :: 0 <= t < |db.tasks| ==>
           later.tasks[t] == if t in todo then db.tasks[t].(status := Blocked) else db.tasks[t]
    decreases |todo|
  {
    if todo != [] {
      assert Increasing(todo[1..]);
      BlockedAre(Move(db, todo[0], Blocked), todo[1..]);
    }
  }

  /** A task that has not started waits for one that cannot complete as things are. */
  predicate MustBlock(tasks: seq<Task>, deps: set<(nat, nat)>, t: nat) {
    && t < |tasks| && tasks[t].status in {Ready, Draft}
    && exists d :: d in deps && d.0 == t && d.1 < |tasks|
                   && tasks[d.1].status in {Blocked, NeedUserInput, Failed, ReviewFailed, Cancelled}
  }

  /** What stands in the way: not what is done, nor what is still to run or running. */
  lemma BlockingStatuses(s: TaskStatus)
    ensures BlocksDependents(s) <==> s !in {Draft, Ready, InProgress, Implemented, Testing, Reviewing, Done}
  {
  }

  lemma {:induction false} IncreasingCount(ids: seq<nat>, all: set<nat>)
    requires Increasing(ids) && forall t: nat :: t in all <==> t in ids
    ensures |all| == |ids|
  {
    if ids == [] {
      assert all == {};
    } else {
      var n := |ids| - 1;
      assert ids == ids[..n] + [ids[n]];
      assert forall t: nat :: t in ids[..n] ==> t < ids[n];
      IncreasingCount(ids[..n], all - {ids[n]});
      assert ids[n] in all;
    }
  }

  lemma WaitsForIt(db: Db, t: nat)
    ensures t < |db.tasks| && db.tasks[t].status in {Ready, Draft} && HasBlockingDependency(db, t) <==>
            MustBlock(db.tasks, db.deps, t)
  {
  }

  /** How many tasks must be blocked. */
  lemma TargetCount(db: Db)
    ensures |BlockTargets(db, 0)| == |set t: nat | 0 <= t < |db.tasks| && MustBlock(db.tasks, db.deps, t)|
  {
    TargetsInRange(db, 0);
    var must := set t: nat | 0 <= t < |db.tasks| && MustBlock(db.tasks, db.deps, t);
    forall t: nat ensures t in must <==> t in BlockTargets(db, 0) {
      WaitsForIt(db, t);
    }
    IncreasingCount(BlockTargets(db, 0), must);
  }

  /** A pass blocks the tasks that must be, and nothing else about the rows of tasks and dependencies changes. */
  lemma PassIs(db: Db)
    ensures |Pass(db).tasks| == |db.tasks| && Pass(db).deps == db.deps
    ensures forall t :: 0 <= t < |db.tasks| ==>
              Pass(db).tasks[t] == if MustBlock(db.tasks, db.deps, t) then Task(db.tasks[t].title, Blocked)
                                   else db.tasks[t]
  {
    var targets := BlockTargets(db, 0);
    TargetsInRange(db, 0);
    BlockedAre(db, targets);
    forall t | 0 <= t < |db.tasks| ensures t in targets <==> MustBlock(db.tasks, db.deps, t) {
      WaitsForIt(db, t);
    }
  }

  method BlockTasksWaitingOnBlockedDependencies(store: TaskStore) returns (blocked: nat)
    requires store.Valid()
    modifies store
    ensures store.Valid() && store.Snapshot() == Pass(old(store.Snapshot()))
    ensures blocked == |BlockTargets(old(store.Snapshot()), 0)|
    ensures store.dependencies == old(store.dependencies) && |store.tasks| == |old(store.tasks)|
    ensures forall t :: 0 <= t < |store.tasks| ==>
              store.tasks[t] == if MustBlock(old(store.tasks), old(store.dependencies), t)
                                then Task(old(store.tasks)[t].title, Blocked) else old(store.tasks)[t]
    ensures blocked == |set t: nat | 0 <= t < |store.tasks| && MustBlock(old(store.tasks), old(store.dependencies), t)|
  {
    ghost var db := store.Snapshot();
    PassIs(db);
    TargetCount(db);
    TargetsInRange(db, 0);
    var tasks := store.tasks;
    var waiting := WaitingForBlocked(tasks, store.dependencies, db);
    blocked := 0;
    ghost var todo, end := BlockTargets(db, 0), Pass(db);
    for i := 0 to |tasks|
      invariant store.Valid() && |store.tasks| == |tasks| && store.tasks[i..] == tasks[i..]
      invariant todo == BlockTargets(db, i) && InRange(store.Snapshot(), todo)
      invariant BlockAll(store.Snapshot(), todo) == end
      invariant blocked + |todo| == |BlockTargets(db, 0)|
    {
      NextTarget(db, i, i in waiting);
      var now := BlockIfWaiting(store, tasks, i, i in waiting, todo, BlockTargets(db, i + 1));
      todo := BlockTargets(db, i + 1);
      blocked := blocked + now;
    }
  }

  method BlockIfWaiting(store: TaskStore, tasks: seq<Task>, i: nat, waits: bool, ghost todo: seq<nat>,
          ghost rest: seq<nat>)
      returns (now: nat)
    requires store.Valid() && i < |tasks| == |store.tasks| && store.tasks[i..] == tasks[i..]
    requires InRange(store.Snapshot(), todo) && todo == OneTarget(tasks[i], waits, i) + rest
    modifies store
    ensures store.Valid() && |tasks| == |store.tasks| && store.tasks[i + 1..] == tasks[i + 1..]
    ensures InRange(store.Snapshot(), rest) && now + |rest| == |todo|
    ensures BlockAll(store.Snapshot(), rest) == BlockAll(old(store.Snapshot()), todo)
  {
    assert store.tasks[i] == store.tasks[i..][0] == tasks[i..][0];
    assert forall k :: i + 1 <= k < |tasks| ==> store.tasks[k] == store.tasks[i..][k - i];
    now := 0;
    if tasks[i].status in {Ready, Draft} && waits {
      assert todo[1..] == rest;
      var moved := store.TransitionTask(i, Blocked);
      now := 1;
    } else {
      assert todo == rest;
    }
  }

  // ---- until nothing is READY --------------------------------------------------------------

  predicate InFlight(s: TaskStatus) {
    s in {InProgress, Implemented, Testing, Reviewing}
  }

  /** Every task is READY or rests; dependencies are stored and have no cycle. */
  ghost predicate AtRest(db: Db) {
    && Acyclic<nat>(db.deps)
    && (forall d :: d in db.deps ==> d.0 < |db.tasks| && d.1 < |db.tasks|)
    && forall t :: 0 <= t < |db.tasks| ==> db.tasks[t].status != Draft && !InFlight(db.tasks[t].status)
  }

  predicate NothingRunnable(db: Db) {
    forall t :: 0 <= t < |db.tasks| ==> !Runnable(db.tasks, db.deps, t)
  }

  function ReadyTasks(db: Db): set<nat> {
    set t | 0 <= t < |db.tasks| && db.tasks[t].status == Ready
  }

  /** If READY tasks are left but none can run, a pass blocks one: the deepest waits for a task that cannot complete. */
  lemma PassBlocksOne(db: Db)
    requires AtRest(db) && NothingRunnable(db) && ReadyTasks(db) != {}
    ensures BlockTargets(db, 0) != []
  {
    var sink := AcyclicHasSink<nat>(db.deps, ReadyTasks(db));
    assert !Runnable(db.tasks, db.deps, sink);
    var d :| d in db.deps && d.0 == sink && !(d.1 < |db.tasks| && db.tasks[d.1].status == Done);
    assert (sink, d.1) == d;
    assert d.1 !in ReadyTasks(db);
    assert HasBlockingDependency(db, sink);
    TargetsInRange(db, 0);
    assert sink in BlockTargets(db, 0);
  }

  /** Blocking READY tasks makes none runnable and puts none in flight. */
  lemma BlockingKeepsRest(db: Db, targets: set<nat>, later: Db)
    requires AtRest(db) && NothingRunnable(db) && targets <= ReadyTasks(db)
    requires later.deps == db.deps && |later.tasks| == |db.tasks|
    requires forall t: nat :: t < |db.tasks| ==>
               later.tasks[t] == if t in targets then db.tasks[t].(status := Blocked) else db.tasks[t]
    ensures AtRest(later) && NothingRunnable(later) && ReadyTasks(later) == ReadyTasks(db) - targets
  {
    forall t | 0 <= t < |later.tasks| ensures !Runnable(later.tasks, later.deps, t) {
      if later.tasks[t].status == Ready {
        assert !Runnable(db.tasks, db.deps, t);
        var d :| d in db.deps && d.0 == t && !(d.1 < |db.tasks| && db.tasks[d.1].status == Done);
        assert d in later.deps && later.tasks[d.1].status != Done;
      }
    }
  }

  function Targets(db: Db): set<nat> {
    set t | t in BlockTargets(db, 0)
  }

  /** After a pass nothing can run either, and exactly the blocked tasks are no longer READY. */
  lemma PassKeepsRest(db: Db)
    requires AtRest(db) && NothingRunnable(db)
    ensures AtRest(Pass(db)) && NothingRunnable(Pass(db))
    ensures ReadyTasks(Pass(db)) == ReadyTasks(db) - Targets(db)
    ensures Targets(db) <= ReadyTasks(db) && (Targets(db) == {} <==> BlockTargets(db, 0) == [])
  {
    TargetsInRange(db, 0);
    BlockedAre(db, BlockTargets(db, 0));
    if BlockTargets(db, 0) != [] {
      assert BlockTargets(db, 0)[0] in Targets(db);
    }
    BlockingKeepsRest(db, Targets(db), Pass(db));
  }

  function Passes(db: Db, n: nat): Db
    decreases n
  {
    if n == 0 then db else Passes(Pass(db), n - 1)
  }

  /** Each pass leaves at least one READY task less. */
  lemma {:induction false} PassesSettle(db: Db, n: nat)
    requires AtRest(db) && NothingRunnable(db)
    ensures |ReadyTasks(Passes(db, n))| <= if n <= |ReadyTasks(db)| then |ReadyTasks(db)| - n else 0
    decreases n
  {
    if n > 0 {
      PassKeepsRest(db);
      if ReadyTasks(db) != {} {
        PassBlocksOne(db);
        var t :| t in Targets(db);
        SubsetIsSmaller(ReadyTasks(Pass(db)), ReadyTasks(db), t);
      }
      PassesSettle(Pass(db), n - 1);
    }
  }

  /**
   Whatever run led there: once no task is DRAFT or in flight and the scheduler finds
   nothing, a pass blocks a task as long as one is READY, and as many passes as there are
   READY tasks leave none.
   */
  lemma StuckRunsSettle(s: System)
    requires Reachable(s) && NothingRunnable(s.db)
    requires forall t :: 0 <= t < |s.db.tasks| ==> s.db.tasks[t].status != Draft && !InFlight(s.db.tasks[t].status)
    ensures ReadyTasks(s.db) != {} ==> BlockTargets(s.db, 0) != []
    ensures ReadyTasks(Passes(s.db, |ReadyTasks(s.db)|)) == {}
  {
    ReachableIsSafe(s);
    forall d | d in s.db.deps ensures d.0 < |s.db.tasks| && d.1 < |s.db.tasks| {
      assert d == (d.0, d.1);
    }
    if ReadyTasks(s.db) != {} {
      PassBlocksOne(s.db);
    }
    PassesSettle(s.db, |ReadyTasks(s.db)|);
  }
}
