/**
 What a worker of `Lifecycle` does to repair a task, to complete a repaired one and at the end
 of a run, when nobody interferes: the rows are then as `Repairs`, `BlockingPasses` and
 `FinalReviews` leave them.
 */
module UndisturbedRepairs {
  import opened Options
  import opened TaskStatuses
  import opened Database
  import opened RepairDepths
  import opened Lifecycle
  import opened RepairLinks
  import opened BlockingPasses
  import opened UndisturbedWorkers

  function Repeat<T>(f: T -> T, x: T, n: nat): T
    decreases n
  {
    if n == 0 then x else Repeat(f, f(x), n - 1)
  }

  lemma {:induction false} RepeatMore<T>(f: T -> T, x: T, m: nat, n: nat)
    ensures Repeat(f, x, m + n) == Repeat(f, Repeat(f, x, m), n)
    decreases m
  {
    if m > 0 {
      RepeatMore(f, f(x), m - 1, n);
    }
  }

  lemma RepeatOnce<T>(f: T -> T, x: T)
    ensures Repeat(f, x, 1) == f(x)
  {
    assert Repeat(f, f(x), 0) == f(x);
  }

  lemma {:induction false} RepeatIsFold<T(!new), C>(g: T -> T, f: (T, C) -> T, x: T, c: C, n: nat)
    requires forall y :: g(y) == f(y, c)
    ensures Repeat(g, x, n) == Fold(f, x, seq(n, _ => c))
    decreases n
  {
    if n > 0 {
      assert seq(n, _ => c)[1..] == seq(n - 1, _ => c);
      RepeatIsFold(g, f, f(x, c), c, n - 1);
    }
  }

  /** The worker's own next step. */
  ghost function Goes(): ((Db, Worker)) -> (Db, Worker) {
    (s: (Db, Worker)) => Acts()(s, Go)
  }

  /** Left alone, the worker comes from one place to the other. */
  ghost predicate ComesTo(db: Db, w: Worker, later: Db, v: Worker) {
    exists n: nat :: Repeat(Goes(), (db, w), n) == (later, v)
  }

  /** That is a run in which nobody else acts. */
  lemma ComesInRun(s: System, i: nat, later: Db, v: Worker) returns (n: nat)
    requires i < |s.workers| && ComesTo(s.db, s.workers[i], later, v)
    ensures var t := Run(s, Acting(i, seq(n, _ => Go))); t.db == later && i < |t.workers| && t.workers[i] == v
  {
    n :| Repeat(Goes(), (s.db, s.workers[i]), n) == (later, v);
    RepeatIsFold(Goes(), Acts(), (s.db, s.workers[i]), Go, n);
    AloneIsRun(s, i, seq(n, _ => Go));
  }

  lemma StepLast(db: Db, w: Worker, later: Db, v: Worker)
    requires Steps(db, w, Go, later, v)
    ensures ComesTo(db, w, later, v)
  {
    RepeatOnce(Goes(), (db, w));
    var here := (db, w);
    assert Goes()(here) == Acts()(here, Go) == Alone(here.0, here.1, Go);
  }

  lemma ThenComes(db: Db, w: Worker, d1: Db, w1: Worker, later: Db, v: Worker)
    requires ComesTo(db, w, d1, w1) && ComesTo(d1, w1, later, v)
    ensures ComesTo(db, w, later, v)
  {
    var m: nat :| Repeat(Goes(), (db, w), m) == (d1, w1);
    var n: nat :| Repeat(Goes(), (d1, w1), n) == (later, v);
    RepeatMore(Goes(), (db, w), m, n);
  }

  lemma StepFirst(db: Db, w: Worker, d1: Db, w1: Worker, later: Db, v: Worker)
    requires Steps(db, w, Go, d1, w1) && ComesTo(d1, w1, later, v)
    ensures ComesTo(db, w, later, v)
  {
    StepLast(db, w, d1, w1);
    ThenComes(db, w, d1, w1, later, v);
  }

  lemma ThreeSteps(db: Db, w: Worker, d1: Db, w1: Worker, d2: Db, w2: Worker, later: Db, v: Worker)
    requires Steps(db, w, Go, d1, w1) && Steps(d1, w1, Go, d2, w2) && Steps(d2, w2, Go, later, v)
    ensures ComesTo(db, w, later, v)
  {
    StepLast(d2, w2, later, v);
    StepFirst(d1, w1, d2, w2, later, v);
    StepFirst(db, w, d1, w1, later, v);
  }

  /** Only events of this task were added, and no link. */
  ghost predicate NotesOnly(before: seq<Event>, later: seq<Event>, task: nat) {
    && (forall t: nat :: LinkOf(later, t) == LinkOf(before, t))
    && (forall i :: 0 <= i < |later| ==> later[i].task == task || later[i] in before)
  }

  lemma OneMoreEvent(events: seq<Event>, e: Event, task: nat)
    requires !e.RepairLinked? && e.task == task
    ensures NotesOnly(events, events + [e], task)
  {
    forall t: nat ensures LinkOf(events + [e], t) == LinkOf(events, t) {
      LinkOfAppend(events, e, t);
    }
  }

  // ---- creating a repair -----------------------------------------------------------------------

  /** A task is FAILED when its repair is created, if a pipeline was at work on it; otherwise it is as it was. */
  predicate MarkedIn(db: Db, tasks: seq<Task>, task: nat) {
    && task < |db.tasks| && |tasks| == |db.tasks|
    && forall t :: 0 <= t < |tasks| ==>
         tasks[t] == if t == task && db.tasks[t].status in {InProgress, Implemented, Testing, Reviewing}
                     then Task(db.tasks[t].title, Failed) else db.tasks[t]
  }

  /** Where the worker goes when it has read the task. */
  lemma ReadsAlone(db: Db, w: Worker, root: nat)
    requires w.phase == RepairRead && w.task < |db.tasks| && root == RootOf(db.events, w.task, {}, MAX_LINK_STEPS)
    ensures Steps(db, w, Go, db, w.(phase := if db.tasks[w.task].status in {InProgress, Implemented, Testing, Reviewing}
        then RepairMark(root) else RepairNote(root)))
  {
    OneStep(db, w, Go, NoOp, if db.tasks[w.task].status in {InProgress, Implemented, Testing, Reviewing}
      then RepairMark(root) else RepairNote(root));
  }

  /** Reads the task, marks it if need be, and notes the failure. */
  lemma MarksAlone(db: Db, w: Worker, root: nat) returns (later: Db)
    requires w.phase == RepairRead && w.task < |db.tasks| && root == RootOf(db.events, w.task, {}, MAX_LINK_STEPS)
    ensures ComesTo(db, w, later, Noting(db, w, root)) && MarkedIn(db, later.tasks, w.task)
    ensures NotesOnly(db.events, later.events, w.task)
  {
    ReadsAlone(db, w, root);
    if db.tasks[w.task].status in {InProgress, Implemented, Testing, Reviewing} {
      var w0 := w.(phase := RepairMark(root));
      var d1, w1 := Moves(db, w0, Go, w.task, Failed, RepairNote(root));
      OneMoreEvent(db.events, StatusChanged(w.task, db.tasks[w.task].status, Failed), w.task);
      later := NotesAlone(d1, w1, root);
      StepFirst(db, w0, d1, w1, later, Noting(d1, w1, root));
      StepFirst(db, w, db, w0, later, Noting(d1, w1, root));
    } else {
      later := NotesAlone(db, w.(phase := RepairNote(root)), root);
      StepFirst(db, w, db, w.(phase := RepairNote(root)), later, Noting(db, w, root));
    }
  }

  function Noting(db: Db, w: Worker, root: nat): Worker {
    w.(phase := if RepairDepth(TitleOf(db, w.task)) < 3 then RepairCreate(root) else RepairLimit)
  }

  lemma NotesAlone(db: Db, w: Worker, root: nat) returns (later: Db)
    requires w.phase == RepairNote(root) && w.task < |db.tasks|
    ensures ComesTo(db, w, later, Noting(db, w, root)) && later.tasks == db.tasks
    ensures NotesOnly(db.events, later.events, w.task)
  {
    later := db.(events := db.events + [Noted(w.task, "task.failed")]);
    OneStep(db, w, Go, AddEvent(Noted(w.task, "task.failed")), Noting(db, w, root).phase);
    OneMoreEvent(db.events, Noted(w.task, "task.failed"), w.task);
    StepLast(db, w, later, Noting(db, w, root));
  }

  /** Below the depth limit: one READY repair, linked to the root of the task's own links. */
  lemma RepairsAlone(db: Db, w: Worker) returns (later: Db)
    requires w.phase == RepairRead && w.task < |db.tasks| && RepairDepth(db.tasks[w.task].title) < 3
    requires forall i :: 0 <= i < |db.events| ==> db.events[i].task < |db.tasks|
    ensures ComesTo(db, w, later, w.(phase := Over))
    ensures |later.tasks| == |db.tasks| + 1 && MarkedIn(db, later.tasks[..|db.tasks|], w.task)
    ensures later.tasks[|db.tasks|] == Task("Fix: " + db.tasks[w.task].title, Ready)
    ensures LinkOf(later.events, |db.tasks|) == Some(RootOf(db.events, w.task, {}, MAX_LINK_STEPS))
    ensures forall t: nat :: t < |db.tasks| ==> LinkOf(later.events, t) == LinkOf(db.events, t)
  {
    var root := RootOf(db.events, w.task, {}, MAX_LINK_STEPS);
    var d1 := MarksAlone(db, w, root);
    assert TitleOf(db, w.task) == d1.tasks[w.task].title == db.tasks[w.task].title;
    forall i | 0 <= i < |d1.events| ensures d1.events[i].task < |d1.tasks| {
      assert d1.events[i].task == w.task || d1.events[i] in db.events;
    }
    later := QueuesAlone(d1, w.(phase := RepairCreate(root)), root);
    ThenComes(db, w, d1, w.(phase := RepairCreate(root)), later, w.(phase := Over));
    assert later.tasks[..|db.tasks|] == d1.tasks;
  }

  lemma QueuesAlone(db: Db, w: Worker, root: nat) returns (later: Db)
    requires w.phase == RepairCreate(root) && w.task < |db.tasks|
    requires forall i :: 0 <= i < |db.events| ==> db.events[i].task < |db.tasks|
    ensures ComesTo(db, w, later, w.(phase := Over))
    ensures later.tasks == db.tasks + [Task("Fix: " + db.tasks[w.task].title, Ready)]
    ensures forall t: nat :: LinkOf(later.events, t) == if t == |db.tasks| then Some(root) else LinkOf(db.events, t)
  {
    var n := |db.tasks|;
    var d1, w1 := CreatesAlone(db, w, root);
    var d2, w2 := LinksAlone(d1, w1, n, root);
    var v;
    later, v := Moves(d2, w2, Go, n, Ready, Over);
    LinksAfter(db.events, n, root);
    ThreeSteps(db, w, d1, w1, d2, w2, later, v);
  }

  lemma CreatesAlone(db: Db, w: Worker, root: nat) returns (later: Db, v: Worker)
    requires w.phase == RepairCreate(root) && w.task < |db.tasks|
    ensures Steps(db, w, Go, later, v) && v == w.(phase := RepairLink(|db.tasks|, root))
    ensures later == db.(tasks := db.tasks + [Task("Fix: " + db.tasks[w.task].title, Draft)])
  {
    OneStep(db, w, Go, CreateTask("Fix: " + db.tasks[w.task].title), RepairLink(|db.tasks|, root));
    later := db.(tasks := db.tasks + [Task("Fix: " + db.tasks[w.task].title, Draft)]);
    v := w.(phase := RepairLink(|db.tasks|, root));
  }

  lemma LinksAlone(db: Db, w: Worker, repair: nat, root: nat) returns (later: Db, v: Worker)
    requires w.phase == RepairLink(repair, root) && repair < |db.tasks|
    ensures Steps(db, w, Go, later, v) && v == w.(phase := RepairReady(repair))
    ensures later == db.(events := db.events + [RepairLinked(repair, root)])
  {
    OneStep(db, w, Go, AddEvent(RepairLinked(repair, root)), RepairReady(repair));
    later, v := db.(events := db.events + [RepairLinked(repair, root)]), w.(phase := RepairReady(repair));
  }

  lemma LinksAfter(events: seq<Event>, n: nat, root: nat)
    requires forall i :: 0 <= i < |events| ==> events[i].task < n
    ensures forall t: nat :: LinkOf(events + [RepairLinked(n, root)] + [StatusChanged(n, Draft, Ready)], t)
                             == if t == n then Some(root) else LinkOf(events, t)
  {
    NoLinkWithoutEvent(events, n);
    forall t: nat
      ensures LinkOf(events + [RepairLinked(n, root)] + [StatusChanged(n, Draft, Ready)], t)
              == if t == n then Some(root) else LinkOf(events, t)
    {
      LinkOfAppend(events, RepairLinked(n, root), t);
      LinkOfAppend(events + [RepairLinked(n, root)], StatusChanged(n, Draft, Ready), t);
    }
  }

  /** These tasks are READY behind the ones there were, in order. */
  predicate QueuedBehind(tasks: seq<Task>, later: seq<Task>, titles: seq<string>) {
    && |later| == |tasks| + |titles| && later[..|tasks|] == tasks
    && forall i :: 0 <= i < |titles| ==> later[|tasks| + i] == Task(titles[i], Ready)
  }

  lemma OneMoreBehind(tasks: seq<Task>, next: seq<Task>, later: seq<Task>, titles: seq<string>)
    requires titles != [] && next == tasks + [Task(titles[0], Ready)] && QueuedBehind(next, later, titles[1..])
    ensures QueuedBehind(tasks, later, titles)
  {
    assert later[..|next|][..|tasks|] == later[..|tasks|] && later[..|next|][|tasks|] == later[|tasks|];
    forall i | 0 < i < |titles| ensures later[|tasks| + i] == Task(titles[i], Ready) {
      assert later[|next| + (i - 1)] == Task(titles[1..][i - 1], Ready);
    }
  }

  /** The tasks of a re-plan are queued. */
  lemma {:induction false} ReplansAlone(db: Db, w: Worker, titles: seq<string>) returns (later: Db)
    requires w.phase == DeltaCreate(titles)
    ensures ComesTo(db, w, later, w.(phase := Over)) && QueuedBehind(db.tasks, later.tasks, titles)
    decreases |titles|
  {
    if titles == [] {
      OneStep(db, w, Go, NoOp, Over);
      later := db;
      StepLast(db, w, db, w.(phase := Over));
    } else {
      var d1, w1 := PlansAlone(db, w, titles);
      var d2, w2 := Moves(d1, w1, Go, |db.tasks|, Ready, DeltaCreate(titles[1..]));
      later := ReplansAlone(d2, w2, titles[1..]);
      StepFirst(d1, w1, d2, w2, later, w.(phase := Over));
      StepFirst(db, w, d1, w1, later, w.(phase := Over));
      OneMoreBehind(db.tasks, d2.tasks, later.tasks, titles);
    }
  }

  lemma PlansAlone(db: Db, w: Worker, titles: seq<string>) returns (later: Db, v: Worker)
    requires w.phase == DeltaCreate(titles) && titles != []
    ensures Steps(db, w, Go, later, v) && v == w.(phase := DeltaReady(|db.tasks|, titles[1..]))
    ensures later == db.(tasks := db.tasks + [Task(titles[0], Draft)])
  {
    OneStep(db, w, Go, CreateTask(titles[0]), DeltaReady(|db.tasks|, titles[1..]));
    later, v := db.(tasks := db.tasks + [Task(titles[0], Draft)]), w.(phase := DeltaReady(|db.tasks|, titles[1..]));
  }

  /** At the depth limit the task is marked just so, and the tasks of a re-plan are queued instead. */
  lemma LimitsAlone(db: Db, w: Worker, titles: seq<string>) returns (limit: Db, planned: Db, later: Db)
    requires w.phase == RepairRead && w.task < |db.tasks| && RepairDepth(db.tasks[w.task].title) >= 3
    ensures ComesTo(db, w, limit, w.(phase := RepairLimit))
    ensures Steps(limit, w.(phase := RepairLimit), NewTasks(titles), planned, w.(phase := DeltaCreate(titles)))
    ensures ComesTo(planned, w.(phase := DeltaCreate(titles)), later, w.(phase := Over))
    ensures MarkedIn(db, limit.tasks, w.task) && QueuedBehind(limit.tasks, later.tasks, titles)
  {
    limit := MarksAlone(db, w, RootOf(db.events, w.task, {}, MAX_LINK_STEPS));
    planned := limit.(events := limit.events + [Noted(w.task, LIMIT_REACHED)]);
    OneStep(limit, w.(phase := RepairLimit), NewTasks(titles), AddEvent(Noted(w.task, LIMIT_REACHED)),
      DeltaCreate(titles));
    later := ReplansAlone(planned, w.(phase := DeltaCreate(titles)), titles);
  }

  // ---- completing what was repaired ----------------------------------------------------------------

  ghost predicate SameLinks(before: seq<Event>, later: seq<Event>) {
    forall t: nat :: LinkOf(later, t) == LinkOf(before, t)
  }

  lemma {:induction false} FailedTasksAre(tasks: seq<Task>, except: nat, from: nat)
    requires from <= |tasks|
    ensures forall t: nat :: t in FailedTasks(tasks, except, from) <==>
              from <= t < |tasks| && t != except && tasks[t].status in {Failed, ReviewFailed}
    decreases |tasks| - from
  {
    if from < |tasks| {
      FailedTasksAre(tasks, except, from + 1);
    }
  }

  /** One listed task is completed if it is a repair of the same task. */
  lemma SupersedesOne(db: Db, w: Worker, path: seq<nat>, todo: seq<nat>) returns (later: Db, v: Worker)
    requires w.phase == WalkSupersede(path, todo) && todo != [] && todo[0] < |db.tasks|
    requires db.tasks[todo[0]].status in {Failed, ReviewFailed, Done}
    ensures Steps(db, w, Go, later, v) && v == w.(phase := WalkSupersede(path, todo[1..]))
    ensures later.tasks == if LinkOf(db.events, todo[0]) == Some(EndOf(path))
                           then db.tasks[todo[0] := Task(db.tasks[todo[0]].title, Done)] else db.tasks
    ensures SameLinks(db.events, later.events)
  {
    if LinkOf(db.events, todo[0]) == Some(EndOf(path)) {
      later, v := Moves(db, w, Go, todo[0], Done, WalkSupersede(path, todo[1..]));
      OneMoreEvent(db.events, StatusChanged(todo[0], db.tasks[todo[0]].status, Done), todo[0]);
    } else {
      OneStep(db, w, Go, NoOp, WalkSupersede(path, todo[1..]));
      later, v := db, w.(phase := WalkSupersede(path, todo[1..]));
    }
  }

  predicate Completable(tasks: seq<Task>, todo: seq<nat>) {
    forall k :: 0 <= k < |todo| ==> todo[k] < |tasks| && tasks[todo[k]].status in {Failed, ReviewFailed, Done}
  }

  /** The listed repairs of this root are DONE, and nothing else has changed. */
  ghost predicate DoneFor(events: seq<Event>, root: nat, todo: seq<nat>, tasks: seq<Task>, later: seq<Task>) {
    && |later| == |tasks|
    && forall t :: 0 <= t < |tasks| ==>
         later[t] == if t in todo && LinkOf(events, t) == Some(root) then Task(tasks[t].title, Done) else tasks[t]
  }

  lemma OneMoreDone(events: seq<Event>, next: seq<Event>, root: nat, todo: seq<nat>, tasks: seq<Task>, now: seq<Task>,
          later: seq<Task>)
    requires todo != [] && todo[0] < |tasks| && SameLinks(events, next)
    requires now == if LinkOf(events, todo[0]) == Some(root) then tasks[todo[0] := Task(tasks[todo[0]].title, Done)]
                    else tasks
    requires DoneFor(next, root, todo[1..], now, later)
    ensures DoneFor(events, root, todo, tasks, later)
  {
    assert forall t: nat :: t in todo <==> t == todo[0] || t in todo[1..];
  }

  lemma {:induction false} SupersedesAlone(db: Db, w: Worker, path: seq<nat>, todo: seq<nat>) returns (later: Db)
    requires w.phase == WalkSupersede(path, todo) && Completable(db.tasks, todo)
    ensures ComesTo(db, w, later, w.(phase := Walk(path))) && SameLinks(db.events, later.events)
    ensures DoneFor(db.events, EndOf(path), todo, db.tasks, later.tasks)
    decreases |todo|
  {
    if todo == [] {
      OneStep(db, w, Go, NoOp, Walk(path));
      later := db;
      StepLast(db, w, db, w.(phase := Walk(path)));
    } else {
      var d1, w1 := SupersedesOne(db, w, path, todo);
      assert Completable(d1.tasks, todo[1..]);
      later := SupersedesAlone(d1, w1, path, todo[1..]);
      StepFirst(db, w, d1, w1, later, w.(phase := Walk(path)));
      OneMoreDone(db.events, d1.events, EndOf(path), todo, db.tasks, d1.tasks, later.tasks);
    }
  }

  /** At a task without a link the walk is over. */
  lemma WalkEnds(db: Db, w: Worker, path: seq<nat>)
    requires w.phase == Walk(path) && path != [] && LinkOf(db.events, EndOf(path)) == None
    ensures ComesTo(db, w, db, w.(phase := Over))
  {
    OneStep(db, w, Go, NoOp, Over);
    StepLast(db, w, db, w.(phase := Over));
  }

  lemma WalksToRoot(db: Db, w: Worker, root: nat)
    requires w.phase == Walk([w.task]) && LinkOf(db.events, w.task) == Some(root) && root < |db.tasks|
    ensures Steps(db, w, Go, db, w.(phase := if db.tasks[root].status in {Failed, ReviewFailed}
        then WalkMark([w.task, root]) else Walk([w.task, root])))
  {
    assert [w.task] + [root] == [w.task, root] && [w.task][..0] == [];
    OneStep(db, w, Go, NoOp,
      if db.tasks[root].status in {Failed, ReviewFailed} then WalkMark([w.task, root]) else Walk([w.task, root]));
  }

  /** The root of a repair becomes DONE, and so do its other failed repairs. */
  lemma MarksRoot(db: Db, w: Worker, path: seq<nat>, root: nat) returns (later: Db)
    requires w.phase == WalkMark(path) && path != [] && EndOf(path) == root < |db.tasks|
    requires db.tasks[root].status in {Failed, ReviewFailed} && LinkOf(db.events, root) == None
    ensures ComesTo(db, w, later, w.(phase := Walk(path))) && SameLinks(db.events, later.events)
    ensures |later.tasks| == |db.tasks|
    ensures forall t :: 0 <= t < |db.tasks| ==>
              later.tasks[t]
              == if t == root || (t != w.task && db.tasks[t].status in {Failed, ReviewFailed}
                                  && LinkOf(db.events, t) == Some(root)) then Task(db.tasks[t].title, Done)
                 else db.tasks[t]
  {
    var d1, w1 := Moves(db, w, Go, root, Done, WalkList(path));
    OneMoreEvent(db.events, StatusChanged(root, db.tasks[root].status, Done), root);
    var w2, todo := ListsFailed(d1, w1, path);
    later := SupersedesAlone(d1, w2, path, todo);
    StepFirst(d1, w1, d1, w2, later, w.(phase := Walk(path)));
    StepFirst(db, w, d1, w1, later, w.(phase := Walk(path)));
  }

  lemma ListsFailed(db: Db, w: Worker, path: seq<nat>) returns (v: Worker, todo: seq<nat>)
    requires w.phase == WalkList(path)
    ensures Steps(db, w, Go, db, v) && v == w.(phase := WalkSupersede(path, todo)) && Completable(db.tasks, todo)
    ensures forall t: nat :: t in todo <==>
              t < |db.tasks| && t != w.task && db.tasks[t].status in {Failed, ReviewFailed}
  {
    todo := FailedTasks(db.tasks, w.task, 0);
    v := w.(phase := WalkSupersede(path, todo));
    FailedTasksAre(db.tasks, w.task, 0);
    OneStep(db, w, Go, NoOp, v.phase);
    forall k | 0 <= k < |todo|
      ensures todo[k] < |db.tasks| && db.tasks[todo[k]].status in {Failed, ReviewFailed, Done}
    {
      assert todo[k] in todo;
    }
  }

  /**
   In a forest of depth one exactly the task that was repaired, if it had failed, and its other
   failed repairs become DONE.
   */
  lemma WalksAlone(db: Db, w: Worker) returns (later: Db)
    requires w.phase == Walk([w.task]) && DepthOneForest(db)
    ensures ComesTo(db, w, later, w.(phase := Over)) && |later.tasks| == |db.tasks|
    ensures var tasks, root := db.tasks, LinkOf(db.events, w.task);
      forall t :: 0 <= t < |tasks| ==>
        later.tasks[t]
        == if root.Some? && tasks[root.value].status in {Failed, ReviewFailed}
              && (t == root.value || (t != w.task && tasks[t].status in {Failed, ReviewFailed}
                                      && LinkOf(db.events, t) == root))
           then Task(tasks[t].title, Done) else tasks[t]
  {
    if LinkOf(db.events, w.task) == None {
      later := db;
      WalkEnds(db, w, [w.task]);
    } else {
      var root := LinkOf(db.events, w.task).value;
      WalksToRoot(db, w, root);
      later := WalksFromRoot(db, w, root);
    }
  }

  lemma WalksFromRoot(db: Db, w: Worker, root: nat) returns (later: Db)
    requires w.phase == Walk([w.task]) && LinkOf(db.events, w.task) == Some(root) && root < |db.tasks|
    requires LinkOf(db.events, root) == None
    requires Steps(db, w, Go, db, w.(phase := if db.tasks[root].status in {Failed, ReviewFailed}
                 then WalkMark([w.task, root]) else Walk([w.task, root])))
    ensures ComesTo(db, w, later, w.(phase := Over)) && |later.tasks| == |db.tasks|
    ensures forall t :: 0 <= t < |db.tasks| ==>
              later.tasks[t]
              == if db.tasks[root].status in {Failed, ReviewFailed}
                    && (t == root || (t != w.task && db.tasks[t].status in {Failed, ReviewFailed}
                                      && LinkOf(db.events, t) == Some(root)))
                 then Task(db.tasks[t].title, Done) else db.tasks[t]
  {
    var path := [w.task, root];
    if db.tasks[root].status in {Failed, ReviewFailed} {
      later := MarksRoot(db, w.(phase := WalkMark(path)), path, root);
      WalkEnds(later, w.(phase := Walk(path)), path);
      ThenComes(db, w.(phase := WalkMark(path)), later, w.(phase := Walk(path)), later, w.(phase := Over));
      StepFirst(db, w, db, w.(phase := WalkMark(path)), later, w.(phase := Over));
    } else {
      later := db;
      WalkEnds(db, w.(phase := Walk(path)), path);
      StepFirst(db, w, db, w.(phase := Walk(path)), db, w.(phase := Over));
    }
  }

  // ---- the end of a run ------------------------------------------------------------------------------

  lemma {:induction false} BlocksAlone(db: Db, w: Worker, todo: seq<nat>, blocked: nat) returns (later: Db)
    requires w.phase == Blocking(todo, blocked) && Unstarted(db.tasks, todo)
    ensures ComesTo(db, w, later, w.(phase := if blocked + |todo| > 0 then Over else CountTasks))
    ensures todo == [] ==> later == db
    ensures |later.tasks| == |db.tasks| && later.project == db.project
    ensures forall t :: 0 <= t < |db.tasks| ==>
              later.tasks[t] == if t in todo then Task(db.tasks[t].title, Blocked) else db.tasks[t]
    decreases |todo|
  {
    if todo == [] {
      OneStep(db, w, Go, NoOp, if blocked > 0 then Over else CountTasks);
      later := db;
      StepLast(db, w, db, w.(phase := if blocked > 0 then Over else CountTasks));
    } else {
      var d1, w1 := Moves(db, w, Go, todo[0], Blocked, Blocking(todo[1..], blocked + 1));
      assert Unstarted(d1.tasks, todo[1..]);
      later := BlocksAlone(d1, w1, todo[1..], blocked + 1);
      StepFirst(db, w, d1, w1, later, w.(phase := Over));
      assert forall t: nat :: t in todo <==> t == todo[0] || t in todo[1..];
    }
  }

  predicate Unstarted(tasks: seq<Task>, todo: seq<nat>) {
    forall k :: 0 <= k < |todo| ==> todo[k] < |tasks| && tasks[todo[k]].status in {Ready, Draft, Blocked}
  }

  /** Lists what must be blocked, and blocks it. */
  lemma BlocksTargets(db: Db, w: Worker) returns (later: Db)
    requires w.phase == BlockList
    ensures ComesTo(db, w, later, w.(phase := if BlockTargets(db, 0) == [] then CountTasks else Over))
    ensures BlockTargets(db, 0) == [] ==> later == db
    ensures |later.tasks| == |db.tasks| && later.project == db.project
    ensures forall t :: 0 <= t < |db.tasks| ==>
              later.tasks[t] == if t in BlockTargets(db, 0) then Task(db.tasks[t].title, Blocked) else db.tasks[t]
  {
    var todo := BlockTargets(db, 0);
    TargetsInRange(db, 0);
    forall k | 0 <= k < |todo| ensures todo[k] < |db.tasks| && db.tasks[todo[k]].status in {Ready, Draft, Blocked} {
      assert todo[k] in todo;
    }
    OneStep(db, w, Go, NoOp, Blocking(todo, 0));
    later := BlocksAlone(db, w.(phase := Blocking(todo, 0)), todo, 0);
    StepFirst(db, w, db, w.(phase := Blocking(todo, 0)), later, w.(phase := if todo == [] then CountTasks else Over));
  }

  lemma TargetsMustBlock(db: Db)
    ensures forall t: nat :: t in BlockTargets(db, 0) <==> MustBlock(db.tasks, db.deps, t)
    ensures (forall t :: 0 <= t < |db.tasks| ==> db.tasks[t].status in {Done, Cancelled}) ==> BlockTargets(db, 0) == []
  {
    TargetsInRange(db, 0);
    var todo := BlockTargets(db, 0);
    assert todo != [] ==> todo[0] in todo;
    forall t: nat ensures t in todo <==> MustBlock(db.tasks, db.deps, t) {
      WaitsForIt(db, t);
    }
  }

  /** Blocks what must be; the project is judged exactly when all its tasks are finished. */
  lemma FinalizesAlone(db: Db, w: Worker) returns (later: Db)
    requires w.phase == BlockList
    ensures |later.tasks| == |db.tasks| && later.project == db.project
    ensures forall t :: 0 <= t < |db.tasks| ==>
              later.tasks[t] == if MustBlock(db.tasks, db.deps, t) then Task(db.tasks[t].title, Blocked)
                                else db.tasks[t]
    ensures ComesTo(db, w, later, Counted(db, w))
    ensures Counted(db, w).phase == FinalReview(|db.tasks|) ==> later == db
  {
    TargetsMustBlock(db);
    later := BlocksTargets(db, w);
    if BlockTargets(db, 0) == [] {
      CountsAlone(db, w.(phase := CountTasks));
      ThenComes(db, w, db, w.(phase := CountTasks), db, Counted(db, w));
    }
  }

  /** Where the worker goes: to the review when all tasks are finished. */
  ghost function Counted(db: Db, w: Worker): Worker {
    w.(phase := if forall t :: 0 <= t < |db.tasks| ==> db.tasks[t].status in {Done, Cancelled}
      then FinalReview(|db.tasks|) else Over)
  }

  lemma CountsAlone(db: Db, w: Worker)
    requires w.phase == CountTasks
    ensures ComesTo(db, w, db, Counted(db, w))
  {
    OneStep(db, w, Go, NoOp, Counted(db, w).phase);
    StepLast(db, w, db, Counted(db, w));
  }

  /** A project that is approved, or whose reviewer fails, is COMPLETED; one that is rejected gets what is missing. */
  lemma JudgedAlone(db: Db, w: Worker, count: nat, titles: seq<string>) returns (queued: Db)
    requires w.phase == FinalReview(count)
    ensures var done := w.(phase := Complete(count));
      && Steps(db, w, Verdict(true), db, done) && Steps(db, w, LlmError, db, done)
      && Steps(db, done, Go, db.(project := ProjectCompleted), w.(phase := Over))
    ensures forall c: Choice :: !c.Crash? && !c.NewTasks? && !c.LlmError? && c != Verdict(true) ==>
              Steps(db, w, c, db, w.(phase := Over))
    ensures Steps(db, w, NewTasks(titles), db, w.(phase := DeltaCreate(titles)))
    ensures ComesTo(db, w.(phase := DeltaCreate(titles)), queued, w.(phase := Over))
    ensures QueuedBehind(db.tasks, queued.tasks, titles)
  {
    OneStep(db, w, Verdict(true), NoOp, Complete(count));
    OneStep(db, w, LlmError, NoOp, Complete(count));
    OneStep(db, w.(phase := Complete(count)), Go, CompleteProject, Over);
    OneStep(db, w, Verdict(false), NoOp, Over);
    OneStep(db, w, NewTasks(titles), NoOp, DeltaCreate(titles));
    queued := ReplansAlone(db, w.(phase := DeltaCreate(titles)), titles);
  }
}
