/**
 What a worker of `Lifecycle` does when nobody interferes: each stretch of its steps changes
 the rows as the component it belongs to promises.
 */
module UndisturbedWorkers {
  import opened Options
  import opened TaskStatuses
  import opened Database
  import opened Lifecycle
  import opened RunSafety
  import opened Scheduler

  // ---- a worker alone --------------------------------------------------------------------------

  ghost function Alone(db: Db, w: Worker, c: Choice): (Db, Worker) {
    var step := StepOf(db, w, c);
    if Succeeds(db, step.op) then (Exec(db, step.op), Advanced(db, w, step)) else (db, w.(phase := step.failed))
  }

  function Fold<T, C>(f: (T, C) -> T, x: T, choices: seq<C>): T
    decreases |choices|
  {
    if choices == [] then x else Fold(f, f(x, choices[0]), choices[1..])
  }

  ghost function Acts(): ((Db, Worker), Choice) -> (Db, Worker) {
    (s: (Db, Worker), c: Choice) => Alone(s.0, s.1, c)
  }

  ghost function AloneAll(db: Db, w: Worker, choices: seq<Choice>): (Db, Worker) {
    Fold(Acts(), (db, w), choices)
  }

  function Acting(worker: nat, choices: seq<Choice>): seq<Action> {
    seq(|choices|, k requires 0 <= k < |choices| => Act(worker, choices[k]))
  }

  /** A run in which only one worker acts. */
  lemma {:induction false} AloneIsRun(s: System, i: nat, choices: seq<Choice>)
    requires i < |s.workers|
    ensures var t, (later, v) := Run(s, Acting(i, choices)), AloneAll(s.db, s.workers[i], choices);
      t.db == later && i < |t.workers| && t.workers[i] == v
    decreases |choices|
  {
    if choices != [] {
      assert Acting(i, choices)[1..] == Acting(i, choices[1..]);
      AloneIsRun(Next(s, Act(i, choices[0])), i, choices[1..]);
    }
  }

  /** A step that succeeds. */
  ghost predicate Steps(db: Db, w: Worker, c: Choice, later: Db, v: Worker) {
    Alone(db, w, c) == (later, v)
  }

  lemma OneStep(db: Db, w: Worker, c: Choice, op: Op, next: Phase)
    requires StepOf(db, w, c).op == op && StepOf(db, w, c).next == next && Succeeds(db, op) && !op.CreateAttempt?
    ensures Steps(db, w, c, Exec(db, op), w.(phase := next))
  {
  }

  /** A step that moves a task, logs that, and changes no other row. */
  lemma Moves(db: Db, w: Worker, c: Choice, task: nat, to: TaskStatus, next: Phase) returns (later: Db, v: Worker)
    requires StepOf(db, w, c).op == Transition(task, to) && StepOf(db, w, c).next == next
    requires task < |db.tasks| && CanTransition(db.tasks[task].status, to)
    ensures Steps(db, w, c, later, v) && v == w.(phase := next)
    ensures later == db.(tasks := db.tasks[task := Task(db.tasks[task].title, to)],
                         events := db.events + [StatusChanged(task, db.tasks[task].status, to)])
  {
    OneStep(db, w, c, Transition(task, to), next);
    later, v := Move(db, task, to), w.(phase := next);
  }

  lemma FoldThree<T, C>(f: (T, C) -> T, x: T, a: C, b: C, c: C)
    ensures Fold(f, x, [a, b, c]) == f(f(f(x, a), b), c)
  {
    FoldTwo(f, f(x, a), b, c);
    assert [a, b, c][1..] == [b, c];
  }

  lemma FoldTwo<T, C>(f: (T, C) -> T, x: T, a: C, b: C)
    ensures Fold(f, x, [a, b]) == f(f(x, a), b)
  {
    assert [a, b][1..] == [b] && [b][1..] == [];
    assert Fold(f, f(x, a), [b]) == Fold(f, f(f(x, a), b), []);
  }

  lemma Three(db: Db, w: Worker, a: Choice, b: Choice, c: Choice, d1: Db, w1: Worker, d2: Db, w2: Worker, d3: Db,
          w3: Worker)
    requires Steps(db, w, a, d1, w1) && Steps(d1, w1, b, d2, w2) && Steps(d2, w2, c, d3, w3)
    ensures AloneAll(db, w, [a, b, c]) == (d3, w3)
  {
    FoldThree(Acts(), (db, w), a, b, c);
  }

  /** A worker that stops changes no row. A write that the store refuses sends tester and reviewer to the repair. */
  lemma StopsAlone(db: Db, w: Worker, c: Choice)
    ensures Alone(db, w, Crash) == (db, w.(phase := Over))
    ensures !c.Crash? && !Succeeds(db, StepOf(db, w, c).op) ==>
              Alone(db, w, c)
              == (db, w.(phase := if w.phase in {TestStart, TestRun, TestPass, TestFail}
                           || w.phase in {ReviewGate, RejectTx, RejectAttempt, ApproveTx, ApproveAttempt}
                    then RepairRead else Over))
  {
  }

  // ---- executing, testing, reviewing ---------------------------------------------------------------

  /** The task has this status, and no other task has changed. */
  predicate OnlyNow(db: Db, later: Db, task: nat, status: TaskStatus)
    requires task < |db.tasks|
  {
    later.tasks == db.tasks[task := Task(db.tasks[task].title, status)]
  }

  /**
   A claimed task that is finished, failed, or waits for its user, as the model has chosen; its
   new attempt is left running, FAILED or CANCELLED.
   */
  lemma ExecutesAlone(db: Db, w: Worker, c: Choice)
    requires w.phase == StartAttempt && w.task < |db.tasks| && db.tasks[w.task].status == InProgress
    requires c.FinishWith? || c.FailNow? || c.AskUser?
    ensures var (later, v), n := AloneAll(db, w, [Go, c, Go]), |db.attempts|;
      && v.attempt == n && |later.attempts| == n + 1 && later.attempts[..n] == db.attempts
      && later.attempts[n].task == w.task
      && (c.FinishWith? ==>
            && OnlyNow(db, later, w.task, Implemented) && later.attempts[n].status == AttemptRunning
            && v.phase == TestStart
            && later.observations == db.observations + [Observation(n, "agent.finish", c.summary)])
      && (c.FailNow? ==>
            && OnlyNow(db, later, w.task, Failed) && later.attempts[n].status == AttemptFailed
            && v.phase == RepairRead && later.observations == db.observations)
      && (c.AskUser? ==>
            && OnlyNow(db, later, w.task, NeedUserInput) && later.attempts[n].status == AttemptCancelled
            && v.phase == RepairRead && later.observations == db.observations)
  {
    var w1 := w.(phase := ActionLoop, attempt := |db.attempts|);
    var d1 := AddAttempt(db, w.task);
    assert Steps(db, w, Go, d1, w1);
    var d2, w2 := ChoosesAlone(d1, w1, c);
    var d3, w3 := EndsAlone(d2, w2);
    Three(db, w, Go, c, Go, d1, w1, d2, w2, d3, w3);
  }

  /** Any other choice leaves the task where it is; what a tool has shown is recorded. */
  lemma WorksOnAlone(db: Db, w: Worker, c: Choice)
    requires w.phase == ActionLoop && w.task < |db.tasks| && w.attempt < |db.attempts|
    requires !c.FinishWith? && !c.FailNow? && !c.AskUser? && !c.Crash?
    ensures var (later, v) := Alone(db, w, c);
      && v == w && later.tasks == db.tasks && later.attempts == db.attempts
      && later.observations
         == db.observations + if c.Evidence? then [Observation(w.attempt, c.kind, c.summary)] else []
  {
    assert db.observations + [] == db.observations;
  }

  lemma ChoosesAlone(db: Db, w: Worker, c: Choice) returns (later: Db, v: Worker)
    requires w.phase == ActionLoop && w.task < |db.tasks| && db.tasks[w.task].status == InProgress
    requires w.attempt < |db.attempts| && (c.FinishWith? || c.FailNow? || c.AskUser?)
    ensures Steps(db, w, c, later, v) && later.attempts == db.attempts
    ensures v == w.(phase := if c.FinishWith? then FinishTx else if c.FailNow? then FailAttempt else CancelAttempt)
    ensures later.tasks == if c.FinishWith? then db.tasks
                           else db.tasks[w.task := Task(db.tasks[w.task].title, if c.FailNow? then Failed
                                         else NeedUserInput)]
    ensures later.observations
            == db.observations + if c.FinishWith? then [Observation(w.attempt, "agent.finish", c.summary)] else []
  {
    if c.FinishWith? {
      OneStep(db, w, c, Observe(w.attempt, FINISH, c.summary), FinishTx);
    } else if c.FailNow? {
      OneStep(db, w, c, Transition(w.task, Failed), FailAttempt);
    } else {
      OneStep(db, w, c, Transition(w.task, NeedUserInput), CancelAttempt);
    }
    var next := Alone(db, w, c);
    later, v := next.0, next.1;
  }

  lemma EndsAlone(db: Db, w: Worker) returns (later: Db, v: Worker)
    requires w.attempt < |db.attempts| && w.task < |db.tasks|
    requires w.phase == FailAttempt || w.phase == CancelAttempt
             || (w.phase == FinishTx && db.tasks[w.task].status == InProgress)
    ensures Steps(db, w, Go, later, v) && later.observations == db.observations
    ensures v == w.(phase := if w.phase == FinishTx then TestStart else RepairRead)
    ensures later.tasks == if w.phase == FinishTx then db.tasks[w.task := Task(db.tasks[w.task].title, Implemented)]
                           else db.tasks
    ensures later.attempts == if w.phase == FinishTx then db.attempts
                              else db.attempts[w.attempt := db.attempts[w.attempt].(
                                     status := if w.phase == FailAttempt then AttemptFailed else AttemptCancelled)]
  {
    if w.phase == FinishTx {
      OneStep(db, w, Go, Transition(w.task, Implemented), TestStart);
    } else {
      OneStep(db, w, Go, CompleteAttempt(w.attempt, if w.phase == FailAttempt then AttemptFailed else AttemptCancelled),
        RepairRead);
    }
    var next := Alone(db, w, Go);
    later, v := next.0, next.1;
  }

  /** The test is recorded; a task that passed goes on to its review, any other one to its repair. */
  lemma TestsAlone(db: Db, w: Worker, c: Choice)
    requires w.phase == TestStart && w.task < |db.tasks| && db.tasks[w.task].status == Implemented
    requires w.attempt < |db.attempts| && !c.Crash?
    ensures var (later, v), good := AloneAll(db, w, [Go, c, Go]), c == Verdict(true);
      && later.tests == db.tests + [TestResult(w.attempt, good)] && later.attempts == db.attempts
      && OnlyNow(db, later, w.task, if good then Reviewing else Failed)
      && v == w.(phase := if good then ReviewGate else RepairRead)
  {
    var d1, w1 := Moves(db, w, Go, w.task, Testing, TestRun);
    var d2, w2 := RunsTestAlone(d1, w1, c);
    var d3, w3 := EndsTestAlone(d2, w2, c == Verdict(true));
    assert d1.tasks == db.tasks[w.task := Task(db.tasks[w.task].title, Testing)] == d2.tasks;
    assert d2.tests == db.tests + [TestResult(w.attempt, c == Verdict(true))] == d3.tests;
    assert d1.tasks == db.tasks[w.task := Task(db.tasks[w.task].title, Testing)] == d2.tasks;
    assert d2.tests == db.tests + [TestResult(w.attempt, c == Verdict(true))] == d3.tests;
    Three(db, w, Go, c, Go, d1, w1, d2, w2, d3, w3);
  }

  lemma RunsTestAlone(db: Db, w: Worker, c: Choice) returns (later: Db, v: Worker)
    requires w.phase == TestRun && w.attempt < |db.attempts| && !c.Crash?
    ensures Steps(db, w, c, later, v) && v == w.(phase := if c == Verdict(true) then TestPass else TestFail)
    ensures later == db.(tests := db.tests + [TestResult(w.attempt, c == Verdict(true))])
  {
    var good := c == Verdict(true);
    OneStep(db, w, c, RecordTest(w.attempt, good), if good then TestPass else TestFail);
    later := db.(tests := db.tests + [TestResult(w.attempt, good)]);
    v := w.(phase := if good then TestPass else TestFail);
  }

  lemma EndsTestAlone(db: Db, w: Worker, good: bool) returns (later: Db, v: Worker)
    requires w.phase == (if good then TestPass else TestFail)
    requires w.task < |db.tasks| && db.tasks[w.task].status == Testing
    ensures Steps(db, w, Go, later, v) && v == w.(phase := if good then ReviewGate else RepairRead)
    ensures OnlyNow(db, later, w.task, if good then Reviewing else Failed)
    ensures later.tests == db.tests && later.attempts == db.attempts
  {
    later, v := Moves(db, w, Go, w.task, if good then Reviewing else Failed, if good then ReviewGate else RepairRead);
  }

  /** With evidence the verdict decides, without it the attempt is rejected; both are recorded. */
  lemma ReviewsAlone(db: Db, w: Worker, good: bool)
    requires w.phase == ReviewGate && w.task < |db.tasks| && db.tasks[w.task].status == Reviewing
    requires w.attempt < |db.attempts|
    ensures var (later, v), approved := AloneAll(db, w, [Verdict(good), Go, Go]), good && Evident(db, w.attempt);
      && later.reviews == db.reviews + [ReviewResult(w.attempt, approved)]
      && OnlyNow(db, later, w.task, if approved then Done else ReviewFailed)
      && later.attempts == db.attempts[w.attempt := db.attempts[w.attempt].(
             status := if approved then AttemptSucceeded else AttemptFailed)]
      && v == w.(phase := if approved then Walk([w.task]) else RepairRead)
  {
    var d1, w1 := JudgesAlone(db, w, good);
    var d2, w2 := MarksJudged(d1, w1);
    var d3, w3 := ConcludesAlone(d2, w2);
    Three(db, w, Verdict(good), Go, Go, d1, w1, d2, w2, d3, w3);
  }

  lemma JudgesAlone(db: Db, w: Worker, good: bool) returns (later: Db, v: Worker)
    requires w.phase == ReviewGate && w.attempt < |db.attempts|
    ensures var approved := good && Evident(db, w.attempt);
      && Steps(db, w, Verdict(good), later, v) && v == w.(phase := if approved then ApproveTx else RejectTx)
      && later == db.(reviews := db.reviews + [ReviewResult(w.attempt, approved)])
  {
    EvidentIs(db, w.attempt);
    var approved := good && Evident(db, w.attempt);
    OneStep(db, w, Verdict(good), RecordReview(w.attempt, approved), if approved then ApproveTx else RejectTx);
    later, v := db.(reviews := db.reviews + [ReviewResult(w.attempt, approved)]), w.(phase := if approved
        then ApproveTx else RejectTx);
  }

  lemma MarksJudged(db: Db, w: Worker) returns (later: Db, v: Worker)
    requires w.phase == ApproveTx || w.phase == RejectTx
    requires w.task < |db.tasks| && db.tasks[w.task].status == Reviewing
    ensures Steps(db, w, Go, later, v)
    ensures v == w.(phase := if w.phase == ApproveTx then ApproveAttempt else RejectAttempt)
    ensures OnlyNow(db, later, w.task, if w.phase == ApproveTx then Done else ReviewFailed)
    ensures later.attempts == db.attempts && later.reviews == db.reviews
  {
    var approved := w.phase == ApproveTx;
    later, v := Moves(db, w, Go, w.task, if approved then Done else ReviewFailed,
      if approved then ApproveAttempt else RejectAttempt);
  }

  lemma ConcludesAlone(db: Db, w: Worker) returns (later: Db, v: Worker)
    requires (w.phase == ApproveAttempt || w.phase == RejectAttempt) && w.attempt < |db.attempts|
    ensures Steps(db, w, Go, later, v) && later.tasks == db.tasks && later.reviews == db.reviews
    ensures v == w.(phase := if w.phase == ApproveAttempt then Walk([w.task]) else RepairRead)
    ensures later.attempts == db.attempts[w.attempt := db.attempts[w.attempt].(
                                  status := if w.phase == ApproveAttempt then AttemptSucceeded else AttemptFailed)]
  {
    var approved := w.phase == ApproveAttempt;
    OneStep(db, w, Go, CompleteAttempt(w.attempt, if approved then AttemptSucceeded else AttemptFailed),
      if approved then Walk([w.task]) else RepairRead);
    var next := Alone(db, w, Go);
    later, v := next.0, next.1;
  }

  /** A model that gives no verdict leaves no trace, and the task to its repair. */
  lemma NoVerdictAlone(db: Db, w: Worker, c: Choice)
    requires w.phase == ReviewGate && Evident(db, w.attempt) && !c.Crash? && !c.Verdict?
    ensures Alone(db, w, c) == (db, w.(phase := RepairRead))
  {
    EvidentIs(db, w.attempt);
  }

  // ---- scheduling -------------------------------------------------------------------------------------

  /** A scheduler that is not disturbed claims every task it has picked: the first that may run. */
  lemma SchedulesAlone(db: Db, w: Worker, limit: nat)
    requires w.phase == ListTasks
    ensures var ids := Candidates(db.tasks, db.deps, if limit == 0 then 1 else limit, 0);
      && (ids == [] ==> AloneAll(db, w, [Go, Limit(limit)]) == (db, w.(phase := Over)))
      && (ids != [] ==> AloneAll(db, w, [Go, Limit(limit), Go]) == (ClaimAll(db, ids), w.(phase := Over)))
      && Claimed(db, ids) == ids
  {
    var ids := Candidates(db.tasks, db.deps, if limit == 0 then 1 else limit, 0);
    var w1, w2 := w.(phase := ListDeps(db.tasks)), w.(phase := if ids == [] then Over else ClaimTx(ids));
    OneStep(db, w, Go, NoOp, ListDeps(db.tasks));
    OneStep(db, w1, Limit(limit), NoOp, w2.phase);
    AllPickedAreClaimed(db, if limit == 0 then 1 else limit);
    if ids == [] {
      Two(db, w, Go, Limit(limit), db, w1, db, w2);
    } else {
      OneStep(db, w2, Go, Claim(ids), Over);
      Three(db, w, Go, Limit(limit), Go, db, w1, db, w2, ClaimAll(db, ids), w.(phase := Over));
    }
  }

  lemma Two(db: Db, w: Worker, a: Choice, b: Choice, d1: Db, w1: Worker, d2: Db, w2: Worker)
    requires Steps(db, w, a, d1, w1) && Steps(d1, w1, b, d2, w2)
    ensures AloneAll(db, w, [a, b]) == (d2, w2)
  {
    FoldTwo(Acts(), (db, w), a, b);
  }

  lemma AllPickedAreClaimed(db: Db, limit: nat)
    ensures Claimed(db, Candidates(db.tasks, db.deps, limit, 0)) == Candidates(db.tasks, db.deps, limit, 0)
  {
    var ids := Candidates(db.tasks, db.deps, limit, 0);
    CandidatesAreTheFirst(db.tasks, db.deps, limit, 0);
    assert forall i :: 0 <= i < |ids| ==> ids[i] in ids;
    ClaimsAllReady(db, ids);
  }

  // ---- a user's commands ------------------------------------------------------------------------------

  lemma RunTwo(s: System, a: Action, b: Action)
    ensures Run(s, [a, b]) == Next(Next(s, a), b)
  {
    assert [a, b][1..] == [b];
    assert Run(Next(s, a), [b]) == Run(Next(Next(s, a), b), []);
  }

  lemma CommandActs(s: System, a: Action, ready: bool, task: nat)
    requires task < |s.db.tasks| && CanTransition(s.db.tasks[task].status, if ready then Ready else Blocked)
    requires Next(s, a) == s.(workers := s.workers + [Worker(UserMove(ready), task, 0, None)])
    ensures OnlyNow(s.db, Next(Next(s, a), Act(|s.workers|, Go)).db, task, if ready then Ready else Blocked)
  {
    var t := Next(s, a);
    assert t.workers[|s.workers|] == Worker(UserMove(ready), task, 0, None);
  }

  /** A retry queues a task that is neither queued, at work nor over. */
  lemma RetriesAlone(s: System, task: nat)
    requires task < |s.db.tasks|
    ensures var t := Run(s, [Retry(task), Act(|s.workers|, Go)]);
      if s.db.tasks[task].status in {Draft, Blocked, NeedUserInput, ReviewFailed, Failed}
      then OnlyNow(s.db, t.db, task, Ready) else t == s
  {
    RunTwo(s, Retry(task), Act(|s.workers|, Go));
    if Retryable(s.db.tasks[task].status) {
      CommandActs(s, Retry(task), true, task);
    }
  }

  /** An answer queues a task that asked, or blocks it. */
  lemma ConfirmsAlone(s: System, task: nat, approved: bool)
    requires task < |s.db.tasks|
    ensures var t := Run(s, [Confirm(task, approved), Act(|s.workers|, Go)]);
      if s.db.tasks[task].status == NeedUserInput
      then OnlyNow(s.db, t.db, task, if approved then Ready else Blocked) else t == s
  {
    RunTwo(s, Confirm(task, approved), Act(|s.workers|, Go));
    if s.db.tasks[task].status == NeedUserInput {
      CommandActs(s, Confirm(task, approved), approved, task);
    }
  }
}
