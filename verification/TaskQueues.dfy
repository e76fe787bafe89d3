/**
 The queue of project runs (`internal/runtime/queue.go`). Each method below is one atomic
 section of the code: between two of them any other caller or worker may take its turn, so
 an interleaving is a sequence of calls, and what every method keeps holds at every moment.
 */
module TaskQueues {

  const BUFFER := 256

  /**
   A call of `Submit` that has marked its project: it sends next, or has found the buffer full.
   One that was refused counts that next, without the lock.
   */
  datatype Submitter = Marked(project: string) | BufferFull(project: string) | Refused | Returned

  /** A worker goroutine, between receiving a project and clearing its mark. */
  datatype Worker =
    | Idle
    | Received(project: string)
    | Running(project: string)
    | Ran(project: string)
    | Processed(project: string)
    | Gone

  // ---- counting --------------------------------------------------------------------------

  /** How many elements satisfy a predicate. */
  function Tally<T>(s: seq<T>, f: T -> bool): nat {
    if s == [] then 0 else Tally(s[..|s| - 1], f) + if f(s[|s| - 1]) then 1 else 0
  }

  lemma {:induction false} TallyCounts<T>(s: seq<T>, f: T -> bool, places: set<int>)
    requires forall i :: i in places <==> 0 <= i < |s| && f(s[i])
    ensures Tally(s, f) == |places|
  {
    if s == [] {
      assert forall i :: i !in places;
      assert places == {};
    } else {
      var n := |s| - 1;
      TallyCounts(s[..n], f, places - {n});
      if n !in places {
        assert places - {n} == places;
      }
    }
  }

  lemma TallyAppend<T>(s: seq<T>, x: T, f: T -> bool)
    ensures Tally(s + [x], f) == Tally(s, f) + if f(x) then 1 else 0
  {
    assert (s + [x])[..|s|] == s;
  }

  lemma {:induction false} TallyUpdate<T>(s: seq<T>, i: nat, x: T, f: T -> bool)
    requires i < |s|
    ensures Tally(s[i := x], f) + (if f(s[i]) then 1 else 0) == Tally(s, f) + (if f(x) then 1 else 0)
    decreases |s|
  {
    var n := |s| - 1;
    if i < n {
      assert s[i := x][..n] == s[..n][i := x];
      TallyUpdate(s[..n], i, x, f);
    } else {
      assert s[i := x][..n] == s[..n];
    }
  }

  lemma {:induction false} TallyRest<T>(s: seq<T>, f: T -> bool)
    requires s != []
    ensures Tally(s, f) == (if f(s[0]) then 1 else 0) + Tally(s[1..], f)
    decreases |s|
  {
    var n := |s| - 1;
    if n > 0 {
      TallyRest(s[..n], f);
      assert s[..n][1..] == s[1..][..n - 1];
    }
  }

  lemma {:induction false} TallySeen<T>(s: seq<T>, i: nat, f: T -> bool)
    requires i < |s| && f(s[i])
    ensures Tally(s, f) >= 1
    ensures forall j :: 0 <= j < i && f(s[j]) ==> Tally(s, f) >= 2
    decreases |s|
  {
    var n := |s| - 1;
    if i < n {
      TallySeen(s[..n], i, f);
    } else {
      forall j | 0 <= j < i && f(s[j]) ensures Tally(s[..n], f) >= 1 {
        TallySeen(s[..n], j, f);
      }
    }
  }

  lemma {:induction false} TallyMoreIdle(workers: seq<Worker>, n: nat, f: Worker -> bool)
    requires !f(Idle)
    ensures Tally(workers + seq(n, _ => Idle), f) == Tally(workers, f)
    decreases n
  {
    if n == 0 {
      assert workers + seq(0, _ => Idle) == workers;
    } else {
      assert (workers + seq(n, _ => Idle))[..|workers| + n - 1] == workers + seq(n - 1, _ => Idle);
      TallyMoreIdle(workers, n - 1, f);
    }
  }

  // ---- who holds a project ---------------------------------------------------------------

  function Submits(p: string): Submitter -> bool {
    (s: Submitter) => (s.Marked? || s.BufferFull?) && s.project == p
  }

  function Queues(p: string): string -> bool {
    (q: string) => q == p
  }

  predicate Holds(w: Worker, p: string) {
    !w.Idle? && !w.Gone? && w.project == p
  }

  function Works(p: string): Worker -> bool {
    (w: Worker) => Holds(w, p)
  }

  const SUBMITTING: Submitter -> bool := (s: Submitter) => !s.Returned?
  const RUNNING: Worker -> bool := (w: Worker) => w.Running?
  const IN_RUN: Worker -> bool := (w: Worker) => InRun(w)

  predicate InRun(w: Worker) {
    w.Received? || w.Running? || w.Ran?
  }

  /** How many submitters, places of the channel and workers hold a project. */
  function Holders(submitters: seq<Submitter>, work: seq<string>, workers: seq<Worker>, p: string): nat {
    Tally(submitters, Submits(p)) + Tally(work, Queues(p)) + Tally(workers, Works(p))
  }

  /** A marked project has exactly one holder, any other has none. */
  ghost predicate OneHolder(pending: set<string>, submitters: seq<Submitter>, work: seq<string>, workers: seq<Worker>) {
    forall p :: Holders(submitters, work, workers, p) == if p in pending then 1 else 0
  }

  /** A project changes hands, or is taken up or let go along with its mark. */
  lemma SubmitterActs(pending: set<string>, submitters: seq<Submitter>, work: seq<string>, workers: seq<Worker>, i: nat)
    requires OneHolder(pending, submitters, work, workers) && i < |submitters|
    requires submitters[i].Marked? || submitters[i].BufferFull?
    ensures submitters[i].project in pending
    ensures OneHolder(pending, submitters[i := Returned], work + [submitters[i].project], workers)
    ensures OneHolder(pending, submitters[i := BufferFull(submitters[i].project)], work, workers)
    ensures OneHolder(pending - {submitters[i].project}, submitters[i := Refused], work, workers)
  {
    var project := submitters[i].project;
    TallySeen(submitters, i, Submits(project));
    assert Holders(submitters, work, workers, project) >= 1;
    forall p
      ensures Holders(submitters[i := Returned], work + [project], workers, p) == Holders(submitters, work, workers, p)
      ensures Holders(submitters[i := BufferFull(project)], work, workers, p) == Holders(submitters, work, workers, p)
      ensures Holders(submitters[i := Refused], work, workers, p)
                == Holders(submitters, work, workers, p) - if p == project then 1 else 0
    {
      TallyUpdate(submitters, i, Returned, Submits(p));
      TallyUpdate(submitters, i, Refused, Submits(p));
      TallyUpdate(submitters, i, BufferFull(project), Submits(p));
      TallyAppend(work, project, Queues(p));
    }
  }

  lemma SubmitterJoins(pending: set<string>, submitters: seq<Submitter>, work: seq<string>, workers: seq<Worker>,
          project: string)
    requires OneHolder(pending, submitters, work, workers) && project !in pending
    ensures OneHolder(pending + {project}, submitters + [Marked(project)], work, workers)
  {
    forall p ensures Holders(submitters + [Marked(project)], work, workers, p)
                       == Holders(submitters, work, workers, p) + if p == project then 1 else 0 {
      TallyAppend(submitters, Marked(project), Submits(p));
    }
  }

  lemma SubmitterRefused(pending: set<string>, submitters: seq<Submitter>, work: seq<string>, workers: seq<Worker>)
    requires OneHolder(pending, submitters, work, workers)
    ensures OneHolder(pending, submitters + [Refused], work, workers)
  {
    forall p ensures Holders(submitters + [Refused], work, workers, p) == Holders(submitters, work, workers, p) {
      TallyAppend(submitters, Refused, Submits(p));
    }
  }

  lemma WorkerReceives(pending: set<string>, submitters: seq<Submitter>, work: seq<string>, workers: seq<Worker>,
          i: nat)
    requires OneHolder(pending, submitters, work, workers) && i < |workers| && workers[i].Idle? && work != []
    ensures OneHolder(pending, submitters, work[1..], workers[i := Received(work[0])])
  {
    forall p ensures Holders(submitters, work[1..], workers[i := Received(work[0])], p)
        == Holders(submitters, work, workers, p) {
      TallyUpdate(workers, i, Received(work[0]), Works(p));
      TallyRest(work, Queues(p));
    }
  }

  lemma WorkerKeeps(pending: set<string>, submitters: seq<Submitter>, work: seq<string>, workers: seq<Worker>, i: nat,
          w: Worker)
    requires OneHolder(pending, submitters, work, workers) && i < |workers|
    requires forall p :: Holds(w, p) == Holds(workers[i], p)
    ensures OneHolder(pending, submitters, work, workers[i := w])
  {
    forall p ensures Holders(submitters, work, workers[i := w], p) == Holders(submitters, work, workers, p) {
      TallyUpdate(workers, i, w, Works(p));
    }
  }

  lemma WorkerLetsGo(pending: set<string>, submitters: seq<Submitter>, work: seq<string>, workers: seq<Worker>, i: nat)
    requires OneHolder(pending, submitters, work, workers) && i < |workers| && !workers[i].Idle? && !workers[i].Gone?
    ensures OneHolder(pending - {workers[i].project}, submitters, work, workers[i := Idle])
  {
    var project := workers[i].project;
    TallySeen(workers, i, Works(project));
    assert Holders(submitters, work, workers, project) >= 1;
    forall p ensures Holders(submitters, work, workers[i := Idle], p)
                       == Holders(submitters, work, workers, p) - if p == project then 1 else 0 {
      TallyUpdate(workers, i, Idle, Works(p));
    }
  }

  // ---- the queue ----------------------------------------------------------------------------

  datatype MarkResult = NotStarted | Duplicate(submitter: nat) | Accepted(submitter: nat)

  datatype QueueStats = QueueStats(queued: nat, running: nat, processed: nat, deduplicated: nat, workers: nat)

  class TaskQueue {
    const workerCount: nat
    var started: bool
    var cancelled: bool
    var pending: set<string>
    var work: seq<string>
    var submitters: seq<Submitter>
    var workers: seq<Worker>
    var running: nat
    var processed: nat
    var dropped: nat
    /** Calls of `Submit` that returned true. */
    ghost var accepted: nat
    /** Calls of `Submit` on a started queue. */
    ghost var submitted: nat

    /**
     A project is marked exactly when one submitter, one place of the channel or one worker
     holds it; accepted submissions are processed, queued, or being run.
     */
    ghost predicate Valid()
      reads this
    {
      && OneHolder(pending, submitters, work, workers)
      && |work| <= BUFFER
      && running == Tally(workers, RUNNING)
      && accepted == processed + |work| + Tally(workers, IN_RUN)
      && submitted == accepted + dropped + Tally(submitters, SUBMITTING)
    }

    constructor (workers: nat)
      ensures Valid() && !started && !cancelled && pending == {} && work == [] && submitters == [] && this.workers == []
      ensures running == processed == dropped == accepted == submitted == 0
      ensures workerCount == if workers == 0 then 1 else workers
    {
      workerCount := if workers == 0 then 1 else workers;
      started, cancelled := false, false;
      pending, work, submitters, this.workers := {}, [], [], [];
      running, processed, dropped, accepted, submitted := 0, 0, 0, 0, 0;
    }

    /** Starts the workers, once. */
    method Start()
      requires Valid()
      modifies this`started, this`workers
      ensures Valid() && started
      ensures workers == old(workers) + if old(started) then [] else seq(workerCount, _ => Idle)
    {
      if started {
        assert workers + [] == workers;
        return;
      }
      forall p ensures Tally(workers + seq(workerCount, _ => Idle), Works(p)) == Tally(workers, Works(p)) {
        TallyMoreIdle(workers, workerCount, Works(p));
      }
      TallyMoreIdle(workers, workerCount, RUNNING);
      TallyMoreIdle(workers, workerCount, IN_RUN);
      SamePending(pending, submitters, work, workers, workers + seq(workerCount, _ => Idle));
      started := true;
      workers := workers + seq(workerCount, _ => Idle);
    }

    /** The locked part of `Submit`: refuses, or marks the project and goes on to send it. */
    method Mark(project: string) returns (r: MarkResult)
      requires Valid()
      modifies this`pending, this`submitters, this`submitted
      ensures Valid()
      ensures r == NotStarted <==> !old(started)
      ensures r.Duplicate? <==> old(started) && project in old(pending)
      ensures r.Accepted? ==> r.submitter == |old(submitters)| && submitters == old(submitters) + [Marked(project)]
      ensures r.Duplicate? ==> r.submitter == |old(submitters)| && submitters == old(submitters) + [Refused]
      ensures r.NotStarted? ==> submitters == old(submitters)
      ensures pending == if r.Accepted? then old(pending) + {project} else old(pending)
      ensures submitted == old(submitted) + if old(started) then 1 else 0
    {
      if !started {
        return NotStarted;
      }
      if project in pending {
        SubmitterRefused(pending, submitters, work, workers);
        TallyAppend(submitters, Refused, SUBMITTING);
        submitters, submitted := submitters + [Refused], submitted + 1;
        return Duplicate(|submitters| - 1);
      }
      SubmitterJoins(pending, submitters, work, workers, project);
      TallyAppend(submitters, Marked(project), SUBMITTING);
      pending, submitters, submitted := pending + {project}, submitters + [Marked(project)], submitted + 1;
      return MarkResult.Accepted(|submitters| - 1);
    }

    /** The send of `Submit`, which never blocks: into the channel, or it finds the buffer full. */
    method Send(submitter: nat) returns (sent: bool)
      requires Valid() && submitter < |submitters| && submitters[submitter].Marked?
      modifies this`work, this`submitters, this`accepted
      ensures Valid()
      ensures sent <==> |old(work)| < 256
      ensures work == if sent then old(work) + [old(submitters)[submitter].project] else old(work)
      ensures accepted == old(accepted) + if sent then 1 else 0
      ensures submitters == old(submitters)[submitter := if sent then Returned
          else BufferFull(old(submitters)[submitter].project)]
    {
      var project := submitters[submitter].project;
      SubmitterActs(pending, submitters, work, workers, submitter);
      TallyUpdate(submitters, submitter, if |work| < BUFFER then Returned else BufferFull(project), SUBMITTING);
      if |work| < BUFFER {
        work := work + [project];
        submitters := submitters[submitter := Returned];
        accepted := accepted + 1;
        return true;
      }
      submitters := submitters[submitter := BufferFull(project)];
      return false;
    }

    /** The rollback of `Submit` after it found the buffer full. */
    method Unmark(submitter: nat)
      requires Valid() && submitter < |submitters| && submitters[submitter].BufferFull?
      modifies this`pending, this`submitters
      ensures Valid()
      ensures pending == old(pending) - {old(submitters)[submitter].project}
      ensures submitters == old(submitters)[submitter := Refused]
    {
      var project := submitters[submitter].project;
      SubmitterActs(pending, submitters, work, workers, submitter);
      TallyUpdate(submitters, submitter, Refused, SUBMITTING);
      pending := pending - {project};
      submitters := submitters[submitter := Refused];
    }

    /** A refused submission is counted once the lock is released. */
    method CountDropped(submitter: nat)
      requires Valid() && submitter < |submitters| && submitters[submitter].Refused?
      modifies this`submitters, this`dropped
      ensures Valid()
      ensures dropped == old(dropped) + 1
      ensures submitters == old(submitters)[submitter := Returned]
    {
      forall p ensures Holders(submitters[submitter := Returned], work, workers, p)
          == Holders(submitters, work, workers, p) {
        TallyUpdate(submitters, submitter, Returned, Submits(p));
      }
      TallyUpdate(submitters, submitter, Returned, SUBMITTING);
      submitters := submitters[submitter := Returned];
      dropped := dropped + 1;
    }

    /** An idle worker receives the oldest queued project. */
    method Receive(worker: nat)
      requires Valid() && worker < |workers| && workers[worker].Idle? && work != []
      modifies this`work, this`workers
      ensures Valid()
      ensures work == old(work)[1..] && workers == old(workers)[worker := Received(old(work)[0])]
    {
      WorkerReceives(pending, submitters, work, workers, worker);
      TallyUpdate(workers, worker, Received(work[0]), RUNNING);
      TallyUpdate(workers, worker, Received(work[0]), IN_RUN);
      workers := workers[worker := Received(work[0])];
      work := work[1..];
    }

    /** The worker's next atomic step while it has a project: count it as running, run it, count it as processed. */
    method Advance(worker: nat)
      requires Valid() && worker < |workers| && InRun(workers[worker])
      modifies this`running, this`processed, this`workers
      ensures Valid()
      ensures match old(workers)[worker] {
        case Received(p) => workers == old(workers)[worker := Running(p)] && running == old(running) + 1
        case Running(p) => workers == old(workers)[worker := Ran(p)] && running == old(running) - 1
        case Ran(p) => workers == old(workers)[worker := Processed(p)] && running == old(running)
      }
      ensures processed == old(processed) + if old(workers)[worker].Ran? then 1 else 0
    {
      WorkerKeeps(pending, submitters, work, workers, worker, Stepped(workers[worker]));
      TallyUpdate(workers, worker, Stepped(workers[worker]), RUNNING);
      TallyUpdate(workers, worker, Stepped(workers[worker]), IN_RUN);
      match workers[worker] {
        case Received(_) => running := running + 1;
        case Running(_) => running := running - 1;
        case Ran(_) => processed := processed + 1;
      }
      workers := workers[worker := Stepped(workers[worker])];
    }

    /** Clears the mark after a run, so that the project can be submitted again. */
    method MarkDone(worker: nat)
      requires Valid() && worker < |workers| && workers[worker].Processed?
      modifies this`pending, this`workers
      ensures Valid()
      ensures pending == old(pending) - {old(workers)[worker].project}
      ensures workers == old(workers)[worker := Idle]
    {
      var project := workers[worker].project;
      WorkerLetsGo(pending, submitters, work, workers, worker);
      TallyUpdate(workers, worker, Idle, RUNNING);
      TallyUpdate(workers, worker, Idle, IN_RUN);
      pending := pending - {project};
      workers := workers[worker := Idle];
    }

    /** Stops accepting submissions and lets idle workers leave; what is queued stays queued. */
    method Stop()
      requires Valid()
      modifies this`started, this`cancelled
      ensures Valid() && !started && cancelled == (old(cancelled) || old(started))
    {
      cancelled := cancelled || started;
      started := false;
    }

    method Leave(worker: nat)
      requires Valid() && cancelled && worker < |workers| && workers[worker].Idle?
      modifies this`workers
      ensures Valid()
      ensures workers == old(workers)[worker := Gone]
    {
      WorkerKeeps(pending, submitters, work, workers, worker, Gone);
      TallyUpdate(workers, worker, Gone, RUNNING);
      TallyUpdate(workers, worker, Gone, IN_RUN);
      workers := workers[worker := Gone];
    }

    /**
     Every project that is being submitted, waits, or has a worker counts as queued; every
     accepted submission is processed, waits or is being run, and every other one was dropped
     or is still under way.
     */
    method Stats() returns (stats: QueueStats)
      requires Valid()
      ensures stats.queued == |pending| && forall p :: p in pending <==> Holders(submitters, work, workers, p) == 1
      ensures stats.running == |set i | 0 <= i < |workers| && workers[i].Running?|
      ensures accepted
              == stats.processed + |work|
                 + |set i | 0 <= i < |workers| && (workers[i].Received? || workers[i].Running? || workers[i].Ran?)|
      ensures submitted
              == accepted + stats.deduplicated
                 + |set i | 0 <= i < |submitters| && submitters[i] != Returned|
      ensures stats.workers == workerCount
    {
      TallyCounts(workers, RUNNING, set i | 0 <= i < |workers| && workers[i].Running?);
      TallyCounts(workers, IN_RUN,
        set i | 0 <= i < |workers| && (workers[i].Received? || workers[i].Running? || workers[i].Ran?));
      TallyCounts(submitters, SUBMITTING, set i | 0 <= i < |submitters| && submitters[i] != Returned);
      stats := QueueStats(|pending|, running, processed, dropped, workerCount);
    }
  }

  function Stepped(w: Worker): Worker
    requires InRun(w)
  {
    match w
    case Received(p) => Running(p)
    case Running(p) => Ran(p)
    case Ran(p) => Processed(p)
  }

  lemma SamePending(pending: set<string>, submitters: seq<Submitter>, work: seq<string>, workers: seq<Worker>,
          more: seq<Worker>)
    requires OneHolder(pending, submitters, work, workers)
    requires forall p :: Tally(more, Works(p)) == Tally(workers, Works(p))
    ensures OneHolder(pending, submitters, work, more)
  {
    forall p ensures Holders(submitters, work, more, p) == Holders(submitters, work, workers, p) {
    }
  }

  // ---- what holds at every moment ---------------------------------------------------------------

  /** No project is queued twice. */
  lemma NoProjectQueuedTwice(q: TaskQueue, i: nat, j: nat)
    requires q.Valid() && i < j < |q.work|
    ensures q.work[i] != q.work[j]
  {
    var p := q.work[j];
    assert Holders(q.submitters, q.work, q.workers, p) <= 1;
    TallySeen(q.work, j, Queues(p));
  }

  /** No project is run by two workers, or run while it is queued. */
  lemma NoProjectRunTwice(q: TaskQueue, i: nat, p: string)
    requires q.Valid() && i < |q.workers| && q.workers[i] in {Received(p), Running(p), Ran(p), Processed(p)}
    ensures p !in q.work
    ensures forall j :: 0 <= j < |q.workers| && j != i ==>
              q.workers[j] !in {Received(p), Running(p), Ran(p), Processed(p)}
  {
    assert Holders(q.submitters, q.work, q.workers, p) <= 1;
    TallySeen(q.workers, i, Works(p));
    if p in q.work {
      var k :| 0 <= k < |q.work| && q.work[k] == p;
      TallySeen(q.work, k, Queues(p));
    }
    forall j | 0 <= j < |q.workers| && j != i ensures !Holds(q.workers[j], p) {
      if Holds(q.workers[j], p) {
        TallySeen(q.workers, j, Works(p));
      }
    }
  }

  lemma {:induction false} TallyFinds<T>(s: seq<T>, f: T -> bool)
    requires Tally(s, f) >= 1
    ensures exists i :: 0 <= i < |s| && f(s[i])
  {
    if !f(s[|s| - 1]) {
      TallyFinds(s[..|s| - 1], f);
    }
  }

  /**
   A submission is refused as a duplicate exactly while its project is being submitted,
   queued, or run to the end; so one that comes during a run leads to no later run.
   */
  lemma RefusedExactlyWhileHeld(q: TaskQueue, p: string)
    requires q.Valid()
    ensures p in q.pending <==>
              || (exists i :: 0 <= i < |q.submitters| && q.submitters[i] in {Marked(p), BufferFull(p)})
              || p in q.work
              || (exists i :: 0 <= i < |q.workers| && q.workers[i] in {Received(p), Running(p), Ran(p), Processed(p)})
  {
    assert Holders(q.submitters, q.work, q.workers, p) == if p in q.pending then 1 else 0;
    if p in q.pending {
      if Tally(q.submitters, Submits(p)) >= 1 {
        TallyFinds(q.submitters, Submits(p));
        var i :| 0 <= i < |q.submitters| && Submits(p)(q.submitters[i]);
        assert q.submitters[i] in {Marked(p), BufferFull(p)};
      } else if Tally(q.work, Queues(p)) >= 1 {
        TallyFinds(q.work, Queues(p));
      } else {
        TallyFinds(q.workers, Works(p));
        var i :| 0 <= i < |q.workers| && Works(p)(q.workers[i]);
        assert q.workers[i] in {Received(p), Running(p), Ran(p), Processed(p)};
      }
    } else {
      forall i | 0 <= i < |q.submitters| ensures q.submitters[i] !in {Marked(p), BufferFull(p)} {
        if Submits(p)(q.submitters[i]) { TallySeen(q.submitters, i, Submits(p)); }
      }
      forall i | 0 <= i < |q.work| ensures q.work[i] != p {
        if q.work[i] == p { TallySeen(q.work, i, Queues(p)); }
      }
      forall i | 0 <= i < |q.workers| ensures q.workers[i] !in {Received(p), Running(p), Ran(p), Processed(p)} {
        if Holds(q.workers[i], p) { TallySeen(q.workers, i, Works(p)); }
      }
    }
  }
}
