/**
 The store as the object the runtime calls (`internal/store/sqlite_tasks.go`,
 `sqlite_evidence.go`). Each method is one transaction: it either does what `Exec` says or
 reports an error and changes no row.
 */
module TaskStores {
  import opened TaskStatuses
  import opened Database
  import opened EventLog
  import opened StoreRows

  datatype StoreError =
    | NoRows
    | InvalidTransition(from: TaskStatus, to: TaskStatus)
    | ForeignKeyViolated
    | UniqueViolated

  datatype Result<+T> = Success(value: T) | Failure(error: StoreError)

  class TaskStore {
    var tasks: seq<Task>
    var dependencies: set<(nat, nat)>
    var attempts: seq<Attempt>
    var observations: seq<Observation>
    var testResults: seq<TestResult>
    var reviewResults: seq<ReviewResult>
    var events: seq<Event>
    var project: ProjectStatus

    ghost function Snapshot(): Db
      reads this
    {
      Db(tasks, dependencies, attempts, observations, testResults, reviewResults, events, project)
    }

    /** The log replays to the statuses and attempts are numbered without a gap. */
    ghost predicate Valid()
      reads this
    {
      LogConsistent(Snapshot())
    }

    constructor ()
      ensures Valid() && Snapshot() == EMPTY_DB
    {
      tasks, dependencies, attempts := [], {}, [];
      observations, testResults, reviewResults, events := [], [], [], [];
      project := ProjectActive;
    }

    method CreateTask(title: string) returns (id: nat)
      requires Valid()
      modifies this`tasks
      ensures Valid() && Snapshot() == Exec(old(Snapshot()), Op.CreateTask(title))
      ensures id == |old(tasks)|
      ensures tasks == old(tasks) + [Task(title, Draft)]
    {
      ExecKeepsLog(Snapshot(), Op.CreateTask(title));
      id := |tasks|;
      tasks := tasks + [Task(title, Draft)];
    }

    method CreateTaskDependency(task: nat, dependsOn: nat) returns (r: Result<()>)
      requires Valid()
      modifies this`dependencies
      ensures Valid()
      ensures r.Success? <==> task < |old(tasks)| && dependsOn < |old(tasks)| && (task, dependsOn) !in old(dependencies)
      ensures Snapshot() == old(Snapshot()).(deps := old(dependencies) + if r.Success? then {(task, dependsOn)} else {})
    {
      if task >= |tasks| || dependsOn >= |tasks| {
        return Failure(ForeignKeyViolated);
      }
      if (task, dependsOn) in dependencies {
        return Failure(UniqueViolated);
      }
      dependencies := dependencies + {(task, dependsOn)};
      return Success(());
    }

    method TransitionTask(id: nat, to: TaskStatus) returns (r: Result<Task>)
      requires Valid()
      modifies this`tasks, this`events
      ensures Valid()
      ensures r.Success? <==> Succeeds(old(Snapshot()), Transition(id, to))
      ensures r.Success? ==> Snapshot() == Exec(old(Snapshot()), Transition(id, to)) && r.value == tasks[id]
      ensures r.Failure? ==> Snapshot() == old(Snapshot())
      ensures r.Success? ==>
                && tasks == old(tasks)[id := Task(old(tasks)[id].title, to)]
                && events == old(events) + [StatusChanged(id, old(tasks)[id].status, to)]
      ensures r.Failure? ==> r.error == if id >= |tasks| then NoRows else InvalidTransition(tasks[id].status, to)
    {
      if id >= |tasks| {
        return Failure(NoRows);
      }
      var task := tasks[id];
      if !CanTransition(task.status, to) {
        return Failure(InvalidTransition(task.status, to));
      }
      ExecKeepsLog(Snapshot(), Transition(id, to));
      tasks := tasks[id := task.(status := to)];
      events := events + [StatusChanged(id, task.status, to)];
      return Success(tasks[id]);
    }

    method LargestAttemptNumber(task: nat) returns (largest: nat)
      ensures largest == MaxOf(NumbersOf(attempts, task))
    {
      largest := 0;
      for i := 0 to |attempts|
        invariant largest == MaxOf(NumbersOf(attempts[..i], task))
      {
        NumbersAppend(attempts[..i], attempts[i], task);
        assert attempts[..i + 1] == attempts[..i] + [attempts[i]];
        ghost var numbers := NumbersOf(attempts[..i], task);
        if attempts[i].task == task {
          assert (numbers + [attempts[i].number])[..|numbers|] == numbers;
          if attempts[i].number > largest {
            largest := attempts[i].number;
          }
        } else {
          assert numbers + [] == numbers;
        }
      }
      assert attempts[..|attempts|] == attempts;
    }

    /** The next number is one more than the largest so far, which is one more than how many there are. */
    method CreateTaskAttempt(task: nat) returns (r: Result<nat>)
      requires Valid()
      modifies this`attempts, this`events
      ensures Valid()
      ensures r.Success? <==> Succeeds(old(Snapshot()), CreateAttempt(task))
      ensures r.Success? ==> Snapshot() == Exec(old(Snapshot()), CreateAttempt(task)) && r.value == |old(attempts)|
      ensures r.Success? ==> attempts[r.value].number == |NumbersOf(old(attempts), task)| + 1
      ensures r.Failure? ==> Snapshot() == old(Snapshot())
      ensures r.Success? ==>
                && attempts == old(attempts) + [attempts[r.value]]
                && attempts[r.value].task == task && attempts[r.value].status == AttemptRunning
                && attempts[r.value].number == 1 + |AttemptsOf(old(attempts), task)|
    {
      if task >= |tasks| {
        return Failure(ForeignKeyViolated);
      }
      var largest := LargestAttemptNumber(task);
      AttemptKeepsLog(Snapshot(), task);
      NumbersAre(attempts, task);
      var id := |attempts|;
      attempts := attempts + [Attempt(task, largest + 1, AttemptRunning)];
      events := events + [Noted(task, "task_attempt.created")];
      return Success(id);
    }

    method CompleteTaskAttempt(attempt: nat, outcome: AttemptStatus) returns (r: Result<()>)
      requires Valid()
      modifies this`attempts, this`events
      ensures Valid()
      ensures r.Success? <==> Succeeds(old(Snapshot()), CompleteAttempt(attempt, outcome))
      ensures r.Success? ==> Snapshot() == Exec(old(Snapshot()), CompleteAttempt(attempt, outcome))
      ensures r.Failure? ==> Snapshot() == old(Snapshot())
      ensures r.Success? <==> attempt < |old(attempts)|
      ensures r.Success? ==>
                attempts == old(attempts)[attempt := Attempt(old(attempts)[attempt].task, old(attempts)[attempt].number,
                                                             outcome)]
    {
      if attempt >= |attempts| {
        return Failure(NoRows);
      }
      ExecKeepsLog(Snapshot(), CompleteAttempt(attempt, outcome));
      events := events + [Noted(attempts[attempt].task, "task_attempt.completed")];
      attempts := attempts[attempt := attempts[attempt].(status := outcome)];
      return Success(());
    }

    method CreateObservation(attempt: nat, kind: string, summary: string) returns (r: Result<()>)
      requires Valid()
      modifies this`observations
      ensures Valid()
      ensures r.Success? <==> Succeeds(old(Snapshot()), Observe(attempt, kind, summary))
      ensures r.Success? ==> Snapshot() == Exec(old(Snapshot()), Observe(attempt, kind, summary))
      ensures r.Failure? ==> Snapshot() == old(Snapshot())
      ensures r.Success? <==> attempt < |attempts|
      ensures r.Success? ==> observations == old(observations) + [Observation(attempt, kind, summary)]
    {
      if attempt >= |attempts| {
        return Failure(ForeignKeyViolated);
      }
      observations := observations + [Observation(attempt, kind, summary)];
      return Success(());
    }

    method CreateTestResult(attempt: nat, passed: bool) returns (r: Result<()>)
      requires Valid()
      modifies this`testResults
      ensures Valid()
      ensures r.Success? <==> Succeeds(old(Snapshot()), RecordTest(attempt, passed))
      ensures r.Success? ==> Snapshot() == Exec(old(Snapshot()), RecordTest(attempt, passed))
      ensures r.Failure? ==> Snapshot() == old(Snapshot())
      ensures r.Success? <==> attempt < |attempts|
      ensures r.Success? ==> testResults == old(testResults) + [TestResult(attempt, passed)]
    {
      if attempt >= |attempts| {
        return Failure(ForeignKeyViolated);
      }
      testResults := testResults + [TestResult(attempt, passed)];
      return Success(());
    }

    method CreateReviewResult(attempt: nat, approved: bool) returns (r: Result<()>)
      requires Valid()
      modifies this`reviewResults
      ensures Valid()
      ensures r.Success? <==> Succeeds(old(Snapshot()), RecordReview(attempt, approved))
      ensures r.Success? ==> Snapshot() == Exec(old(Snapshot()), RecordReview(attempt, approved))
      ensures r.Failure? ==> Snapshot() == old(Snapshot())
      ensures r.Success? <==> attempt < |attempts|
      ensures r.Success? ==> reviewResults == old(reviewResults) + [ReviewResult(attempt, approved)]
    {
      if attempt >= |attempts| {
        return Failure(ForeignKeyViolated);
      }
      reviewResults := reviewResults + [ReviewResult(attempt, approved)];
      return Success(());
    }

    method AddTaskEvent(event: Event) returns (r: Result<()>)
      requires Valid() && !event.StatusChanged?
      modifies this`events
      ensures Valid()
      ensures r.Success? <==> Succeeds(old(Snapshot()), AddEvent(event))
      ensures r.Success? ==> Snapshot() == Exec(old(Snapshot()), AddEvent(event))
      ensures r.Failure? ==> Snapshot() == old(Snapshot())
      ensures r.Success? <==> event.task < |tasks|
      ensures r.Success? ==> events == old(events) + [event]
    {
      if event.task >= |tasks| {
        return Failure(ForeignKeyViolated);
      }
      ExecKeepsLog(Snapshot(), AddEvent(event));
      events := events + [event];
      return Success(());
    }

    /** One task after the other. */
    method ClaimEach(ids: seq<nat>) returns (claimed: seq<nat>)
      requires Valid()
      modifies this`tasks, this`events
      ensures Valid() && Snapshot() == Exec(old(Snapshot()), Claim(ids))
      ensures claimed == Claimed(old(Snapshot()), ids)
    {
      claimed := [];
      for i := 0 to |ids|
        invariant Valid()
        invariant ClaimAll(Snapshot(), ids[i..]) == ClaimAll(old(Snapshot()), ids)
        invariant claimed + Claimed(Snapshot(), ids[i..]) == Claimed(old(Snapshot()), ids)
      {
        var id := ids[i];
        assert ids[i..][0] == id && ids[i..][1..] == ids[i + 1..];
        if id < |tasks| && tasks[id].status == Ready {
          MoveKeepsLog(Snapshot(), id, InProgress);
          ghost var before := Snapshot();
          tasks := tasks[id := tasks[id].(status := InProgress)];
          events := events + [StatusChanged(id, Ready, InProgress)];
          assert Snapshot() == Move(before, id, InProgress);
          claimed := claimed + [id];
        }
      }
    }

    /** Moves the tasks that are still READY to IN_PROGRESS, and returns exactly those. */
    method ClaimTasks(ids: seq<nat>) returns (claimed: seq<nat>)
      requires Valid()
      modifies this`tasks, this`events
      ensures Valid() && Snapshot() == Exec(old(Snapshot()), Claim(ids))
      ensures claimed == Claimed(old(Snapshot()), ids)
      ensures |tasks| == |old(tasks)|
      ensures forall t :: 0 <= t < |tasks| ==>
                tasks[t] == if t in ids && old(tasks)[t].status == Ready then Task(old(tasks)[t].title, InProgress)
                            else old(tasks)[t]
      ensures forall t :: t in claimed <==> t in ids && t < |tasks| && old(tasks)[t].status == Ready
      ensures forall i, j :: 0 <= i < j < |claimed| ==> claimed[i] != claimed[j]
      ensures |events| == |old(events)| + |claimed| && events[..|old(events)|] == old(events)
      ensures forall k :: |old(events)| <= k < |events| ==>
                events[k] == StatusChanged(claimed[k - |old(events)|], Ready, InProgress)
    {
      ClaimedRows(Snapshot(), ids);
      ClaimedTasks(Snapshot(), ids);
      ClaimedEvents(Snapshot(), ids);
      claimed := ClaimEach(ids);
    }

    method UpdateProjectStatus(to: ProjectStatus)
      requires Valid()
      modifies this`project
      ensures Valid() && Snapshot() == old(Snapshot()).(project := to)
    {
      project := to;
    }
  }
}
