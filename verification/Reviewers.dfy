/** The reviewers (`internal/reviewer/evidence.go`, `internal/reviewer/llm.go`), on an undisturbed store. */
module Reviewers {
  import opened Options
  import opened TaskStatuses
  import opened Database
  import opened TaskStores
  import opened Lifecycle
  import opened RunSafety

  method FindPassedTest(store: TaskStore, attempt: nat) returns (found: bool)
    ensures found == HasPassedTest(store.Snapshot(), attempt)
  {
    for i := 0 to |store.testResults|
      invariant forall k :: 0 <= k < i ==> !(store.testResults[k].attempt == attempt && store.testResults[k].passed)
    {
      if store.testResults[i].attempt == attempt && store.testResults[i].passed {
        return true;
      }
    }
    return false;
  }

  method FindFinishEvidence(store: TaskStore, attempt: nat) returns (found: bool)
    ensures found == HasFinishEvidence(store.Snapshot(), attempt)
  {
    for i := 0 to |store.observations|
      invariant forall k :: 0 <= k < i ==> !IsFinishEvidence(store.observations[k], attempt)
    {
      if IsFinishEvidence(store.observations[i], attempt) {
        return true;
      }
    }
    return false;
  }

  datatype Outcome = Accepted | Rejected | NoVerdict | StoreRefused

  /** The rows after a verdict: a review, the task's new status, the attempt's outcome. */
  ghost predicate Concluded(db: Db, later: Db, task: nat, attempt: nat, good: bool)
    requires task < |db.tasks| && attempt < |db.attempts|
  {
    && later.reviews == db.reviews + [ReviewResult(attempt, good)]
    && later.tasks == SetStatus(db.tasks, task, if good then Done else ReviewFailed)
    && later.attempts == db.attempts[attempt := db.attempts[attempt].(status := if good then AttemptSucceeded
        else AttemptFailed)]
    && later.deps == db.deps && later.observations == db.observations && later.tests == db.tests
  }

  method Conclude(store: TaskStore, task: nat, attempt: nat, good: bool) returns (outcome: Outcome)
    requires store.Valid()
    modifies store
    ensures store.Valid()
    ensures var db, to := old(store.Snapshot()), if good then Done else ReviewFailed;
      if task < |db.tasks| && attempt < |db.attempts| && CanTransition(db.tasks[task].status, to)
      then outcome == (if good then Accepted else Rejected) && Concluded(db, store.Snapshot(), task, attempt, good)
      else outcome == StoreRefused && store.tasks == db.tasks && store.attempts == db.attempts
  {
    var reviewed := store.CreateReviewResult(attempt, good);
    if reviewed.Failure? {
      return StoreRefused;
    }
    var moved := store.TransitionTask(task, if good then Done else ReviewFailed);
    if moved.Failure? {
      return StoreRefused;
    }
    var completed := store.CompleteTaskAttempt(attempt, if good then AttemptSucceeded else AttemptFailed);
    return if good then Accepted else Rejected;
  }

  /**
   The evidence gate comes first: without a passed test and finish evidence the attempt is
   rejected whatever the model would say. `verdict` is the model's answer, none when it
   cannot give one; the evidence reviewer always answers yes.
   */
  method Review(store: TaskStore, task: nat, attempt: nat, verdict: Option<bool>) returns (outcome: Outcome)
    requires store.Valid()
    modifies store
    ensures store.Valid()
    ensures outcome == Accepted <==>
              && Evident(old(store.Snapshot()), attempt) && verdict == Some(true)
              && task < |old(store.tasks)| && attempt < |old(store.attempts)|
              && CanTransition(old(store.tasks)[task].status, Done)
    ensures outcome == Accepted ==> Concluded(old(store.Snapshot()), store.Snapshot(), task, attempt, true)
    ensures outcome == Accepted ==> Approved(store.Snapshot(), attempt)
    ensures outcome == Rejected <==>
              && (!Evident(old(store.Snapshot()), attempt) || verdict == Some(false))
              && task < |old(store.tasks)| && attempt < |old(store.attempts)|
              && CanTransition(old(store.tasks)[task].status, ReviewFailed)
    ensures outcome == Rejected ==> Concluded(old(store.Snapshot()), store.Snapshot(), task, attempt, false)
    ensures outcome == NoVerdict <==> Evident(old(store.Snapshot()), attempt) && verdict == None
    ensures outcome == NoVerdict ==> store.Snapshot() == old(store.Snapshot())
    ensures outcome == StoreRefused ==> store.tasks == old(store.tasks) && store.attempts == old(store.attempts)
  {
    ghost var db := store.Snapshot();
    EvidentIs(db, attempt);
    var passed := FindPassedTest(store, attempt);
    if !passed {
      outcome := Conclude(store, task, attempt, false);
      return;
    }
    var finished := FindFinishEvidence(store, attempt);
    if !finished {
      outcome := Conclude(store, task, attempt, false);
      return;
    }
    if verdict == None {
      return NoVerdict;
    }
    outcome := Conclude(store, task, attempt, verdict.value);
    if outcome == Accepted {
      ApprovedNow(db, store.Snapshot(), task, attempt);
    }
  }

  lemma ApprovedNow(db: Db, later: Db, task: nat, attempt: nat)
    requires task < |db.tasks| && attempt < |db.attempts| && Evident(db, attempt)
        && Concluded(db, later, task, attempt, true)
    ensures Approved(later, attempt)
  {
    EvidentIs(db, attempt);
    assert later.reviews[|db.reviews|] == ReviewResult(attempt, true);
  }
}
