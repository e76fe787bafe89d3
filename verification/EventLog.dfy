/** The event log is a faithful history: replaying it gives every task's status. */
module EventLog {
  import opened Options
  import opened TaskStatuses
  import opened DependencyNormalizer
  import opened Database

  /** 1, 2, 3, and so on. */
  predicate Consecutive(numbers: seq<nat>) {
    forall i :: 0 <= i < |numbers| ==> numbers[i] == i + 1
  }

  ghost predicate LogConsistent(db: Db) {
    && (forall t: nat :: t < |db.tasks| ==> Replay(db.events, t) == Some(db.tasks[t].status))
    && (forall i :: 0 <= i < |db.events| ==> db.events[i].task < |db.tasks|)
    && (forall a :: 0 <= a < |db.attempts| ==> db.attempts[a].task < |db.tasks|)
    && (forall t: nat :: Consecutive(NumbersOf(db.attempts, t)))
  }

  // ---- what replay means -------------------------------------------------------------

  function ChangesOf(events: seq<Event>, task: nat): seq<(TaskStatus, TaskStatus)> {
    if events == [] then []
    else
      var e := events[|events| - 1];
      ChangesOf(events[..|events| - 1], task) + if e.StatusChanged? && e.task == task then [(e.from, e.to)] else []
  }

  /** Each change starts where the one before it ended, the first in DRAFT, and is in the table. */
  predicate Chains(changes: seq<(TaskStatus, TaskStatus)>) {
    forall i :: 0 <= i < |changes| ==> LinksAt(changes, i)
  }

  predicate LinksAt(changes: seq<(TaskStatus, TaskStatus)>, i: nat)
    requires i < |changes|
  {
    && changes[i].0 == (if i == 0 then Draft else changes[i - 1].1)
    && CanTransition(changes[i].0, changes[i].1)
  }

  function LastStatus(changes: seq<(TaskStatus, TaskStatus)>): TaskStatus {
    if changes == [] then Draft else changes[|changes| - 1].1
  }

  lemma ChainsAppend(changes: seq<(TaskStatus, TaskStatus)>, next: (TaskStatus, TaskStatus))
    ensures Chains(changes + [next]) <==>
        Chains(changes) && next.0 == LastStatus(changes) && CanTransition(next.0, next.1)
  {
    var longer := changes + [next];
    assert longer[|changes|] == next;
    forall i | 0 <= i < |changes| ensures LinksAt(longer, i) <==> LinksAt(changes, i) {
      assert longer[i] == changes[i];
      assert i > 0 ==> longer[i - 1] == changes[i - 1];
    }
    assert changes != [] ==> longer[|changes| - 1] == changes[|changes| - 1];
    if Chains(longer) {
      assert forall i :: 0 <= i < |changes| ==> LinksAt(longer, i);
      assert LinksAt(longer, |changes|);
    }
  }

  lemma {:induction false} ReplayIsChain(events: seq<Event>, task: nat)
    ensures Replay(events, task).Some? <==> Chains(ChangesOf(events, task))
    ensures Replay(events, task).Some? ==> Replay(events, task).value == LastStatus(ChangesOf(events, task))
  {
    if events != [] {
      var n := |events| - 1;
      var earlier, changes := ChangesOf(events[..n], task), ChangesOf(events, task);
      ReplayIsChain(events[..n], task);
      if !(events[n].StatusChanged? && events[n].task == task) {
        assert changes == earlier;
      } else {
        ChainsAppend(earlier, (events[n].from, events[n].to));
      }
    }
  }

  // ---- appending ---------------------------------------------------------------------

  lemma ReplayAppend(events: seq<Event>, e: Event, task: nat)
    ensures !(e.StatusChanged? && e.task == task) ==> Replay(events + [e], task) == Replay(events, task)
    ensures (e.StatusChanged? && e.task == task && Replay(events, task) == Some(e.from)
        && CanTransition(e.from, e.to)) ==>
              Replay(events + [e], task) == Some(e.to)
  {
    assert (events + [e])[..|events|] == events;
  }

  lemma {:induction false} ReplayUntouched(events: seq<Event>, task: nat)
    requires forall i :: 0 <= i < |events| ==> events[i].task != task
    ensures Replay(events, task) == Some(Draft)
  {
    if events != [] {
      ReplayUntouched(events[..|events| - 1], task);
    }
  }

  lemma NumbersAppend(attempts: seq<Attempt>, a: Attempt, task: nat)
    ensures NumbersOf(attempts + [a], task) == NumbersOf(attempts, task) + if a.task == task then [a.number] else []
  {
    assert (attempts + [a])[..|attempts|] == attempts;
  }

  lemma {:induction false} MaxOfConsecutive(numbers: seq<nat>)
    requires Consecutive(numbers)
    ensures MaxOf(numbers) == |numbers|
  {
    if numbers != [] {
      MaxOfConsecutive(numbers[..|numbers| - 1]);
    }
  }

  lemma {:induction false} NumbersIgnoreStatus(attempts: seq<Attempt>, a: nat, outcome: AttemptStatus, task: nat)
    requires a < |attempts|
    ensures NumbersOf(attempts[a := attempts[a].(status := outcome)], task) == NumbersOf(attempts, task)
    decreases |attempts|
  {
    var n := |attempts| - 1;
    var changed := attempts[a := attempts[a].(status := outcome)];
    if a < n {
      assert changed[..n] == attempts[..n][a := attempts[..n][a].(status := outcome)];
      NumbersIgnoreStatus(attempts[..n], a, outcome, task);
    } else {
      assert changed[..n] == attempts[..n];
    }
  }

  // ---- every transaction keeps the log consistent ---------------------------------------

  lemma MoveKeepsLog(db: Db, task: nat, to: TaskStatus)
    requires LogConsistent(db) && task < |db.tasks| && CanTransition(db.tasks[task].status, to)
    ensures LogConsistent(Move(db, task, to))
  {
    var later := Move(db, task, to);
    forall t: nat | t < |db.tasks| ensures Replay(later.events, t) == Some(later.tasks[t].status) {
      ReplayAppend(db.events, StatusChanged(task, db.tasks[task].status, to), t);
    }
  }

  lemma {:induction false} ClaimKeepsLog(db: Db, ids: seq<nat>)
    requires LogConsistent(db)
    ensures LogConsistent(ClaimAll(db, ids))
    decreases |ids|
  {
    if ids != [] {
      if Claimable(db, ids[0]) {
        MoveKeepsLog(db, ids[0], InProgress);
        ClaimKeepsLog(Move(db, ids[0], InProgress), ids[1..]);
      } else {
        ClaimKeepsLog(db, ids[1..]);
      }
    }
  }

  lemma NoteKeepsLog(db: Db, e: Event)
    requires LogConsistent(db) && !e.StatusChanged? && e.task < |db.tasks|
    ensures LogConsistent(db.(events := db.events + [e]))
  {
    forall t: nat | t < |db.tasks| ensures Replay(db.events + [e], t) == Some(db.tasks[t].status) {
      ReplayAppend(db.events, e, t);
    }
  }

  /** Replaying the first `k` of a stored plan's events. */
  lemma {:induction false} ReplayStored(events: seq<Event>, base: nat, accepted: seq<bool>, k: nat, t: nat)
    requires k <= |accepted|
    requires forall i :: 0 <= i < |events| ==> events[i].task < base
    ensures t < base ==> Replay(events + StoredEvents(base, accepted)[..k], t) == Replay(events, t)
    ensures base <= t < base + k ==>
              Replay(events + StoredEvents(base, accepted)[..k], t) == Some(FirstStatus(accepted[t - base]))
    ensures base + k <= t ==> Replay(events + StoredEvents(base, accepted)[..k], t) == Some(Draft)
    decreases k
  {
    var stored := StoredEvents(base, accepted);
    if k == 0 {
      assert events + stored[..0] == events;
      if base <= t {
        ReplayUntouched(events, t);
      }
    } else {
      ReplayStored(events, base, accepted, k - 1, t);
      assert events + stored[..k] == (events + stored[..k - 1]) + [stored[k - 1]];
      ReplayAppend(events + stored[..k - 1], stored[k - 1], t);
    }
  }

  lemma StoreKeepsLog(db: Db, plan: seq<PlannedTask>, accepted: seq<bool>)
    requires LogConsistent(db) && |accepted| == |plan|
    ensures LogConsistent(StoreAll(db, plan, accepted))
  {
    var stored := StoredEvents(|db.tasks|, accepted);
    assert stored[..|accepted|] == stored;
    var after := StoreAll(db, plan, accepted);
    forall t: nat | t < |after.tasks| ensures Replay(after.events, t) == Some(after.tasks[t].status) {
      ReplayStored(db.events, |db.tasks|, accepted, |accepted|, t);
    }
  }

  lemma AttemptKeepsLog(db: Db, task: nat)
    requires LogConsistent(db) && task < |db.tasks|
    ensures LogConsistent(Exec(db, CreateAttempt(task)))
    ensures MaxOf(NumbersOf(db.attempts, task)) == |NumbersOf(db.attempts, task)|
  {
    var a := Attempt(task, MaxOf(NumbersOf(db.attempts, task)) + 1, AttemptRunning);
    MaxOfConsecutive(NumbersOf(db.attempts, task));
    forall t: nat ensures Consecutive(NumbersOf(db.attempts + [a], t)) {
      NumbersAppend(db.attempts, a, t);
    }
    NoteKeepsLog(db, Noted(task, "task_attempt.created"));
  }

  /** Every transaction keeps the history faithful; a failed one changes nothing. */
  lemma ExecKeepsLog(db: Db, op: Op)
    requires LogConsistent(db) && Succeeds(db, op)
    ensures LogConsistent(Exec(db, op))
  {
    match op
    case CreateTask(title) => ReplayUntouched(db.events, |db.tasks|);
    case Transition(task, to) => MoveKeepsLog(db, task, to);
    case CreateAttempt(task) => AttemptKeepsLog(db, task);
    case CompleteAttempt(attempt, outcome) =>
      NoteKeepsLog(db, Noted(db.attempts[attempt].task, "task_attempt.completed"));
      forall t: nat ensures NumbersOf(Exec(db, op).attempts, t) == NumbersOf(db.attempts, t) {
        NumbersIgnoreStatus(db.attempts, attempt, outcome, t);
      }
    case AddEvent(event) => NoteKeepsLog(db, event);
    case Claim(ids) => ClaimKeepsLog(db, ids);
    case StorePlan(plan, accepted) => StoreKeepsLog(db, Normalize(plan), accepted);
    case _ =>
  }
}
