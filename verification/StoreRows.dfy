/** What a claim and a new attempt do to the rows of a project (`internal/store/sqlite_tasks.go`), row by row. */
module StoreRows {
  import opened TaskStatuses
  import opened Database

  /** Exactly the listed tasks that were READY are IN_PROGRESS afterwards. */
  lemma {:induction false} ClaimedRows(db: Db, ids: seq<nat>)
    ensures |ClaimAll(db, ids).tasks| == |db.tasks|
    ensures forall t :: 0 <= t < |db.tasks| ==>
              ClaimAll(db, ids).tasks[t] == if t in ids && db.tasks[t].status == Ready
                                            then Task(db.tasks[t].title, InProgress) else db.tasks[t]
    decreases |ids|
  {
    if ids != [] {
      var next := if Claimable(db, ids[0]) then Move(db, ids[0], InProgress) else db;
      ClaimedRows(next, ids[1..]);
      assert forall t: nat :: t in ids <==> t == ids[0] || t in ids[1..];
    }
  }

  /** These tasks are handed out, each once. */
  lemma {:induction false} ClaimedTasks(db: Db, ids: seq<nat>)
    ensures forall t: nat :: t in Claimed(db, ids) <==> t in ids && t < |db.tasks| && db.tasks[t].status == Ready
    ensures forall i, j :: 0 <= i < j < |Claimed(db, ids)| ==> Claimed(db, ids)[i] != Claimed(db, ids)[j]
    decreases |ids|
  {
    if ids != [] {
      var next := if Claimable(db, ids[0]) then Move(db, ids[0], InProgress) else db;
      var rest := Claimed(next, ids[1..]);
      ClaimedTasks(next, ids[1..]);
      assert forall t: nat :: t in ids <==> t == ids[0] || t in ids[1..];
      if Claimable(db, ids[0]) {
        assert ids[0] !in rest;
        assert forall i :: 0 <= i < |rest| ==> rest[i] in rest;
      }
    }
  }

  /** Each start is logged, in the order in which the tasks are handed out. */
  lemma {:induction false} ClaimedEvents(db: Db, ids: seq<nat>)
    ensures var later := ClaimAll(db, ids).events;
      && |later| == |db.events| + |Claimed(db, ids)| && later[..|db.events|] == db.events
      && forall k :: |db.events| <= k < |later| ==>
           later[k] == StatusChanged(Claimed(db, ids)[k - |db.events|], Ready, InProgress)
    decreases |ids|
  {
    if ids != [] {
      var next := if Claimable(db, ids[0]) then Move(db, ids[0], InProgress) else db;
      ClaimedEvents(next, ids[1..]);
      if Claimable(db, ids[0]) {
        OneMoreEvent(db.events, next.events, ClaimAll(next, ids[1..]).events, ids[0]);
      }
    }
  }

  lemma OneMoreEvent(events: seq<Event>, next: seq<Event>, later: seq<Event>, task: nat)
    requires next == events + [StatusChanged(task, Ready, InProgress)] && |next| <= |later|
    requires later[..|next|] == next
    ensures later[..|events|] == events && later[|events|] == StatusChanged(task, Ready, InProgress)
  {
    assert later[..|next|][..|events|] == later[..|events|];
    assert later[..|next|][|events|] == later[|events|];
  }

  function AttemptsOf(attempts: seq<Attempt>, task: nat): set<nat> {
    set a: nat | 0 <= a < |attempts| && attempts[a].task == task
  }

  /** The attempt numbers of a task are those of its rows, in order. */
  lemma {:induction false} NumbersAre(attempts: seq<Attempt>, task: nat)
    ensures |NumbersOf(attempts, task)| == |AttemptsOf(attempts, task)|
    ensures forall n: nat :: n in NumbersOf(attempts, task) <==>
              exists a :: 0 <= a < |attempts| && attempts[a].task == task && attempts[a].number == n
  {
    if attempts == [] {
      assert AttemptsOf(attempts, task) == {};
    } else {
      var n := |attempts| - 1;
      NumbersAre(attempts[..n], task);
      if attempts[n].task == task {
        assert AttemptsOf(attempts, task) == AttemptsOf(attempts[..n], task) + {n};
      } else {
        assert AttemptsOf(attempts, task) == AttemptsOf(attempts[..n], task);
      }
    }
  }

  /** The largest is one of them and none is larger. */
  lemma {:induction false} MaxIs(numbers: seq<nat>) returns (k: nat)
    ensures if numbers == [] then MaxOf(numbers) == 0 else k < |numbers| && MaxOf(numbers) == numbers[k]
    ensures forall i :: 0 <= i < |numbers| ==> numbers[i] <= MaxOf(numbers)
  {
    k := 0;
    if numbers != [] {
      var n := |numbers| - 1;
      var earlier := MaxIs(numbers[..n]);
      k := if numbers[n] > MaxOf(numbers[..n]) || n == 0 then n else earlier;
      assert forall i :: 0 <= i < n ==> numbers[..n][i] == numbers[i];
    }
  }
}
