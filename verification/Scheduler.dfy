/** Choosing what to run next (`internal/scheduler/ready.go`), on an undisturbed store. */
module Scheduler {
  import opened Options
  import opened TaskStatuses
  import opened Database
  import opened TaskStores
  import opened Lifecycle

  // ---- what a choice promises ---------------------------------------------------------

  predicate Runnable(listing: seq<Task>, deps: set<(nat, nat)>, task: nat) {
    task < |listing| && listing[task].status == Ready && DependenciesDone(listing, deps, task)
  }

  /** A task may run when it is READY and everything it depends on is DONE. */
  lemma RunnableIs(listing: seq<Task>, deps: set<(nat, nat)>, task: nat)
    ensures Runnable(listing, deps, task) <==>
            && task < |listing| && listing[task].status == Ready
            && forall d: nat :: (task, d) in deps ==> d < |listing| && listing[d].status == Done
  {
    forall e | e in deps && e.0 == task ensures e == (task, e.1) {
    }
  }

  predicate Increasing(ids: seq<nat>) {
    forall i, j :: 0 <= i < j < |ids| ==> ids[i] < ids[j]
  }

  /** The candidates are the first runnable tasks, as many as asked for, in order. */
  lemma {:induction false} CandidatesAreTheFirst(listing: seq<Task>, deps: set<(nat, nat)>, limit: nat, from: nat)
    requires from <= |listing|
    ensures var ids := Candidates(listing, deps, limit, from);
      && Increasing(ids) && |ids| <= limit
      && (forall id :: id in ids ==> from <= id && Runnable(listing, deps, id))
      && (forall t: nat :: from <= t && Runnable(listing, deps, t) && t !in ids ==>
            |ids| == limit && forall id :: id in ids ==> id < t)
    decreases |listing| - from
  {
    if from < |listing| && limit > 0 {
      if Runnable(listing, deps, from) {
        var rest := Candidates(listing, deps, limit - 1, from + 1);
        CandidatesAreTheFirst(listing, deps, limit - 1, from + 1);
        assert forall k :: 0 <= k < |rest| ==> rest[k] in rest;
        assert forall id :: id in [from] + rest <==> id == from || id in rest;
      } else {
        CandidatesAreTheFirst(listing, deps, limit, from + 1);
      }
    }
  }

  lemma {:induction false} ClaimsAllReady(db: Db, ids: seq<nat>)
    requires Increasing(ids)
    requires forall i :: 0 <= i < |ids| ==> Claimable(db, ids[i])
    ensures Claimed(db, ids) == ids
    decreases |ids|
  {
    if ids != [] {
      var next := Move(db, ids[0], InProgress);
      assert Increasing(ids[1..]);
      forall i | 0 <= i < |ids[1..]| ensures Claimable(next, ids[1..][i]) {
        assert ids[0] < ids[i + 1];
      }
      ClaimsAllReady(next, ids[1..]);
    }
  }

  // ---- the two entry points ---------------------------------------------------------------

  /** For each task the tasks it depends on. */
  method DependenciesByTask(dependencies: set<(nat, nat)>) returns (byTask: map<nat, set<nat>>)
    ensures forall t: nat, d: nat :: (t, d) in dependencies <==> t in byTask && d in byTask[t]
  {
    byTask := map[];
    var rest := dependencies;
    while rest != {}
      invariant rest <= dependencies
      invariant forall t: nat, d: nat :: (t, d) in dependencies - rest <==> t in byTask && d in byTask[t]
      decreases |rest|
    {
      var e :| e in rest;
      assert e == (e.0, e.1);
      byTask := byTask[e.0 := (if e.0 in byTask then byTask[e.0] else {}) + {e.1}];
      rest := rest - {e};
    }
  }

  predicate IsDone(listing: seq<Task>, d: nat) {
    d < |listing| && listing[d].status == Done
  }

  predicate AreDone(listing: seq<Task>, dependsOn: set<nat>) {
    forall d :: d in dependsOn ==> IsDone(listing, d)
  }

  method AllDone(listing: seq<Task>, dependsOn: set<nat>) returns (done: bool)
    ensures done == AreDone(listing, dependsOn)
  {
    var rest := dependsOn;
    while rest != {}
      invariant rest <= dependsOn
      invariant AreDone(listing, dependsOn - rest)
      decreases |rest|
    {
      var d :| d in rest;
      if !IsDone(listing, d) {
        return false;
      }
      rest := rest - {d};
    }
    assert dependsOn - rest == dependsOn;
    return true;
  }

  method FindCandidates(store: TaskStore, limit: nat) returns (candidates: seq<nat>)
    ensures candidates == Candidates(store.tasks, store.dependencies, limit, 0)
  {
    var tasks, dependencies := store.tasks, store.dependencies;
    var byTask := DependenciesByTask(dependencies);
    candidates := [];
    for i := 0 to |tasks|
      invariant |candidates| <= limit
      invariant candidates + Candidates(tasks, dependencies, limit - |candidates|, i)
          == Candidates(tasks, dependencies, limit, 0)
    {
      if |candidates| >= limit {
        return;
      }
      if tasks[i].status == Ready {
        var done := AllDone(tasks, if i in byTask then byTask[i] else {});
        DoneAsListed(tasks, dependencies, byTask, i);
        if done {
          candidates := candidates + [i];
        }
      }
    }
  }

  lemma DoneAsListed(listing: seq<Task>, dependencies: set<(nat, nat)>, byTask: map<nat, set<nat>>, i: nat)
    requires forall t: nat, d: nat :: (t, d) in dependencies <==> t in byTask && d in byTask[t]
    ensures DependenciesDone(listing, dependencies, i)
            == AreDone(listing, if i in byTask then byTask[i] else {})
  {
    if DependenciesDone(listing, dependencies, i) {
      forall d | d in (if i in byTask then byTask[i] else {}) ensures IsDone(listing, d) {
        assert (i, d) in dependencies;
      }
    } else {
      var e :| e in dependencies && e.0 == i && !IsDone(listing, e.1);
      assert (e.0, e.1) in dependencies;
    }
  }

  /** The first READY task whose dependencies are DONE; none exactly when there is no such task. */
  method NextReadyTask(store: TaskStore) returns (next: Option<nat>)
    ensures next == None <==> forall t: nat :: !Runnable(store.tasks, store.dependencies, t)
    ensures next.Some? ==> Runnable(store.tasks, store.dependencies, next.value)
    ensures next.Some? ==> forall t: nat :: t < next.value ==> !Runnable(store.tasks, store.dependencies, t)
  {
    var candidates := FindCandidates(store, 1);
    CandidatesAreTheFirst(store.tasks, store.dependencies, 1, 0);
    if candidates == [] {
      return None;
    }
    assert candidates[0] in candidates;
    return Some(candidates[0]);
  }

  /**
   Claims the first runnable tasks, at least one and at most `limit`; every one of them is
   claimed, since nobody interferes between listing and claiming.
   */
  method ClaimNextReadyTasks(store: TaskStore, limit: nat) returns (claimed: seq<nat>)
    requires store.Valid()
    modifies store
    ensures store.Valid()
    ensures claimed == Candidates(old(store.tasks), old(store.dependencies), if limit == 0 then 1 else limit, 0)
    ensures store.Snapshot() == Exec(old(store.Snapshot()), Claim(claimed))
    ensures Increasing(claimed) && |claimed| <= if limit == 0 then 1 else limit
    ensures forall t: nat :: t in claimed ==> Runnable(old(store.tasks), old(store.dependencies), t)
    ensures forall t: nat :: Runnable(old(store.tasks), old(store.dependencies), t) && t !in claimed ==>
              |claimed| == (if limit == 0 then 1 else limit) && forall id :: id in claimed ==> id < t
    ensures |store.tasks| == |old(store.tasks)|
    ensures forall t :: 0 <= t < |store.tasks| ==>
              store.tasks[t] == if t in claimed then Task(old(store.tasks)[t].title, InProgress)
                                else old(store.tasks)[t]
  {
    var candidates := FindCandidates(store, if limit == 0 then 1 else limit);
    CandidatesAreTheFirst(store.tasks, store.dependencies, if limit == 0 then 1 else limit, 0);
    if candidates == [] {
      return [];
    }
    assert forall i :: 0 <= i < |candidates| ==> candidates[i] in candidates;
    ClaimsAllReady(store.Snapshot(), candidates);
    claimed := store.ClaimTasks(candidates);
  }
}
