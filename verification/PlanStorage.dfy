/**
 Storing a plan (`PlanProject` in `internal/runtime/service_planning.go`): create the
 tasks, link them by title, then make each READY or BLOCKED.
 */
module PlanStorage {
  import opened Options
  import opened Digraph
  import opened TaskStatuses
  import opened DependencyPruning
  import opened DependencyNormalizer
  import opened PlanOrder
  import opened Database
  import opened TaskStores

  // ---- the rows a plan becomes --------------------------------------------------------

  lemma {:induction false} LastIndexFacts(plan: seq<PlannedTask>, title: string)
    requires title in Titles(plan)
    ensures LastIndex(plan, title) < |plan| && plan[LastIndex(plan, title)].title == title
    ensures forall k :: LastIndex(plan, title) < k < |plan| ==> plan[k].title != title
    decreases |plan|
  {
    var n := |plan| - 1;
    if plan[n].title != title {
      var k :| 0 <= k < |plan| && Titles(plan)[k] == title;
      assert Titles(plan[..n])[k] == title;
      LastIndexFacts(plan[..n], title);
    }
  }

  lemma {:induction false} LastIndexIgnoresLists(one: seq<PlannedTask>, two: seq<PlannedTask>, title: string)
    requires Titles(one) == Titles(two)
    ensures LastIndex(one, title) == LastIndex(two, title)
    decreases |one|
  {
    assert |one| == |Titles(one)| == |two|;
    if one != [] {
      var n := |one| - 1;
      assert Titles(one)[n] == Titles(two)[n];
      assert Titles(one[..n]) == Titles(one)[..n] == Titles(two[..n]);
      LastIndexIgnoresLists(one[..n], two[..n], title);
    }
  }

  /** A plan whose dependencies are other titles of the plan, none listed twice. */
  predicate Linkable(plan: seq<PlannedTask>) {
    forall i :: 0 <= i < |plan| ==>
      && Distinct(plan[i].dependsOn)
      && forall d :: d in plan[i].dependsOn ==> d in Titles(plan) && d != plan[i].title
  }

  /** After normalisation every dependency can be linked, even when titles repeat. */
  lemma NormalizedIsLinkable(plan: seq<PlannedTask>)
    requires CleanTitles(plan)
    ensures Linkable(Normalize(plan))
  {
    var out, lists := Normalize(plan), NormalizedLists(plan);
    PruningKeepsOrder(Titles(plan), lists, |Titles(plan)|);
    NormalizedIsShaped(plan);
    forall i | 0 <= i < |out|
      ensures Distinct(out[i].dependsOn) && forall d :: d in out[i].dependsOn ==> d in Titles(out) && d != out[i].title
    {
      assert out[i].title == Titles(out)[i] == Titles(plan)[i] && out[i].dependsOn == Lists(out)[i];
      assert ListShape(RolesOf(plan), Waited(plan), Titles(plan)[i], lists[i]);
      SubsequenceOfDistinct(out[i].dependsOn, lists[i]);
      SubsequenceMembers(out[i].dependsOn, lists[i]);
    }
  }

  lemma IdEdgesInRange(base: nat, plan: seq<PlannedTask>)
    requires Linkable(plan)
    ensures forall a, b :: (a, b) in IdEdges(base, plan) ==>
        base <= a < base + |plan| && base <= b < base + |plan| && a != b
  {
    forall a, b | (a, b) in IdEdges(base, plan) ensures base <= a < base + |plan| && base <= b < base + |plan|
        && a != b {
      var i, d :| 0 <= i < |plan| && d in plan[i].dependsOn && (a, b) == (base + i, base + LastIndex(plan, d));
      LastIndexFacts(plan, d);
    }
  }

  /** A link from the last task with its title is an edge of the map the pruner ends with. */
  lemma LinkIsPrunedEdge(plan: seq<PlannedTask>, i: nat, d: string)
    requires CleanTitles(plan) && i < |plan| && d in Normalize(plan)[i].dependsOn
    requires forall k :: i < k < |plan| ==> plan[k].title != plan[i].title
    ensures (plan[i].title, d) in TitleEdges(FinalMap(Titles(plan), NormalizedLists(plan)))
  {
    var titles, lists := Titles(plan), NormalizedLists(plan);
    NormalizedIsShaped(plan);
    ShapedIsClean(RolesOf(plan), Waited(plan), titles, lists);
    ProcessedTitlesAreSafe(titles, lists, |titles|);
    CleanEdges(FinalMap(titles, lists));
    assert Normalize(plan)[i].dependsOn == Lists(Normalize(plan))[i];
    FinalMapHoldsLastList(titles, lists, |titles|, i);
  }

  /** The title of a stored task. */
  function TitleAt(base: nat, plan: seq<PlannedTask>, id: nat): string {
    if base <= id < base + |plan| then plan[id - base].title else ""
  }

  /**
   The stored dependency graph is acyclic for every plan, even when titles repeat: links go
   to the last task with a title, and that task's list is the one the pruner's map ends with.
   */
  lemma StoredPlanIsAcyclic(base: nat, plan: seq<PlannedTask>)
    requires CleanTitles(plan)
    ensures Acyclic<nat>(IdEdges(base, Normalize(plan)))
  {
    var out := Normalize(plan);
    var edges: set<(nat, nat)> := IdEdges(base, out);
    var image := TitleEdges(FinalMap(Titles(plan), NormalizedLists(plan)));
    var lasts: set<nat> := set t | t in Titles(plan) :: base + LastIndex(out, t);
    NormalizedIsShaped(plan);
    ShapedIsClean(RolesOf(plan), Waited(plan), Titles(plan), NormalizedLists(plan));
    NormalizedIsLinkable(plan);
    PrunedMapIsAcyclic(Titles(plan), NormalizedLists(plan));
    forall a, b | (a, b) in edges
      ensures b in lasts && (a in lasts ==> (TitleAt(base, plan, a), TitleAt(base, plan, b)) in image)
    {
      StoredEdge(base, plan, a, b);
    }
    AcyclicFromImage<nat, string>(edges, image, lasts, (id: nat) => TitleAt(base, plan, id));
  }

  lemma StoredEdge(base: nat, plan: seq<PlannedTask>, a: nat, b: nat)
    requires CleanTitles(plan) && Linkable(Normalize(plan)) && (a, b) in IdEdges(base, Normalize(plan))
    ensures exists t :: t in Titles(plan) && b == base + LastIndex(Normalize(plan), t)
    ensures (exists t :: t in Titles(plan) && a == base + LastIndex(Normalize(plan), t)) ==>
              (TitleAt(base, plan, a),
                  TitleAt(base, plan, b)) in TitleEdges(FinalMap(Titles(plan), NormalizedLists(plan)))
  {
    var out := Normalize(plan);
    var i, d :| 0 <= i < |out| && d in out[i].dependsOn && (a, b) == (base + i, base + LastIndex(out, d));
    StoredHead(plan, i, d);
    assert TitleAt(base, plan, a) == plan[i].title && TitleAt(base, plan, b) == d;
    if t :| t in Titles(plan) && a == base + LastIndex(out, t) {
      StoredTail(plan, i);
      LinkIsPrunedEdge(plan, i, d);
    }
  }

  /** A link goes to the last task with the title it names. */
  lemma StoredHead(plan: seq<PlannedTask>, i: nat, d: string)
    requires Linkable(Normalize(plan)) && i < |plan| && d in Normalize(plan)[i].dependsOn
    ensures d in Titles(plan) && LastIndex(Normalize(plan), d) < |plan|
        && plan[LastIndex(Normalize(plan), d)].title == d
  {
    var out := Normalize(plan);
    LastIndexFacts(out, d);
    assert Titles(out)[LastIndex(out, d)] == Titles(plan)[LastIndex(out, d)];
  }

  /** A task that links go to is the last one with its title. */
  lemma StoredTail(plan: seq<PlannedTask>, i: nat)
    requires i < |plan| && exists t :: t in Titles(plan) && i == LastIndex(Normalize(plan), t)
    ensures forall k :: i < k < |plan| ==> plan[k].title != plan[i].title
  {
    var out := Normalize(plan);
    var t :| t in Titles(plan) && i == LastIndex(out, t);
    LastIndexFacts(out, t);
    assert forall k :: 0 <= k < |plan| ==> Titles(out)[k] == out[k].title && Titles(plan)[k] == plan[k].title;
  }

  /** The ID that a title stands for in a stored plan. */
  function IdOf(base: nat, plan: seq<PlannedTask>, title: string): nat {
    base + LastIndex(plan, title)
  }

  lemma IdOfDistinct(base: nat, plan: seq<PlannedTask>, i: nat)
    requires Distinct(Titles(plan)) && i < |plan|
    ensures IdOf(base, plan, plan[i].title) == base + i
  {
    assert Titles(plan)[i] in Titles(plan);
    LastIndexFacts(plan, plan[i].title);
    SamePlace(Titles(plan), i, LastIndex(plan, plan[i].title));
  }

  lemma SamePlace(titles: seq<string>, i: nat, j: nat)
    requires Distinct(titles) && i < |titles| && j < |titles| && titles[i] == titles[j]
    ensures i == j
  {
  }

  lemma EdgeOfTitles(base: nat, plan: seq<PlannedTask>, u: string, w: string)
    requires Linkable(plan) && Distinct(Titles(plan)) && (u, w) in PlannedEdges(plan)
    ensures w in TitleSet(Titles(plan))
    ensures (IdOf(base, plan, u), IdOf(base, plan, w)) in IdEdges(base, plan)
  {
    var k :| 0 <= k < |plan| && w in Lists(plan)[k] && Titles(plan)[k] == u;
    IdOfDistinct(base, plan, k);
    assert w in plan[k].dependsOn;
  }

  /** With distinct titles a walk between titles is a walk between the tasks' IDs. */
  lemma TitleWalkIsIdWalk(base: nat, plan: seq<PlannedTask>, i: nat, j: nat)
    requires Linkable(plan) && Distinct(Titles(plan)) && i < |plan| && j < |plan|
    requires Reaches(PlannedEdges(plan), plan[i].title, plan[j].title)
    ensures Reaches<nat>(IdEdges(base, plan), base + i, base + j)
  {
    IdOfDistinct(base, plan, i);
    IdOfDistinct(base, plan, j);
    assert Titles(plan)[i] in TitleSet(Titles(plan));
    IdWalk(base, plan, PlannedEdges(plan), IdEdges(base, plan), TitleSet(Titles(plan)), plan[i].title, plan[j].title);
  }

  lemma IdWalk(base: nat, plan: seq<PlannedTask>, edges: set<(string, string)>, image: set<(nat, nat)>,
               inside: set<string>, u: string, v: string)
    requires Linkable(plan) && Distinct(Titles(plan))
    requires edges == PlannedEdges(plan) && image == IdEdges(base, plan) && inside == TitleSet(Titles(plan))
    requires u in inside && Reaches(edges, u, v)
    ensures Reaches<nat>(image, IdOf(base, plan, u), IdOf(base, plan, v))
  {
    forall a, b | (a, b) in edges ensures b in inside && (IdOf(base, plan, a), IdOf(base, plan, b)) in image {
      EdgeOfTitles(base, plan, a, b);
    }
    var n: nat :| ReachesIn(edges, u, v, n);
    HomomorphismIn<string, nat>(edges, image, inside, (t: string) => IdOf(base, plan, t), u, v, n);
  }

  // ---- the three loops of PlanProject ---------------------------------------------------

  datatype PlanError = UnknownTask | SelfDependency | NoRunnableTasks | StoreFailed(error: StoreError)
  datatype PlanResult = Planned(ready: seq<nat>) | PlanFailed(error: PlanError)

  function DraftTasks(plan: seq<PlannedTask>): seq<Task> {
    seq(|plan|, i requires 0 <= i < |plan| => Task(plan[i].title, Draft))
  }

  /** The dependency rows of the first `i` tasks and the first `j` entries of the next one. */
  function IdEdgesUpTo(base: nat, plan: seq<PlannedTask>, i: nat, j: nat): set<(nat, nat)>
    requires i <= |plan| && (i < |plan| ==> j <= |plan[i].dependsOn|)
  {
    (set k, d | 0 <= k < i && d in plan[k].dependsOn :: (base + k, base + LastIndex(plan, d)))
    + if i < |plan| then set d | d in plan[i].dependsOn[..j] :: (base + i, base + LastIndex(plan, d)) else {}
  }

  function ReadyIds(base: nat, accepted: seq<bool>): seq<nat> {
    if accepted == [] then []
    else
      var n := |accepted| - 1;
      ReadyIds(base, accepted[..n]) + if accepted[n] then [base + n] else []
  }

  method CreateTasks(store: TaskStore, plan: seq<PlannedTask>) returns (titleToID: map<string, nat>)
    requires store.Valid()
    modifies store
    ensures store.Valid()
    ensures store.Snapshot() == old(store.Snapshot()).(tasks := old(store.tasks) + DraftTasks(plan))
    ensures forall t :: t in titleToID <==> t in Titles(plan)
    ensures forall t :: t in titleToID ==> titleToID[t] == IdOf(|old(store.tasks)|, plan, t)
  {
    titleToID := map[];
    for i := 0 to |plan|
      invariant store.Valid()
      invariant store.Snapshot() == old(store.Snapshot()).(tasks := old(store.tasks) + DraftTasks(plan)[..i])
      invariant forall t :: t in titleToID <==> t in Titles(plan)[..i]
      invariant forall t :: t in titleToID ==> titleToID[t] == |old(store.tasks)| + LastIndex(plan[..i], t)
    {
      assert plan[..i + 1][..i] == plan[..i];
      assert Titles(plan)[..i + 1] == Titles(plan)[..i] + [plan[i].title];
      assert DraftTasks(plan)[..i + 1] == DraftTasks(plan)[..i] + [Task(plan[i].title, Draft)];
      var id := store.CreateTask(plan[i].title);
      titleToID := titleToID[plan[i].title := id];
    }
    assert plan[..|plan|] == plan && Titles(plan)[..|plan|] == Titles(plan)
        && DraftTasks(plan)[..|plan|] == DraftTasks(plan);
  }

  lemma NextEdge(base: nat, plan: seq<PlannedTask>, i: nat, j: nat)
    requires Linkable(plan) && i < |plan| && j < |plan[i].dependsOn|
    ensures var d := plan[i].dependsOn[j];
      && IdEdgesUpTo(base, plan, i, j + 1) == IdEdgesUpTo(base, plan, i, j) + {(base + i, base + LastIndex(plan, d))}
      && (base + i, base + LastIndex(plan, d)) !in IdEdgesUpTo(base, plan, i, j)
  {
    var list := plan[i].dependsOn;
    var d := list[j];
    assert list[..j + 1] == list[..j] + [d];
    LastIndexFacts(plan, d);
    forall e | e in list[..j] ensures LastIndex(plan, e) != LastIndex(plan, d) {
      assert e in list;
      LastIndexFacts(plan, e);
    }
  }

  lemma EdgesOfRow(base: nat, plan: seq<PlannedTask>, i: nat)
    requires i < |plan|
    ensures IdEdgesUpTo(base, plan, i, |plan[i].dependsOn|) == IdEdgesUpTo(base, plan, i + 1, 0)
  {
    assert plan[i].dependsOn[..|plan[i].dependsOn|] == plan[i].dependsOn;
  }

  /** Links a task to one title; the two errors the planner looks for are errors of the plan. */
  method LinkOne(store: TaskStore, id: nat, dependsOn: string, titleToID: map<string, nat>)
      returns (error: Option<PlanError>)
    requires store.Valid()
    modifies store
    ensures store.Valid()
    ensures error == Some(UnknownTask) <==> dependsOn !in titleToID
    ensures error == Some(SelfDependency) <==> dependsOn in titleToID && titleToID[dependsOn] == id
    ensures error == None <==>
              && dependsOn in titleToID && titleToID[dependsOn] != id
              && id < |old(store.tasks)| && titleToID[dependsOn] < |old(store.tasks)|
              && (id, titleToID[dependsOn]) !in old(store.dependencies)
    ensures store.Snapshot() == old(store.Snapshot()).(
              deps := old(store.dependencies) + if error == None then {(id, titleToID[dependsOn])} else {})
  {
    if dependsOn !in titleToID {
      return Some(UnknownTask);
    }
    var dependencyID := titleToID[dependsOn];
    if dependencyID == id {
      return Some(SelfDependency);
    }
    var linked := store.CreateTaskDependency(id, dependencyID);
    if linked.Failure? {
      return Some(StoreFailed(linked.error));
    }
    return None;
  }

  /** Links one task of a normalised plan, which cannot fail. */
  method LinkTask(store: TaskStore, plan: seq<PlannedTask>, i: nat, titleToID: map<string, nat>, base: nat,
          ghost before: Db)
      returns (error: Option<PlanError>)
    requires store.Valid() && Linkable(plan) && i < |plan|
    requires base + |plan| <= |before.tasks|
    requires forall t :: t in titleToID <==> t in Titles(plan)
    requires forall t :: t in titleToID ==> titleToID[t] == IdOf(base, plan, t)
    requires forall e :: e in before.deps ==> e.0 < base
    requires store.Snapshot() == before.(deps := before.deps + IdEdgesUpTo(base, plan, i, 0))
    modifies store
    ensures store.Valid() && error == None
    ensures store.Snapshot() == before.(deps := before.deps + IdEdgesUpTo(base, plan, i + 1, 0))
  {
    error := None;
    var list := plan[i].dependsOn;
    for j := 0 to |list|
      invariant store.Valid() && error == None
      invariant store.Snapshot() == before.(deps := before.deps + IdEdgesUpTo(base, plan, i, j))
    {
      NextLink(base, plan, i, j, before.deps);
      error := LinkOne(store, base + i, list[j], titleToID);
    }
    EdgesOfRow(base, plan, i);
  }

  lemma NextLink(base: nat, plan: seq<PlannedTask>, i: nat, j: nat, deps: set<(nat, nat)>)
    requires Linkable(plan) && i < |plan| && j < |plan[i].dependsOn|
    requires forall e :: e in deps ==> e.0 < base
    ensures var pair: (nat, nat) := (base + i, IdOf(base, plan, plan[i].dependsOn[j]));
      && plan[i].dependsOn[j] in Titles(plan) && pair.1 < base + |plan| && pair.1 != pair.0
      && pair !in deps + IdEdgesUpTo(base, plan, i, j)
      && deps + IdEdgesUpTo(base, plan, i, j) + {pair} == deps + IdEdgesUpTo(base, plan, i, j + 1)
  {
    NextEdge(base, plan, i, j);
    LinkTargetKnown(plan, i, j);
  }

  /** A dependency is a title of the plan, and the task it stands for is another one. */
  lemma LinkTargetKnown(plan: seq<PlannedTask>, i: nat, j: nat)
    requires Linkable(plan) && i < |plan| && j < |plan[i].dependsOn|
    ensures plan[i].dependsOn[j] in Titles(plan)
    ensures LastIndex(plan, plan[i].dependsOn[j]) < |plan| && LastIndex(plan, plan[i].dependsOn[j]) != i
  {
    assert plan[i].dependsOn[j] in plan[i].dependsOn;
    LastIndexFacts(plan, plan[i].dependsOn[j]);
  }

  method LinkTasks(store: TaskStore, plan: seq<PlannedTask>, titleToID: map<string, nat>, base: nat, ghost before: Db)
      returns (error: Option<PlanError>)
    requires store.Valid() && Linkable(plan)
    requires base + |plan| <= |before.tasks|
    requires forall t :: t in titleToID <==> t in Titles(plan)
    requires forall t :: t in titleToID ==> titleToID[t] == IdOf(base, plan, t)
    requires forall e :: e in before.deps ==> e.0 < base
    requires store.Snapshot() == before
    modifies store
    ensures store.Valid() && error == None
    ensures store.Snapshot() == before.(deps := before.deps + IdEdges(base, plan))
  {
    error := None;
    assert IdEdgesUpTo(base, plan, 0, 0) == {};
    for i := 0 to |plan|
      invariant store.Valid() && error == None
      invariant store.Snapshot() == before.(deps := before.deps + IdEdgesUpTo(base, plan, i, 0))
    {
      error := LinkTask(store, plan, i, titleToID, base, before);
    }
    assert IdEdgesUpTo(base, plan, |plan|, 0) == IdEdges(base, plan);
  }

  /** Validates each stored task: an accepted one becomes READY, a rejected one BLOCKED. */
  method ValidateTasks(store: TaskStore, plan: seq<PlannedTask>, accepted: seq<bool>, base: nat, ghost before: Db)
      returns (ready: seq<nat>, error: Option<PlanError>)
    requires store.Valid() && |accepted| == |plan| && base <= |before.tasks|
    requires store.Snapshot() == before && before.tasks == before.tasks[..base] + DraftTasks(plan)
    modifies store
    ensures store.Valid() && error == None && ready == ReadyIds(base, accepted)
    ensures store.Snapshot() == before.(
              tasks := before.tasks[..base] + StoredTasks(plan, accepted),
              events := before.events + StoredEvents(base, accepted))
  {
    ready, error := [], None;
    for i := 0 to |plan|
      invariant store.Valid() && error == None && ready == ReadyIds(base, accepted[..i])
      invariant store.Snapshot() == PartlyReady(before, plan, accepted, base, i)
    {
      NextReady(before, plan, accepted, base, i);
      var moved := store.TransitionTask(base + i, FirstStatus(accepted[i]));
      match moved {
        case Failure(e) => error := Some(StoreFailed(e));
        case Success(_) =>
      }
      ready := ready + if accepted[i] then [base + i] else [];
    }
    assert accepted[..|plan|] == accepted;
    AllReady(before, plan, accepted, base);
  }

  /** The store once the first `i` tasks of the plan have their first status. */
  function PartlyReady(before: Db, plan: seq<PlannedTask>, accepted: seq<bool>, base: nat, i: nat): Db
    requires |accepted| == |plan| && i <= |plan| && base <= |before.tasks|
  {
    before.(
      tasks := before.tasks[..base] + StoredTasks(plan, accepted)[..i] + DraftTasks(plan)[i..],
      events := before.events + StoredEvents(base, accepted)[..i])
  }

  lemma NextReady(before: Db, plan: seq<PlannedTask>, accepted: seq<bool>, base: nat, i: nat)
    requires |accepted| == |plan| && i < |plan| && base <= |before.tasks|
    ensures var now, op := PartlyReady(before, plan, accepted, base, i), Transition(base + i, FirstStatus(accepted[i]));
      Succeeds(now, op) && Exec(now, op) == PartlyReady(before, plan, accepted, base, i + 1)
    ensures ReadyIds(base, accepted[..i + 1]) == ReadyIds(base, accepted[..i]) + if accepted[i] then [base + i] else []
  {
    assert accepted[..i + 1][..i] == accepted[..i];
    var stored, events := StoredTasks(plan, accepted), StoredEvents(base, accepted);
    assert stored[..i + 1] == stored[..i] + [stored[i]];
    assert events[..i + 1] == events[..i] + [events[i]];
    var now, next := PartlyReady(before, plan, accepted, base, i), PartlyReady(before, plan, accepted, base, i + 1);
    assert SetStatus(now.tasks, base + i, FirstStatus(accepted[i])) == next.tasks;
  }

  lemma AllReady(before: Db, plan: seq<PlannedTask>, accepted: seq<bool>, base: nat)
    requires |accepted| == |plan| && base <= |before.tasks|
    ensures PartlyReady(before, plan, accepted, base, |plan|) == before.(
              tasks := before.tasks[..base] + StoredTasks(plan, accepted),
              events := before.events + StoredEvents(base, accepted))
  {
    var stored, events := StoredTasks(plan, accepted), StoredEvents(base, accepted);
    assert stored[..|plan|] == stored && events[..|plan|] == events;
  }

  /** The tasks of a stored plan come after the older ones in order, READY if accepted and BLOCKED if not. */
  lemma StoredTaskRows(tasks: seq<Task>, plan: seq<PlannedTask>, accepted: seq<bool>, later: seq<Task>)
    requires |accepted| == |plan| && later == tasks + StoredTasks(plan, accepted)
    ensures |later| == |tasks| + |plan| && later[..|tasks|] == tasks
    ensures forall id :: |tasks| <= id < |later| ==>
              var i := id - |tasks|;
              later[id] == Task(plan[i].title, if accepted[i] then Ready else Blocked)
  {
  }

  /** The tasks from `base` on that are READY, in order. */
  ghost predicate AreTheReady(tasks: seq<Task>, base: nat, ids: seq<nat>) {
    && (forall id: nat {:trigger id in ids} :: id in ids <==> base <= id < |tasks| && tasks[id].status == Ready)
    && (forall k, m :: 0 <= k < m < |ids| ==> ids[k] < ids[m])
  }

  lemma {:induction false} ReadyIdIs(base: nat, accepted: seq<bool>, id: nat)
    ensures id in ReadyIds(base, accepted) <==> base <= id < base + |accepted| && accepted[id - base]
  {
    if accepted != [] {
      ReadyIdIs(base, accepted[..|accepted| - 1], id);
    }
  }

  lemma {:induction false} ReadyIdsAscend(base: nat, accepted: seq<bool>)
    ensures forall k, m :: 0 <= k < m < |ReadyIds(base, accepted)| ==>
              ReadyIds(base, accepted)[k] < ReadyIds(base, accepted)[m]
  {
    if accepted != [] {
      var n := |accepted| - 1;
      var fewer := ReadyIds(base, accepted[..n]);
      ReadyIdsAscend(base, accepted[..n]);
      forall k | 0 <= k < |fewer| ensures fewer[k] < base + n {
        assert fewer[k] in fewer;
        ReadyIdIs(base, accepted[..n], fewer[k]);
      }
    }
  }

  lemma StoredStatus(tasks: seq<Task>, plan: seq<PlannedTask>, accepted: seq<bool>, later: seq<Task>)
    requires |accepted| == |plan| && later == tasks + StoredTasks(plan, accepted)
    ensures |later| == |tasks| + |accepted|
    ensures forall id :: |tasks| <= id < |later| ==> (later[id].status == Ready <==> accepted[id - |tasks|])
  {
  }

  /** What the last loop returns are the stored tasks that are READY. */
  lemma StoredReady(base: nat, accepted: seq<bool>, later: seq<Task>)
    requires |later| == base + |accepted|
    requires forall id :: base <= id < |later| ==> (later[id].status == Ready <==> accepted[id - base])
    ensures AreTheReady(later, base, ReadyIds(base, accepted))
  {
    ReadyIdsAscend(base, accepted);
    forall id: nat ensures id in ReadyIds(base, accepted) <==> base <= id < |later| && later[id].status == Ready {
      ReadyIdIs(base, accepted, id);
    }
  }

  lemma {:induction false} NoneReady(base: nat, accepted: seq<bool>)
    ensures ReadyIds(base, accepted) == [] <==> forall i :: 0 <= i < |accepted| ==> !accepted[i]
  {
    if accepted != [] {
      NoneReady(base, accepted[..|accepted| - 1]);
    }
  }

  /** Stores a normalised plan with the three loops. */
  method StorePlanned(store: TaskStore, ghost drafts: seq<PlannedTask>, plan: seq<PlannedTask>, accepted: seq<bool>)
      returns (r: PlanResult)
    requires store.Valid() && CleanTitles(drafts) && plan == Normalize(drafts) && |accepted| == |plan|
    requires forall e :: e in store.dependencies ==> e.0 < |store.tasks|
    modifies store
    ensures store.Valid() && store.Snapshot() == StoreAll(old(store.Snapshot()), plan, accepted)
    ensures r == PlanFailed(NoRunnableTasks) <==> drafts != [] && forall i :: 0 <= i < |accepted| ==> !accepted[i]
    ensures r != PlanFailed(NoRunnableTasks) ==> r.Planned? && AreTheReady(store.tasks, |old(store.tasks)|, r.ready)
  {
    var base := |store.tasks|;
    StoredStatus(store.tasks, plan, accepted, store.tasks + StoredTasks(plan, accepted));
    StoredReady(base, accepted, store.tasks + StoredTasks(plan, accepted));
    NoneReady(base, accepted);
    NormalizedIsLinkable(drafts);
    var titleToID := CreateTasks(store, plan);
    var error := LinkTasks(store, plan, titleToID, base, store.Snapshot());
    match error {
      case Some(e) => return PlanFailed(e);
      case None =>
    }
    var ready;
    ready, error := ValidateTasks(store, plan, accepted, base, store.Snapshot());
    match error {
      case Some(e) => return PlanFailed(e);
      case None =>
    }
    if |ready| == 0 && |accepted| > 0 {
      return PlanFailed(NoRunnableTasks);
    }
    return Planned(ready);
  }

  /** Each of these first statuses is logged, in order. */
  lemma StoredEventRows(base: nat, accepted: seq<bool>)
    ensures |StoredEvents(base, accepted)| == |accepted|
    ensures forall i :: 0 <= i < |accepted| ==>
              StoredEvents(base, accepted)[i]
              == StatusChanged(base + i, Draft, if accepted[i] then Ready else Blocked)
  {
  }

  /** With IDs counted from `base`: task `a` waits for the title of task `b`, and no later task has that title. */
  predicate IsLink(base: nat, plan: seq<PlannedTask>, a: nat, b: nat) {
    && base <= a < base + |plan| && base <= b < base + |plan|
    && plan[b - base].title in plan[a - base].dependsOn
    && forall k :: b - base < k < |plan| ==> plan[k].title != plan[b - base].title
  }

  function Links(base: nat, plan: seq<PlannedTask>): set<(nat, nat)> {
    set a: nat, b: nat | base <= a < base + |plan| && base <= b < base + |plan| && IsLink(base, plan, a, b) :: (a, b)
  }

  /** The rows that linking by title adds: one for the last task of each title that a task waits for. */
  lemma StoredLinks(base: nat, plan: seq<PlannedTask>)
    requires CleanTitles(plan)
    ensures IdEdges(base, Normalize(plan)) == Links(base, Normalize(plan))
  {
    NormalizedIsLinkable(plan);
    SameLinks(base, Normalize(plan));
  }

  lemma SameLinks(base: nat, plan: seq<PlannedTask>)
    requires Linkable(plan)
    ensures IdEdges(base, plan) == Links(base, plan)
  {
    forall a: nat, b: nat ensures (a, b) in IdEdges(base, plan) <==> (a, b) in Links(base, plan) {
      StoredLink(base, plan, a, b);
    }
    SamePairs<nat, nat>(IdEdges(base, plan), Links(base, plan));
  }

  lemma StoredLink(base: nat, plan: seq<PlannedTask>, a: nat, b: nat)
    requires Linkable(plan)
    ensures (a, b) in IdEdges(base, plan) <==> IsLink(base, plan, a, b)
  {
    if (a, b) in IdEdges(base, plan) {
      var i, d :| 0 <= i < |plan| && d in plan[i].dependsOn && (a, b) == (base + i, base + LastIndex(plan, d));
      LastIndexFacts(plan, d);
    }
    if IsLink(base, plan, a, b) {
      var i, d := a - base, plan[b - base].title;
      assert d in plan[i].dependsOn && (base + i, base + LastIndex(plan, d)) in IdEdges(base, plan);
      LastIndexFacts(plan, d);
    }
  }

  lemma SameTitles(drafts: seq<PlannedTask>, plan: seq<PlannedTask>)
    requires plan == Normalize(drafts)
    ensures forall i :: 0 <= i < |drafts| ==> plan[i].title == drafts[i].title
  {
    assert forall i :: 0 <= i < |drafts| ==> plan[i].title == Titles(plan)[i] == Titles(drafts)[i];
  }

  lemma PlannedTasks(tasks: seq<Task>, drafts: seq<PlannedTask>, plan: seq<PlannedTask>, accepted: seq<bool>,
          later: seq<Task>)
    requires |accepted| == |plan| == |drafts| && later == tasks + StoredTasks(plan, accepted)
    requires forall i :: 0 <= i < |drafts| ==> plan[i].title == drafts[i].title
    ensures |later| == |tasks| + |drafts| && later[..|tasks|] == tasks
    ensures forall id :: |tasks| <= id < |later| ==>
              var i := id - |tasks|;
              later[id] == Task(drafts[i].title, if accepted[i] then Ready else Blocked)
  {
    StoredTaskRows(tasks, plan, accepted, later);
  }

  lemma PlannedRows(db: Db, drafts: seq<PlannedTask>, accepted: seq<bool>, later: Db)
    requires CleanTitles(drafts) && |accepted| == |drafts| && later == StoreNormalized(db, drafts, accepted)
    ensures |later.tasks| == |db.tasks| + |drafts| && later.tasks[..|db.tasks|] == db.tasks
    ensures forall id :: |db.tasks| <= id < |later.tasks| ==>
              var i := id - |db.tasks|;
              later.tasks[id] == Task(drafts[i].title, if accepted[i] then Ready else Blocked)
  {
    var plan := Normalize(drafts);
    SameTitles(drafts, plan);
    PlannedTasks(db.tasks, drafts, plan, accepted, later.tasks);
  }

  /** Normalises a plan and stores it: the effect is exactly `StorePlan`. */
  method NormalizeAndStore(store: TaskStore, drafts: seq<PlannedTask>, accepted: seq<bool>) returns (r: PlanResult)
    requires store.Valid() && CleanTitles(drafts) && |accepted| == |drafts|
    requires forall e :: e in store.dependencies ==> e.0 < |store.tasks|
    modifies store
    ensures store.Valid() && store.Snapshot() == Exec(old(store.Snapshot()), StorePlan(drafts, accepted))
    ensures r == PlanFailed(NoRunnableTasks) <==> drafts != [] && forall i :: 0 <= i < |accepted| ==> !accepted[i]
    ensures r != PlanFailed(NoRunnableTasks) ==> r.Planned? && AreTheReady(store.tasks, |old(store.tasks)|, r.ready)
  {
    var plan := NormalizeDependencies(drafts);
    r := StorePlanned(store, drafts, plan, accepted);
  }

  /**
   The effect is exactly `StorePlan`: behind the older tasks come those of the plan, READY if
   accepted and BLOCKED if not. The only error left is that no task may run; otherwise exactly
   the READY ones are returned.
   */
  method PlanProject(store: TaskStore, drafts: seq<PlannedTask>, accepted: seq<bool>) returns (r: PlanResult)
    requires store.Valid() && CleanTitles(drafts) && |accepted| == |drafts|
    requires forall e :: e in store.dependencies ==> e.0 < |store.tasks|
    modifies store
    ensures store.Valid() && store.Snapshot() == Exec(old(store.Snapshot()), StorePlan(drafts, accepted))
    ensures r == PlanFailed(NoRunnableTasks) <==> drafts != [] && forall i :: 0 <= i < |accepted| ==> !accepted[i]
    ensures r != PlanFailed(NoRunnableTasks) ==> r.Planned? && AreTheReady(store.tasks, |old(store.tasks)|, r.ready)
    ensures |store.tasks| == |old(store.tasks)| + |drafts| && store.tasks[..|old(store.tasks)|] == old(store.tasks)
    ensures forall id :: |old(store.tasks)| <= id < |store.tasks| ==>
              var i := id - |old(store.tasks)|;
              store.tasks[id] == Task(drafts[i].title, if accepted[i] then Ready else Blocked)
  {
    r := NormalizeAndStore(store, drafts, accepted);
    PlannedRows(old(store.Snapshot()), drafts, accepted, store.Snapshot());
  }
}
