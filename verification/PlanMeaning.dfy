/**
 What a normalised plan is (`normalizeTaskDependencies` in
 `internal/runtime/service_planning.go`), said of the tasks and marks of the plan alone: which
 dependencies every task ends up with, in which order, and which of them pruning leaves out.
 */
module PlanMeaning {
  import opened Text
  import opened Digraph
  import opened DependencyPruning
  import opened DependencyNormalizer
  import opened PlanOrder

  // ---- roles, read off the marks ----------------------------------------------------------

  predicate IsTitle(plan: seq<PlannedTask>, t: string) {
    exists i :: 0 <= i < |plan| && plan[i].title == t
  }

  /** The title of the first task with a research mark. */
  predicate IsResearch(plan: seq<PlannedTask>, t: string) {
    exists i :: 0 <= i < |plan| && plan[i].title == t && plan[i].research
                && forall k :: 0 <= k < i ==> !plan[k].research
  }

  predicate IsReflection(plan: seq<PlannedTask>, t: string) {
    exists i :: 0 <= i < |plan| && plan[i].title == t && plan[i].reflection
                && forall k :: 0 <= k < i ==> !plan[k].reflection
  }

  /** Neither of these two, and the last task with this title has a final mark. */
  predicate IsFinal(plan: seq<PlannedTask>, t: string) {
    && !IsResearch(plan, t) && !IsReflection(plan, t)
    && exists i :: 0 <= i < |plan| && plan[i].title == t && plan[i].finalMark
                   && forall k :: i < k < |plan| ==> plan[k].title != t
  }

  /** What every other task waits for: reflection if the plan has it, otherwise research. */
  predicate IsRoot(plan: seq<PlannedTask>, t: string) {
    IsReflection(plan, t) || (IsResearch(plan, t) && forall i :: 0 <= i < |plan| ==> !plan[i].reflection)
  }

  // ---- what a task waits for -----------------------------------------------------------------

  /** Only another task of the plan, and a final one only if the task is final itself. */
  predicate MayWaitFor(plan: seq<PlannedTask>, self: string, d: string) {
    d != self && IsTitle(plan, d) && (IsFinal(plan, d) ==> IsFinal(plan, self))
  }

  /** The task's own list names `d`, perhaps with white space around it. */
  predicate Names(task: PlannedTask, d: string) {
    exists k :: 0 <= k < |task.dependsOn| && Trim(task.dependsOn[k]) == d
  }

  /** Its own dependencies and the root; a final task also waits for every task without a final mark. */
  predicate IsToWaitFor(plan: seq<PlannedTask>, task: PlannedTask, d: string) {
    || Names(task, d)
    || IsRoot(plan, d)
    || (IsFinal(plan, task.title) && exists j :: 0 <= j < |plan| && plan[j].title == d && !plan[j].finalMark)
  }

  predicate WaitsFor(plan: seq<PlannedTask>, task: PlannedTask, d: string) {
    if IsResearch(plan, task.title) then false
    else if IsReflection(plan, task.title) then IsResearch(plan, d)
    else MayWaitFor(plan, task.title, d) && IsToWaitFor(plan, task, d)
  }

  // ---- the roles the loops find -----------------------------------------------------------------

  lemma {:induction false} FirstTitleIs(plan: seq<PlannedTask>, mark: Mark, t: string)
    requires CleanTitles(plan)
    ensures t != "" && FirstTitle(plan, mark) == t <==>
            exists i :: 0 <= i < |plan| && plan[i].title == t && HasMark(plan[i], mark)
                        && forall k :: 0 <= k < i ==> !HasMark(plan[k], mark)
  {
    if plan != [] && !HasMark(plan[0], mark) {
      var rest := plan[1..];
      FirstTitleIs(rest, mark, t);
      if i :| 0 <= i < |rest| && rest[i].title == t && HasMark(rest[i], mark)
              && forall k :: 0 <= k < i ==> !HasMark(rest[k], mark) {
        assert plan[i + 1].title == t;
        forall k | 0 <= k < i + 1 ensures !HasMark(plan[k], mark) {
          assert k > 0 ==> plan[k] == rest[k - 1];
        }
      }
      if i :| 0 <= i < |plan| && plan[i].title == t && HasMark(plan[i], mark)
              && forall k :: 0 <= k < i ==> !HasMark(plan[k], mark) {
        assert rest[i - 1].title == t;
        assert forall k :: 0 <= k < i - 1 ==> rest[k] == plan[k + 1];
      }
    }
  }

  lemma {:induction false} LastMarkIs(plan: seq<PlannedTask>, t: string)
    ensures LastMark(plan, t) <==> exists i :: 0 <= i < |plan| && plan[i].title == t && plan[i].finalMark
                                               && forall k :: i < k < |plan| ==> plan[k].title != t
  {
    if plan != [] && plan[|plan| - 1].title != t {
      var n := |plan| - 1;
      LastMarkIs(plan[..n], t);
      if LastMark(plan[..n], t) {
        var i :| 0 <= i < n && plan[..n][i].title == t && plan[..n][i].finalMark
                 && forall k :: i < k < n ==> plan[..n][k].title != t;
        assert plan[i].title == t;
        forall k | i < k < |plan| ensures plan[k].title != t {
          assert k < n ==> plan[k] == plan[..n][k];
        }
      }
      if i :| 0 <= i < |plan| && plan[i].title == t && plan[i].finalMark
              && forall k :: i < k < |plan| ==> plan[k].title != t {
        assert plan[..n][i].title == t;
      }
    }
  }

  /** The roles the loops find are the ones read off the marks. */
  lemma RolesAre(plan: seq<PlannedTask>, t: string)
    requires CleanTitles(plan)
    ensures t in RolesOf(plan).titles <==> IsTitle(plan, t)
    ensures t != "" && RolesOf(plan).research == t <==> IsResearch(plan, t)
    ensures t != "" && RolesOf(plan).reflection == t <==> IsReflection(plan, t)
    ensures t in RolesOf(plan).finals <==> IsFinal(plan, t)
    ensures t != "" && RolesOf(plan).Root() == t <==> IsRoot(plan, t)
  {
    RolesAreTitles(plan);
    FirstTitleIs(plan, ResearchMark, t);
    FirstTitleIs(plan, ReflectionMark, t);
    LastMarkIs(plan, t);
    NoReflection(plan);
  }

  lemma {:induction false} NoReflection(plan: seq<PlannedTask>)
    requires CleanTitles(plan)
    ensures FirstTitle(plan, ReflectionMark) == "" <==> forall i :: 0 <= i < |plan| ==> !plan[i].reflection
  {
    if plan != [] && !plan[0].reflection {
      NoReflection(plan[1..]);
      assert forall i :: 0 < i < |plan| ==> plan[i] == plan[1..][i - 1];
      assert forall i :: 0 <= i < |plan| - 1 ==> plan[1..][i] == plan[i + 1];
    }
  }

  // ---- what is offered to a task's list, and what it takes ------------------------------------------

  /** What a task's new list is made from: its own dependencies, the root, and for a final task the unmarked ones. */
  function Offered(plan: seq<PlannedTask>, roles: Roles, task: PlannedTask): seq<string> {
    task.dependsOn
    + (if roles.Root() != "" then [roles.Root()] else [])
    + (if task.title in roles.finals then Unmarked(plan, task.title) else [])
  }

  lemma {:induction false} AddAllConcat(roles: Roles, self: string, deps: seq<string>, one: seq<string>,
          two: seq<string>)
    ensures AddAll(roles, self, deps, one + two) == AddAll(roles, self, AddAll(roles, self, deps, one), two)
    decreases |one|
  {
    if one == [] {
      assert one + two == two;
    } else {
      assert (one + two)[1..] == one[1..] + two;
      AddAllConcat(roles, self, AddDep(roles, self, deps, one[0]), one[1..], two);
    }
  }

  lemma ListTakesOffers(plan: seq<PlannedTask>, roles: Roles, task: PlannedTask)
    requires task.title != roles.research && task.title != roles.reflection
    ensures NormalizedList(plan, roles, task) == AddAll(roles, task.title, [], Offered(plan, roles, task))
  {
    var self := task.title;
    var root := if roles.Root() != "" then [roles.Root()] else [];
    var unmarked := if self in roles.finals then Unmarked(plan, self) else [];
    AddAllConcat(roles, self, [], task.dependsOn + root, unmarked);
    AddAllConcat(roles, self, [], task.dependsOn, root);
  }

  predicate Offers(raws: seq<string>, d: string) {
    exists k :: 0 <= k < |raws| && Trim(raws[k]) == d
  }

  lemma OffersMore(first: string, rest: seq<string>, d: string)
    ensures Offers([first] + rest, d) <==> Trim(first) == d || Offers(rest, d)
  {
    var all := [first] + rest;
    assert all[0] == first && forall k :: 0 <= k < |rest| ==> all[k + 1] == rest[k];
    if k :| 0 <= k < |all| && Trim(all[k]) == d {
      assert k > 0 ==> all[k] == rest[k - 1];
    }
  }

  lemma {:induction false} AddAllTakes(roles: Roles, self: string, deps: seq<string>, raws: seq<string>, d: string)
    ensures d in AddAll(roles, self, deps, raws) <==> d in deps || (roles.Admits(self, d) && Offers(raws, d))
    decreases |raws|
  {
    if raws != [] {
      AddAllTakes(roles, self, AddDep(roles, self, deps, raws[0]), raws[1..], d);
      OffersMore(raws[0], raws[1..], d);
      assert raws == [raws[0]] + raws[1..];
    }
  }

  lemma OffersJoined(one: seq<string>, two: seq<string>, d: string)
    ensures Offers(one + two, d) <==> Offers(one, d) || Offers(two, d)
  {
    assert forall k :: 0 <= k < |one| ==> (one + two)[k] == one[k];
    assert forall k :: 0 <= k < |two| ==> (one + two)[|one| + k] == two[k];
  }

  lemma OffersUnmarked(plan: seq<PlannedTask>, self: string, d: string)
    requires CleanTitles(plan)
    ensures Offers(Unmarked(plan, self), d) <==>
            d != self && exists j :: 0 <= j < |plan| && plan[j].title == d && !plan[j].finalMark
  {
    var unmarked := Unmarked(plan, self);
    UnmarkedIs(plan, self);
    UnmarkedIsClean(plan, self);
    forall k | 0 <= k < |unmarked| ensures Trim(unmarked[k]) == unmarked[k] {
      TrimOfMember(unmarked, unmarked[k]);
    }
    assert d in unmarked <==> exists k :: 0 <= k < |unmarked| && unmarked[k] == d;
  }

  lemma OffersAre(plan: seq<PlannedTask>, task: PlannedTask, d: string)
    requires CleanTitles(plan) && d != task.title && d != ""
    ensures Offers(Offered(plan, RolesOf(plan), task), d) <==> IsToWaitFor(plan, task, d)
  {
    var roles, self := RolesOf(plan), task.title;
    var root := if roles.Root() != "" then [roles.Root()] else [];
    var unmarked := if self in roles.finals then Unmarked(plan, self) else [];
    OffersJoined(task.dependsOn + root, unmarked, d);
    OffersJoined(task.dependsOn, root, d);
    RolesAre(plan, d);
    RolesAre(plan, self);
    OffersUnmarked(plan, self, d);
    RolesAreTitles(plan);
    TrimTrimmed(roles.Root());
    if roles.Root() != "" {
      assert root[0] == roles.Root();
    }
  }

  /** Each task's new list holds, once each, exactly what the task waits for. */
  lemma NormalizedListIs(plan: seq<PlannedTask>, i: nat)
    requires CleanTitles(plan) && i < |plan|
    ensures Distinct(NormalizedLists(plan)[i])
    ensures forall d :: d in NormalizedLists(plan)[i] <==> WaitsFor(plan, plan[i], d)
  {
    var roles, task := RolesOf(plan), plan[i];
    NormalizedIsShaped(plan);
    assert ListShape(roles, Waited(plan), Titles(plan)[i], NormalizedLists(plan)[i]);
    forall d ensures d in NormalizedLists(plan)[i] <==> WaitsFor(plan, task, d) {
      RolesAre(plan, task.title);
      RolesAre(plan, d);
      RolesAreTitles(plan);
      if task.title != roles.research && task.title != roles.reflection {
        ListTakesOffers(plan, roles, task);
        AddAllTakes(roles, task.title, [], Offered(plan, roles, task), d);
        if d != task.title && d != "" {
          OffersAre(plan, task, d);
        }
      }
    }
  }

  // ---- the order of a list -----------------------------------------------------------------------

  /** `d` is offered before `e` is. */
  predicate OfferedFirst(raws: seq<string>, d: string, e: string) {
    exists k :: 0 <= k < |raws| && Trim(raws[k]) == d && forall m :: 0 <= m <= k ==> Trim(raws[m]) != e
  }

  predicate InOrderOf(list: seq<string>, raws: seq<string>) {
    forall a, b :: 0 <= a < b < |list| ==> OfferedFirst(raws, list[a], list[b])
  }

  /** What has been offered is listed if it may be, in the order of the offers. */
  ghost predicate Follows(roles: Roles, self: string, list: seq<string>, raws: seq<string>) {
    && InOrderOf(list, raws)
    && forall d :: d in list <==> roles.Admits(self, d) && Offers(raws, d)
  }

  lemma StaysFirst(raws: seq<string>, more: seq<string>, d: string, e: string)
    requires OfferedFirst(raws, d, e)
    ensures OfferedFirst(raws + more, d, e)
  {
    assert forall k :: 0 <= k < |raws| ==> (raws + more)[k] == raws[k];
  }

  lemma LastIsLater(raws: seq<string>, last: string, d: string)
    requires Offers(raws, d) && !Offers(raws, Trim(last))
    ensures OfferedFirst(raws + [last], d, Trim(last))
  {
    assert forall k :: 0 <= k < |raws| ==> (raws + [last])[k] == raws[k];
  }

  lemma AddDepFollows(roles: Roles, self: string, list: seq<string>, raws: seq<string>, raw: string)
    requires Follows(roles, self, list, raws)
    ensures Follows(roles, self, AddDep(roles, self, list, raw), raws + [raw])
  {
    var longer := AddDep(roles, self, list, raw);
    forall a, b | 0 <= a < b < |longer| ensures OfferedFirst(raws + [raw], longer[a], longer[b]) {
      assert longer[a] == list[a];
      if b < |list| {
        assert longer[b] == list[b];
        StaysFirst(raws, [raw], list[a], list[b]);
      } else {
        assert list[a] in list;
        LastIsLater(raws, raw, list[a]);
      }
    }
    forall d ensures d in longer <==> roles.Admits(self, d) && Offers(raws + [raw], d) {
      OffersJoined(raws, [raw], d);
      OffersMore(raw, [], d);
      assert [raw] + [] == [raw];
    }
  }

  lemma {:induction false} AddAllFollows(roles: Roles, self: string, list: seq<string>, before: seq<string>,
          raws: seq<string>)
    requires Follows(roles, self, list, before)
    ensures Follows(roles, self, AddAll(roles, self, list, raws), before + raws)
    decreases |raws|
  {
    if raws == [] {
      assert before + raws == before;
    } else {
      AddDepFollows(roles, self, list, before, raws[0]);
      AddAllFollows(roles, self, AddDep(roles, self, list, raws[0]), before + [raws[0]], raws[1..]);
      assert before + [raws[0]] + raws[1..] == before + raws;
    }
  }

  /** The titles of the tasks without a final mark, in order; the place of any other task holds `self`. */
  function UnmarkedInPlace(plan: seq<PlannedTask>, self: string): seq<string> {
    seq(|plan|, j requires 0 <= j < |plan| => if plan[j].finalMark then self else plan[j].title)
  }

  lemma {:induction false} SelfIsNotAdded(plan: seq<PlannedTask>, roles: Roles, self: string, deps: seq<string>)
    requires CleanTitles(plan) && CleanTitle(self)
    ensures AddAll(roles, self, deps, UnmarkedInPlace(plan, self)) == AddAll(roles, self, deps, Unmarked(plan, self))
    decreases |plan|
  {
    if plan != [] {
      var places := UnmarkedInPlace(plan, self);
      TrimTrimmed(self);
      assert places[1..] == UnmarkedInPlace(plan[1..], self);
      assert AddDep(roles, self, deps, self) == deps;
      SelfIsNotAdded(plan[1..], roles, self, AddDep(roles, self, deps, places[0]));
      if places[0] == self {
        assert Unmarked(plan, self) == Unmarked(plan[1..], self);
      } else {
        assert Unmarked(plan, self)[1..] == Unmarked(plan[1..], self);
      }
    }
  }

  /**
   A list names its task's own dependencies first, in their order, then the root, then for a
   final task the tasks without a final mark, in the order of the plan.
   */
  lemma NormalizedListOrder(plan: seq<PlannedTask>, i: nat, root: seq<string>)
    requires CleanTitles(plan) && i < |plan|
    requires !IsResearch(plan, plan[i].title) && !IsReflection(plan, plan[i].title)
    requires if exists t :: IsRoot(plan, t) then |root| == 1 && IsRoot(plan, root[0]) else root == []
    ensures IsFinal(plan, plan[i].title) ==>
              InOrderOf(NormalizedLists(plan)[i], plan[i].dependsOn + root + UnmarkedInPlace(plan, plan[i].title))
    ensures !IsFinal(plan, plan[i].title) ==> InOrderOf(NormalizedLists(plan)[i], plan[i].dependsOn + root)
  {
    var roles, task, self := RolesOf(plan), plan[i], plan[i].title;
    RolesAre(plan, self);
    RootIs(plan, root);
    ListTakesOffers(plan, roles, task);
    AddAllConcat(roles, self, [], task.dependsOn + root, if self in roles.finals then Unmarked(plan, self) else []);
    var offered := task.dependsOn + root + if self in roles.finals then UnmarkedInPlace(plan, self) else [];
    AddAllConcat(roles, self, [], task.dependsOn + root,
      if self in roles.finals then UnmarkedInPlace(plan, self) else []);
    SelfIsNotAdded(plan, roles, self, AddAll(roles, self, [], task.dependsOn + root));
    assert NormalizedLists(plan)[i] == AddAll(roles, self, [], offered);
    AddAllFollows(roles, self, [], [], offered);
    assert [] + offered == offered;
    assert task.dependsOn + root + [] == task.dependsOn + root;
  }

  lemma RootIs(plan: seq<PlannedTask>, root: seq<string>)
    requires CleanTitles(plan)
    requires if exists t :: IsRoot(plan, t) then |root| == 1 && IsRoot(plan, root[0]) else root == []
    ensures root == if RolesOf(plan).Root() != "" then [RolesOf(plan).Root()] else []
  {
    RolesAre(plan, RolesOf(plan).Root());
    if root != [] {
      RolesAre(plan, root[0]);
    }
  }

  // ---- after pruning ----------------------------------------------------------------------------------

  /** Who waits for whom before cycles are broken. */
  function Waits(plan: seq<PlannedTask>): set<(string, string)> {
    set i, d | 0 <= i < |plan| && d in Titles(plan) && WaitsFor(plan, plan[i], d) :: (plan[i].title, d)
  }

  lemma WaitsAreTitles(plan: seq<PlannedTask>, task: PlannedTask, d: string)
    requires WaitsFor(plan, task, d)
    ensures d in Titles(plan)
  {
    var i :| 0 <= i < |plan| && plan[i].title == d;
    assert Titles(plan)[i] == d;
  }

  lemma WaitsAreEdges(plan: seq<PlannedTask>)
    requires CleanTitles(plan)
    ensures Waits(plan) == PlanEdges(Titles(plan), NormalizedLists(plan))
  {
    var edges := PlanEdges(Titles(plan), NormalizedLists(plan));
    forall i, d | 0 <= i < |plan|
      ensures d in NormalizedLists(plan)[i] <==> d in Titles(plan) && WaitsFor(plan, plan[i], d)
    {
      NormalizedListIs(plan, i);
      if WaitsFor(plan, plan[i], d) {
        WaitsAreTitles(plan, plan[i], d);
      }
    }
    forall e | e in edges ensures e in Waits(plan) {
      var i, d :| 0 <= i < |plan| && d in NormalizedLists(plan)[i] && e == (Titles(plan)[i], d);
      assert d in Titles(plan) && WaitsFor(plan, plan[i], d);
    }
    forall e | e in Waits(plan) ensures e in edges {
      var i, d :| 0 <= i < |plan| && d in Titles(plan) && WaitsFor(plan, plan[i], d) && e == (plan[i].title, d);
      PlanEdgeOf(Titles(plan), NormalizedLists(plan), i, d);
    }
  }

  /**
   A normalised task depends on what it waits for and nothing else. What is missing would lead
   back to the task; so where nobody waits for himself, nothing is.
   */
  lemma NormalizedPlanIs(plan: seq<PlannedTask>, i: nat, d: string)
    requires DistinctPlan(plan) && i < |plan|
    ensures d in Normalize(plan)[i].dependsOn ==> WaitsFor(plan, plan[i], d)
    ensures WaitsFor(plan, plan[i], d) && d !in Normalize(plan)[i].dependsOn ==>
              Reaches(Waits(plan), d, plan[i].title)
  {
    var titles, lists := Titles(plan), NormalizedLists(plan);
    NormalizedIsShaped(plan);
    ShapedIsClean(RolesOf(plan), Waited(plan), titles, lists);
    NormalizedListIs(plan, i);
    WaitsAreEdges(plan);
    PruningDropsOnlyCycleEdges(titles, lists, i);
    SubsequenceMembers(Pruned(titles, lists)[i], lists[i]);
  }

  /**
   A dependency that the plan itself asks for stays, on another task and not against the
   order of the final tasks, unless that task waits for this one in turn.
   */
  lemma OwnDependencyStays(plan: seq<PlannedTask>, i: nat, k: nat, j: nat)
    requires DistinctPlan(plan) && i < |plan| && k < |plan[i].dependsOn| && j < |plan| && j != i
    requires Trim(plan[i].dependsOn[k]) == plan[j].title
    requires !IsResearch(plan, plan[i].title) && !IsReflection(plan, plan[i].title)
    requires IsFinal(plan, plan[j].title) ==> plan[i].finalMark
    ensures plan[j].title in NormalizedLists(plan)[i]
    ensures plan[j].title in Normalize(plan)[i].dependsOn || Reaches(Waits(plan), plan[j].title, plan[i].title)
  {
    var d := plan[j].title;
    assert Titles(plan)[i] != Titles(plan)[j];
    assert Names(plan[i], d);
    FinalOfDistinct(plan, i);
    FinalOfDistinct(plan, j);
    assert WaitsFor(plan, plan[i], d);
    NormalizedListIs(plan, i);
    NormalizedPlanIs(plan, i, d);
  }

  lemma FinalOfDistinct(plan: seq<PlannedTask>, i: nat)
    requires DistinctPlan(plan) && i < |plan|
    ensures IsFinal(plan, plan[i].title) <==>
            plan[i].finalMark && !IsResearch(plan, plan[i].title) && !IsReflection(plan, plan[i].title)
  {
    LastMarkOfDistinct(plan, i);
    LastMarkIs(plan, plan[i].title);
  }
}
