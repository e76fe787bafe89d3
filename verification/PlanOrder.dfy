/** What normalising and pruning a plan guarantees about the order its tasks can run in. */
module PlanOrder {
  import opened Text
  import opened Digraph
  import opened DependencyPruning
  import opened DependencyNormalizer

  // ---- the rewritten lists -------------------------------------------------------

  /** A list of dependencies the roles allow `self` to have, each once. */
  predicate GoodList(roles: Roles, self: string, list: seq<string>) {
    Distinct(list) && forall d :: d in list ==> roles.Admits(self, d)
  }

  lemma AddDepKeepsGood(roles: Roles, self: string, deps: seq<string>, raw: string)
    requires GoodList(roles, self, deps)
    ensures GoodList(roles, self, AddDep(roles, self, deps, raw))
    ensures deps <= AddDep(roles, self, deps, raw)
    ensures roles.Admits(self, Trim(raw)) ==> Trim(raw) in AddDep(roles, self, deps, raw)
  {
  }

  lemma {:induction false} AddAllKeepsGood(roles: Roles, self: string, deps: seq<string>, raws: seq<string>)
    requires GoodList(roles, self, deps)
    ensures GoodList(roles, self, AddAll(roles, self, deps, raws))
    ensures deps <= AddAll(roles, self, deps, raws)
    ensures forall r :: r in raws && roles.Admits(self, Trim(r)) ==> Trim(r) in AddAll(roles, self, deps, raws)
    decreases |raws|
  {
    if raws != [] {
      AddDepKeepsGood(roles, self, deps, raws[0]);
      AddAllKeepsGood(roles, self, AddDep(roles, self, deps, raws[0]), raws[1..]);
    }
  }

  /** Adding allowed titles that are all new appends them in order. */
  lemma {:induction false} AddAllAppends(roles: Roles, self: string, deps: seq<string>, raws: seq<string>)
    requires GoodList(roles, self, deps + raws) && CleanList(raws)
    ensures AddAll(roles, self, deps, raws) == deps + raws
    decreases |raws|
  {
    if raws == [] {
      assert deps + raws == deps;
    } else {
      TrimOfMember(raws, raws[0]);
      assert deps + raws == (deps + [raws[0]]) + raws[1..];
      assert (deps + raws)[|deps|] == raws[0];
      assert forall k :: 0 <= k < |deps| ==> (deps + raws)[k] == deps[k];
      AddAllAppends(roles, self, deps + [raws[0]], raws[1..]);
    }
  }

  /** Adding titles that are already listed changes nothing. */
  lemma {:induction false} AddAllPresent(roles: Roles, self: string, deps: seq<string>, raws: seq<string>)
    requires CleanList(raws) && forall r :: r in raws ==> r in deps
    ensures AddAll(roles, self, deps, raws) == deps
    decreases |raws|
  {
    if raws != [] {
      TrimOfMember(raws, raws[0]);
      AddAllPresent(roles, self, deps, raws[1..]);
    }
  }

  lemma TrimOfMember(list: seq<string>, d: string)
    requires CleanList(list) && d in list
    ensures Trim(d) == d
  {
    TrimTrimmed(d);
  }

  lemma {:induction false} FirstTitleIsTitle(plan: seq<PlannedTask>, mark: Mark)
    ensures FirstTitle(plan, mark) == "" || exists i :: 0 <= i < |plan| && plan[i].title == FirstTitle(plan, mark)
  {
    if plan != [] && !HasMark(plan[0], mark) {
      FirstTitleIsTitle(plan[1..], mark);
      if FirstTitle(plan[1..], mark) != "" {
        var i :| 0 <= i < |plan[1..]| && plan[1..][i].title == FirstTitle(plan[1..], mark);
        assert plan[i + 1].title == FirstTitle(plan, mark);
      }
    }
  }

  lemma {:induction false} UnmarkedIs(plan: seq<PlannedTask>, self: string)
    ensures forall t :: t in Unmarked(plan, self) <==>
        exists i :: 0 <= i < |plan| && plan[i].title == t && t != self && !plan[i].finalMark
  {
    if plan != [] {
      UnmarkedIs(plan[1..], self);
      assert forall i :: 0 < i < |plan| ==> plan[i] == plan[1..][i - 1];
      assert forall i :: 0 <= i < |plan| - 1 ==> plan[1..][i] == plan[i + 1];
    }
  }

  lemma {:induction false} LastMarkOfDistinct(plan: seq<PlannedTask>, i: nat)
    requires i < |plan| && Distinct(Titles(plan))
    ensures LastMark(plan, plan[i].title) == plan[i].finalMark
    decreases |plan|
  {
    var n := |plan| - 1;
    assert forall k :: 0 <= k < |plan| ==> Titles(plan)[k] == plan[k].title;
    if i < n {
      assert Titles(plan)[i] != Titles(plan)[n];
      assert Titles(plan[..n]) == Titles(plan)[..n];
      LastMarkOfDistinct(plan[..n], i);
    }
  }

  /** The roles of a plan name titles of the plan, and the roots are not final. */
  lemma RolesAreTitles(plan: seq<PlannedTask>)
    requires CleanTitles(plan)
    ensures var roles := RolesOf(plan);
      && (forall t :: t in roles.titles <==> exists i :: 0 <= i < |plan| && plan[i].title == t)
      && (roles.research == "" || roles.research in roles.titles)
      && (roles.reflection == "" || roles.reflection in roles.titles)
      && roles.research !in roles.finals && roles.reflection !in roles.finals && roles.finals <= roles.titles
      && (forall t :: t in roles.titles ==> CleanTitle(t))
  {
    FirstTitleIsTitle(plan, ResearchMark);
    FirstTitleIsTitle(plan, ReflectionMark);
    assert forall i :: 0 <= i < |plan| ==> Titles(plan)[i] == plan[i].title;
  }

  /** The tasks every final task is made to wait for directly. */
  function Waited(plan: seq<PlannedTask>): set<string> {
    set i | 0 <= i < |plan| && !plan[i].finalMark :: plan[i].title
  }

  /** The shape the normaliser gives the list of the task `self`. */
  ghost predicate ListShape(roles: Roles, waited: set<string>, self: string, list: seq<string>) {
    && GoodList(roles, self, list)
    && CleanList(list)
    && (self == roles.research ==> list == [])
    && (self != roles.research && self == roles.reflection ==>
        list == if roles.research == "" then [] else [roles.research])
    && (self != roles.research && self != roles.reflection && roles.Root() != "" ==> roles.Root() in list)
    && (self in roles.finals ==> forall c :: c in waited && c != self ==> c in list)
  }

  lemma {:induction false} UnmarkedIsWaited(plan: seq<PlannedTask>, self: string)
    ensures forall t :: t in Unmarked(plan, self) <==> t in Waited(plan) && t != self
  {
    UnmarkedIs(plan, self);
  }

  lemma RootListShape(plan: seq<PlannedTask>, roles: Roles, task: PlannedTask)
    requires CleanTitles(plan) && roles == RolesOf(plan)
    requires task.title == roles.research || task.title == roles.reflection
    ensures ListShape(roles, Waited(plan), task.title, NormalizedList(plan, roles, task))
  {
    if task.title == roles.research {
      assert NormalizedList(plan, roles, task) == [];
    } else {
      ReflectionListShape(plan, roles, task);
    }
  }

  lemma ReflectionWaits(plan: seq<PlannedTask>, roles: Roles, self: string)
    requires CleanTitles(plan) && roles == RolesOf(plan)
    requires self != roles.research && self == roles.reflection && roles.research != ""
    ensures AddDep(roles, self, [], roles.research) == [roles.research]
  {
    RolesAreTitles(plan);
    TrimTrimmed(roles.research);
  }

  lemma ReflectionListShape(plan: seq<PlannedTask>, roles: Roles, task: PlannedTask)
    requires CleanTitles(plan) && roles == RolesOf(plan)
    requires task.title != roles.research && task.title == roles.reflection
    ensures ListShape(roles, Waited(plan), task.title, NormalizedList(plan, roles, task))
  {
    RolesAreTitles(plan);
    if roles.research != "" {
      ReflectionWaits(plan, roles, task.title);
    }
  }

  lemma OtherListShape(plan: seq<PlannedTask>, roles: Roles, task: PlannedTask)
    requires CleanTitles(plan) && roles == RolesOf(plan)
    requires task.title != roles.research && task.title != roles.reflection
    ensures ListShape(roles, Waited(plan), task.title, NormalizedList(plan, roles, task))
  {
    RolesAreTitles(plan);
    var self := task.title;
    AddAllKeepsGood(roles, self, [], task.dependsOn);
    var own := AddAll(roles, self, [], task.dependsOn);
    if roles.Root() != "" {
      TrimTrimmed(roles.Root());
      AddDepKeepsGood(roles, self, own, roles.Root());
    }
    var rooted := if roles.Root() != "" then AddDep(roles, self, own, roles.Root()) else own;
    if self in roles.finals {
      UnmarkedIsWaited(plan, self);
      AddAllKeepsGood(roles, self, rooted, Unmarked(plan, self));
      forall c | c in Waited(plan) && c != self ensures Trim(c) == c && roles.Admits(self, c) {
        TrimTrimmed(c);
      }
    }
  }

  /** The lists a normaliser may hand to the pruner. */
  ghost predicate Shaped(roles: Roles, waited: set<string>, titles: seq<string>, lists: seq<seq<string>>) {
    && |titles| == |lists|
    && (forall i :: 0 <= i < |titles| ==> CleanTitle(titles[i]) && titles[i] in roles.titles)
    && (forall i :: 0 <= i < |titles| ==> ListShape(roles, waited, titles[i], lists[i]))
    && (forall t :: t in roles.titles ==> t in titles)
    && roles.research !in roles.finals && roles.reflection !in roles.finals && roles.finals <= roles.titles
    && (roles.research == "" || roles.research in roles.titles)
    && (roles.reflection == "" || roles.reflection in roles.titles)
  }

  lemma ShapedIsClean(roles: Roles, waited: set<string>, titles: seq<string>, lists: seq<seq<string>>)
    requires Shaped(roles, waited, titles, lists)
    ensures CleanPlan(titles, lists)
  {
    forall i | 0 <= i < |lists| ensures CleanList(lists[i]) {
      assert ListShape(roles, waited, titles[i], lists[i]);
    }
  }

  lemma NormalizedIsShaped(plan: seq<PlannedTask>)
    requires CleanTitles(plan)
    ensures Shaped(RolesOf(plan), Waited(plan), Titles(plan), NormalizedLists(plan))
  {
    var roles := RolesOf(plan);
    RolesAreTitles(plan);
    forall i | 0 <= i < |plan| ensures ListShape(roles, Waited(plan), plan[i].title, NormalizedLists(plan)[i]) {
      if plan[i].title == roles.research || plan[i].title == roles.reflection {
        RootListShape(plan, roles, plan[i]);
      } else {
        OtherListShape(plan, roles, plan[i]);
      }
    }
    forall t | t in roles.titles ensures t in Titles(plan) {
      var i :| 0 <= i < |plan| && plan[i].title == t;
      assert Titles(plan)[i] == t;
    }
  }

  // ---- order survives pruning ------------------------------------------------------

  /** A plan the runtime can be given: clean titles, none twice. */
  predicate DistinctPlan(plan: seq<PlannedTask>) {
    CleanTitles(plan) && Distinct(Titles(plan))
  }

  lemma ShapedEdge(roles: Roles, waited: set<string>, titles: seq<string>, lists: seq<seq<string>>, u: string,
          v: string)
    requires Shaped(roles, waited, titles, lists) && (u, v) in PlanEdges(titles, lists)
    ensures exists list :: v in list && ListShape(roles, waited, u, list)
    ensures v in roles.titles && (u in roles.finals || v !in roles.finals)
    ensures u != roles.research
    ensures u == roles.reflection ==> v == roles.research
  {
    var i :| 0 <= i < |titles| && titles[i] == u && v in lists[i];
    assert ListShape(roles, waited, titles[i], lists[i]);
  }

  /** Nothing but the roots can be reached from a root. */
  lemma RootsReachOnlyRoots(roles: Roles, waited: set<string>, titles: seq<string>, lists: seq<seq<string>>,
          u: string, v: string)
    requires Shaped(roles, waited, titles, lists)
    requires u == roles.research || u == roles.reflection
    requires Reaches(PlanEdges(titles, lists), u, v)
    ensures v == roles.research || v == roles.reflection
  {
    var roots := {roles.research, roles.reflection};
    forall a, b | (a, b) in PlanEdges(titles, lists) && a in roots ensures b in roots {
      ShapedEdge(roles, waited, titles, lists, a, b);
    }
    ClosedSetKeepsWalk(PlanEdges(titles, lists), roots, u, v);
  }

  /** Nothing final can be reached from a task that is not final. */
  lemma NonFinalReachesNoFinal(roles: Roles, waited: set<string>, titles: seq<string>, lists: seq<seq<string>>,
          u: string, v: string)
    requires Shaped(roles, waited, titles, lists)
    requires u in roles.titles - roles.finals && Reaches(PlanEdges(titles, lists), u, v)
    ensures v !in roles.finals
  {
    var early := roles.titles - roles.finals;
    forall a, b | (a, b) in PlanEdges(titles, lists) && a in early ensures b in early {
      ShapedEdge(roles, waited, titles, lists, a, b);
    }
    ClosedSetKeepsWalk(PlanEdges(titles, lists), early, u, v);
  }

  /** A dependency on a root, or of a final task on one that is not final. */
  predicate IsNeeded(roles: Roles, self: string, d: string) {
    d == roles.research || d == roles.reflection || (self in roles.finals && d !in roles.finals)
  }

  /** A dependency on a root, and one of a final task on a task that is not, closes no cycle; so it is kept. */
  lemma NeededEdgesAreKept(roles: Roles, waited: set<string>, titles: seq<string>, lists: seq<seq<string>>, i: nat,
          d: string)
    requires Shaped(roles, waited, titles, lists) && Distinct(titles) && i < |titles| && d in lists[i]
    requires IsNeeded(roles, titles[i], d)
    ensures d in Pruned(titles, lists)[i]
  {
    ShapedIsClean(roles, waited, titles, lists);
    PrunedAgainstPlan(titles, lists, i);
    PlanEdgeOf(titles, lists, i, d);
    ShapedEdge(roles, waited, titles, lists, titles[i], d);
    if Reaches(PlanEdges(titles, lists), d, titles[i]) {
      if d == roles.research {
        ResearchReachesNothing(roles, waited, titles, lists, titles[i]);
      } else if d == roles.reflection {
        RootsReachOnlyRoots(roles, waited, titles, lists, d, titles[i]);
      } else {
        NonFinalReachesNoFinal(roles, waited, titles, lists, d, titles[i]);
      }
    }
  }

  lemma ResearchReachesNothing(roles: Roles, waited: set<string>, titles: seq<string>, lists: seq<seq<string>>,
          v: string)
    requires Shaped(roles, waited, titles, lists) && Reaches(PlanEdges(titles, lists), roles.research, v)
    ensures v == roles.research
  {
    forall a, b | (a, b) in PlanEdges(titles, lists) ensures a != roles.research {
      ShapedEdge(roles, waited, titles, lists, a, b);
    }
    ClosedSetKeepsWalk(PlanEdges(titles, lists), {roles.research}, roles.research, v);
  }

  lemma OnlyMember(list: seq<string>, x: string)
    requires Distinct(list) && x in list && forall d :: d in list ==> d == x
    ensures list == [x]
  {
    RepeatsAreNotDistinct(list, x);
    assert forall k :: 0 <= k < |list| ==> list[k] in list;
  }

  lemma RepeatsAreNotDistinct(list: seq<string>, x: string)
    ensures |list| > 1 && (forall k :: 0 <= k < |list| ==> list[k] == x) ==> !Distinct(list)
  {
    if |list| > 1 && forall k :: 0 <= k < |list| ==> list[k] == x {
      assert list[0] == list[1];
    }
  }

  /** A sublist that keeps what is needed keeps the shape. */
  lemma SublistShape(roles: Roles, waited: set<string>, self: string, before: seq<string>, after: seq<string>)
    requires ListShape(roles, waited, self, before) && Subsequence(after, before)
    requires waited !! roles.finals && roles.research !in roles.finals && roles.reflection !in roles.finals
    requires forall d :: d in before && IsNeeded(roles, self, d) ==> d in after
    ensures ListShape(roles, waited, self, after)
  {
    SubsequenceMembers(after, before);
    SubsequenceOfDistinct(after, before);
    if self != roles.research && self == roles.reflection && roles.research != "" {
      assert before[0] in before;
      OnlyMember(after, roles.research);
    }
  }

  /** The lists after pruning still have the shape the normaliser gave them. */
  lemma PrunedIsShaped(roles: Roles, waited: set<string>, titles: seq<string>, lists: seq<seq<string>>)
    requires Shaped(roles, waited, titles, lists) && Distinct(titles) && waited !! roles.finals
    ensures Shaped(roles, waited, titles, Pruned(titles, lists))
  {
    PruningKeepsOrder(titles, lists, |titles|);
    forall i | 0 <= i < |titles| ensures ListShape(roles, waited, titles[i], Pruned(titles, lists)[i]) {
      assert ListShape(roles, waited, titles[i], lists[i]);
      forall d | d in lists[i] && IsNeeded(roles, titles[i], d) ensures d in Pruned(titles, lists)[i] {
        NeededEdgesAreKept(roles, waited, titles, lists, i, d);
      }
      SublistShape(roles, waited, titles[i], lists[i], Pruned(titles, lists)[i]);
    }
  }

  lemma NormalizedPlanIsShaped(plan: seq<PlannedTask>)
    requires DistinctPlan(plan)
    ensures Shaped(RolesOf(plan), Waited(plan), Titles(plan), Lists(Normalize(plan)))
    ensures Waited(plan) !! RolesOf(plan).finals
  {
    NormalizedIsShaped(plan);
    forall i | 0 <= i < |plan| && !plan[i].finalMark ensures plan[i].title !in RolesOf(plan).finals {
      LastMarkOfDistinct(plan, i);
    }
    PrunedIsShaped(RolesOf(plan), Waited(plan), Titles(plan), NormalizedLists(plan));
  }

  lemma {:induction false} SubsequenceOfDistinct<T>(xs: seq<T>, ys: seq<T>)
    requires Subsequence(xs, ys) && Distinct(ys)
    ensures Distinct(xs)
    decreases |ys|
  {
    if xs != [] {
      if xs[0] == ys[0] && Subsequence(xs[1..], ys[1..]) {
        SubsequenceOfDistinct(xs[1..], ys[1..]);
        SubsequenceMembers(xs[1..], ys[1..]);
        forall i, j | 0 <= i < j < |xs| ensures xs[i] != xs[j] {
          if i == 0 {
            assert xs[j] == xs[1..][j - 1];
            assert xs[1..][j - 1] in ys[1..];
            assert forall k :: 0 <= k < |ys| - 1 ==> ys[1..][k] == ys[k + 1];
          } else {
            assert xs[i] == xs[1..][i - 1] && xs[j] == xs[1..][j - 1];
          }
        }
      } else {
        SubsequenceOfDistinct(xs, ys[1..]);
      }
    }
  }

  function PlannedEdges(plan: seq<PlannedTask>): set<(string, string)> {
    PlanEdges(Titles(plan), Lists(plan))
  }

  /** The order a shaped plan runs in: the roots first. */
  lemma ShapedRootsFirst(roles: Roles, waited: set<string>, titles: seq<string>, lists: seq<seq<string>>, i: nat)
    requires Shaped(roles, waited, titles, lists) && i < |titles|
    ensures titles[i] == roles.research ==> lists[i] == []
    ensures titles[i] != roles.research && roles.research != "" ==>
        Reaches(PlanEdges(titles, lists), titles[i], roles.research)
    ensures titles[i] != roles.research && titles[i] != roles.reflection && roles.reflection != "" ==>
              Reaches(PlanEdges(titles, lists), titles[i], roles.reflection)
  {
    var edges := PlanEdges(titles, lists);
    assert ListShape(roles, waited, titles[i], lists[i]);
    if titles[i] != roles.research && roles.Root() != "" {
      if titles[i] == roles.reflection {
        ReflectionWaitsForResearch(roles, waited, titles, lists, i);
      } else {
        PlanEdgeOf(titles, lists, i, roles.Root());
        EdgeReaches(edges, titles[i], roles.Root());
        if roles.reflection != "" && roles.research != "" && roles.reflection != roles.research {
          var k :| 0 <= k < |titles| && titles[k] == roles.reflection;
          ReflectionWaitsForResearch(roles, waited, titles, lists, k);
          ReachesTransitive(edges, titles[i], roles.reflection, roles.research);
        }
      }
    }
  }

  lemma ReflectionWaitsForResearch(roles: Roles, waited: set<string>, titles: seq<string>, lists: seq<seq<string>>,
          i: nat)
    requires Shaped(roles, waited, titles, lists) && i < |titles|
    requires titles[i] == roles.reflection != roles.research
    ensures roles.research != "" ==> Reaches(PlanEdges(titles, lists), roles.reflection, roles.research)
  {
    assert ListShape(roles, waited, titles[i], lists[i]);
    if roles.research != "" {
      PlanEdgeOf(titles, lists, i, roles.research);
      EdgeReaches(PlanEdges(titles, lists), roles.reflection, roles.research);
    }
  }

  /** Research runs first, and every other task still waits, through others perhaps, for both roots. */
  lemma RootsComeFirst(plan: seq<PlannedTask>, i: nat)
    requires DistinctPlan(plan) && i < |plan|
    ensures var roles, self, out := RolesOf(plan), plan[i].title, Normalize(plan);
      && (self == roles.research ==> out[i].dependsOn == [])
      && (self != roles.research && roles.research != "" ==> Reaches(PlannedEdges(out), self, roles.research))
      && (self != roles.research && self != roles.reflection && roles.reflection != "" ==>
            Reaches(PlannedEdges(out), self, roles.reflection))
  {
    NormalizedPlanIsShaped(plan);
    ShapedRootsFirst(RolesOf(plan), Waited(plan), Titles(plan), Lists(Normalize(plan)), i);
  }

  /** Final tasks come last: each still waits for every other task, and none of those waits for it. */
  lemma FinalsComeLast(plan: seq<PlannedTask>, f: nat, n: nat)
    requires DistinctPlan(plan) && f < |plan| && n < |plan|
    requires plan[f].title in RolesOf(plan).finals && plan[n].title !in RolesOf(plan).finals
    ensures Reaches(PlannedEdges(Normalize(plan)), plan[f].title, plan[n].title)
    ensures !Reaches(PlannedEdges(Normalize(plan)), plan[n].title, plan[f].title)
  {
    var roles, self, other, out := RolesOf(plan), plan[f].title, plan[n].title, Normalize(plan);
    NormalizedPlanIsShaped(plan);
    if other == roles.research || other == roles.reflection {
      RootsComeFirst(plan, f);
    } else {
      NonFinalIsWaited(plan, n);
      assert ListShape(roles, Waited(plan), Titles(plan)[f], Lists(out)[f]);
      PlanEdgeOf(Titles(plan), Lists(out), f, other);
      EdgeReaches(PlannedEdges(out), self, other);
    }
    assert Titles(plan)[n] in roles.titles;
    if Reaches(PlannedEdges(out), other, self) {
      NonFinalReachesNoFinal(roles, Waited(plan), Titles(plan), Lists(out), other, self);
    }
  }

  lemma NonFinalIsWaited(plan: seq<PlannedTask>, n: nat)
    requires DistinctPlan(plan) && n < |plan| && plan[n].title !in RolesOf(plan).finals
    requires plan[n].title != RolesOf(plan).research && plan[n].title != RolesOf(plan).reflection
    ensures plan[n].title in Waited(plan)
  {
    LastMarkOfDistinct(plan, n);
    RolesAreTitles(plan);
  }

  // ---- normalising again changes nothing ---------------------------------------------

  /** The same tasks, each with the same dependencies in an order of its own. */
  ghost predicate SameUpToListOrder(one: seq<PlannedTask>, two: seq<PlannedTask>) {
    && |one| == |two|
    && forall i :: 0 <= i < |one| ==>
         && two[i] == one[i].(dependsOn := two[i].dependsOn)
         && multiset(two[i].dependsOn) == multiset(one[i].dependsOn)
  }

  lemma {:induction false} SameMarksSameRoles(one: seq<PlannedTask>, two: seq<PlannedTask>)
    requires |one| == |two|
    requires forall i :: 0 <= i < |one| ==> two[i] == one[i].(dependsOn := two[i].dependsOn)
    ensures forall m: Mark :: FirstTitle(one, m) == FirstTitle(two, m)
    decreases |one|
  {
    if one != [] {
      SameMarksSameRoles(one[1..], two[1..]);
    }
  }

  lemma {:induction false} SameMarksSameLast(one: seq<PlannedTask>, two: seq<PlannedTask>)
    requires |one| == |two|
    requires forall i :: 0 <= i < |one| ==> two[i] == one[i].(dependsOn := two[i].dependsOn)
    ensures forall t: string :: LastMark(one, t) == LastMark(two, t)
    decreases |one|
  {
    if one != [] {
      SameMarksSameLast(one[..|one| - 1], two[..|two| - 1]);
    }
  }

  lemma MultisetMembers<T>(one: seq<T>, two: seq<T>)
    requires multiset(one) == multiset(two)
    ensures |one| == |two|
    ensures forall x :: x in one <==> x in two
    ensures Distinct(one) ==> Distinct(two)
  {
    assert |multiset(one)| == |one| && |multiset(two)| == |two|;
    forall x ensures x in one <==> x in two {
      assert x in one <==> x in multiset(one);
      assert x in two <==> x in multiset(two);
    }
    if Distinct(one) {
      forall i, j | 0 <= i < j < |two| ensures two[i] != two[j] {
        DistinctOnce(one, two[i]);
        assert two == two[..j] + [two[j]] + two[j + 1..];
        assert two[..j][i] == two[i];
      }
    }
  }

  lemma {:induction false} DistinctOnce<T>(s: seq<T>, x: T)
    requires Distinct(s)
    ensures multiset(s)[x] <= 1
    decreases |s|
  {
    if s != [] {
      var n := |s| - 1;
      assert s == s[..n] + [s[n]];
      DistinctOnce(s[..n], x);
    }
  }

  /** The root is listed already, so adding it again changes nothing. */
  lemma RootIsPresent(roles: Roles, self: string, list: seq<string>, root: string)
    requires CleanList(list) && root in list
    ensures AddDep(roles, self, list, root) == list
  {
    TrimOfMember(list, root);
  }

  lemma OtherListIsFixed(plan: seq<PlannedTask>, roles: Roles, task: PlannedTask)
    requires CleanTitles(plan) && roles == RolesOf(plan)
    requires task.title != roles.research && task.title != roles.reflection
    requires ListShape(roles, Waited(plan), task.title, task.dependsOn)
    ensures NormalizedList(plan, roles, task) == task.dependsOn
  {
    var self, list := task.title, task.dependsOn;
    assert [] + list == list;
    AddAllAppends(roles, self, [], list);
    if roles.Root() != "" {
      RootIsPresent(roles, self, list, roles.Root());
    }
    if self in roles.finals {
      UnmarkedIsWaited(plan, self);
      UnmarkedIsClean(plan, self);
      AddAllPresent(roles, self, list, Unmarked(plan, self));
    }
  }

  lemma {:induction false} UnmarkedIsClean(plan: seq<PlannedTask>, self: string)
    requires CleanTitles(plan)
    ensures CleanList(Unmarked(plan, self))
  {
    if plan != [] {
      UnmarkedIsClean(plan[1..], self);
    }
  }

  /** A list that already has its shape is not changed by the normaliser. */
  lemma ShapedListIsFixed(plan: seq<PlannedTask>, roles: Roles, task: PlannedTask)
    requires CleanTitles(plan) && roles == RolesOf(plan)
    requires ListShape(roles, Waited(plan), task.title, task.dependsOn)
    ensures NormalizedList(plan, roles, task) == task.dependsOn
  {
    if task.title != roles.research && task.title != roles.reflection {
      OtherListIsFixed(plan, roles, task);
    } else if task.title != roles.research && roles.research != "" {
      ReflectionWaits(plan, roles, task.title);
    }
  }

  /**
   Normalising a normalised plan again gives it back list for list, even when the lists
   were reordered in between, as the planner does when it sorts them.
   */
  lemma NormalizeAgainChangesNothing(plan: seq<PlannedTask>, again: seq<PlannedTask>)
    requires DistinctPlan(plan) && SameUpToListOrder(Normalize(plan), again)
    ensures Normalize(again) == again
  {
    SameRoles(plan, again);
    NormalizedPlanIsShaped(plan);
    forall i | 0 <= i < |again| ensures NormalizedLists(again)[i] == again[i].dependsOn {
      ReorderedList(plan, again, i);
      ShapedListIsFixed(again, RolesOf(again), again[i]);
    }
    assert NormalizedLists(again) == Lists(again);
    NormalizedIsShaped(again);
    ShapedIsClean(RolesOf(again), Waited(again), Titles(again), Lists(again));
    SameEdges(Normalize(plan), again);
    NormalizedIsShaped(plan);
    ShapedIsClean(RolesOf(plan), Waited(plan), Titles(plan), NormalizedLists(plan));
    PrunedPlanIsAcyclic(Titles(plan), NormalizedLists(plan));
    PruningKeepsAcyclicPlans(Titles(again), Lists(again));
  }

  lemma SameRoles(plan: seq<PlannedTask>, again: seq<PlannedTask>)
    requires SameUpToListOrder(Normalize(plan), again)
    ensures Titles(again) == Titles(plan) && RolesOf(again) == RolesOf(plan) && Waited(again) == Waited(plan)
  {
    forall i | 0 <= i < |plan| ensures again[i] == plan[i].(dependsOn := again[i].dependsOn) {
      assert Normalize(plan)[i] == plan[i].(dependsOn := Normalize(plan)[i].dependsOn);
    }
    SameMarksSameRoles(plan, again);
    SameMarksSameLast(plan, again);
    assert Titles(again) == Titles(plan);
  }

  /** Reordering a normalised list leaves it in shape. */
  lemma ReorderedList(plan: seq<PlannedTask>, again: seq<PlannedTask>, i: nat)
    requires DistinctPlan(plan) && SameUpToListOrder(Normalize(plan), again) && i < |plan|
    ensures ListShape(RolesOf(again), Waited(again), again[i].title, again[i].dependsOn)
  {
    SameRoles(plan, again);
    NormalizedPlanIsShaped(plan);
    assert again[i].title == Titles(again)[i] == Titles(plan)[i];
    ReorderedShape(RolesOf(plan), Waited(plan), Titles(plan)[i], Lists(Normalize(plan))[i], again[i].dependsOn);
  }

  lemma ReorderedShape(roles: Roles, waited: set<string>, self: string, one: seq<string>, two: seq<string>)
    requires ListShape(roles, waited, self, one) && multiset(one) == multiset(two)
    ensures ListShape(roles, waited, self, two)
  {
    MultisetMembers(one, two);
    if self != roles.research && self == roles.reflection && roles.research != "" {
      assert one[0] in two;
      OnlyMember(two, roles.research);
    }
  }

  lemma SameEdges(one: seq<PlannedTask>, two: seq<PlannedTask>)
    requires SameUpToListOrder(one, two)
    ensures PlannedEdges(one) == PlannedEdges(two)
  {
    forall i | 0 <= i < |one| ensures forall d :: d in Lists(one)[i] <==> d in Lists(two)[i] {
      MultisetMembers(one[i].dependsOn, two[i].dependsOn);
    }
  }

  lemma NormalizeIsIdempotent(plan: seq<PlannedTask>)
    requires DistinctPlan(plan)
    ensures Normalize(Normalize(plan)) == Normalize(plan)
  {
    NormalizeAgainChangesNothing(plan, Normalize(plan));
  }
}
