/**
 The dependency normaliser of a plan (`normalizePlannedDependencies`,
 `normalizeTaskDependencies`): research first, reflection next, final and verification
 tasks last, then the cycle pruner. Whether a task's text matches one of the three marker
 lists is given as three booleans.
 */
module DependencyNormalizer {
  import opened Text
  import opened DependencyPruning

  datatype PlannedTask = PlannedTask(title: string, dependsOn: seq<string>, research: bool, reflection: bool,
      finalMark: bool)

  predicate CleanTitles(plan: seq<PlannedTask>) {
    forall i :: 0 <= i < |plan| ==> CleanTitle(plan[i].title)
  }

  function Titles(plan: seq<PlannedTask>): (r: seq<string>)
    ensures |r| == |plan| && forall i :: 0 <= i < |plan| ==> r[i] == plan[i].title
  {
    seq(|plan|, i requires 0 <= i < |plan| => plan[i].title)
  }

  function Lists(plan: seq<PlannedTask>): (r: seq<seq<string>>)
    ensures |r| == |plan| && forall i :: 0 <= i < |plan| ==> r[i] == plan[i].dependsOn
  {
    seq(|plan|, i requires 0 <= i < |plan| => plan[i].dependsOn)
  }

  // ---- the specification ----------------------------------------------------------

  datatype Mark = ResearchMark | ReflectionMark

  predicate HasMark(task: PlannedTask, mark: Mark) {
    if mark.ResearchMark? then task.research else task.reflection
  }

  /** The title of the first task whose text matches a marker list; empty when none does. */
  function FirstTitle(plan: seq<PlannedTask>, mark: Mark): string {
    if plan == [] then "" else if HasMark(plan[0], mark) then plan[0].title else FirstTitle(plan[1..], mark)
  }

  /** The final mark of the last task with this title: later tasks overwrite earlier ones. */
  predicate LastMark(plan: seq<PlannedTask>, title: string) {
    plan != [] && var last := plan[|plan| - 1];
      if last.title == title then last.finalMark else LastMark(plan[..|plan| - 1], title)
  }

  /** What the normaliser knows about the plan as a whole while it rewrites the lists. */
  datatype Roles = Roles(titles: set<string>, research: string, reflection: string, finals: set<string>) {
    /** The task everything else waits for; empty when the plan has neither kind. */
    function Root(): string {
      if reflection != "" then reflection else research
    }

    predicate Admits(self: string, dep: string) {
      dep != "" && dep != self && dep in titles && (self in finals || dep !in finals)
    }
  }

  function RolesOf(plan: seq<PlannedTask>): Roles {
    var research, reflection := FirstTitle(plan, ResearchMark), FirstTitle(plan, ReflectionMark);
    var titles := TitleSet(Titles(plan));
    Roles(titles, research, reflection, set t | t in titles && t != research && t != reflection && LastMark(plan, t))
  }

  function AddDep(roles: Roles, self: string, deps: seq<string>, raw: string): seq<string> {
    var dep := Trim(raw);
    if !roles.Admits(self, dep) || dep in deps then deps else deps + [dep]
  }

  function AddAll(roles: Roles, self: string, deps: seq<string>, raws: seq<string>): seq<string>
    decreases |raws|
  {
    if raws == [] then deps else AddAll(roles, self, AddDep(roles, self, deps, raws[0]), raws[1..])
  }

  /** The tasks a final task is made to wait for. */
  function Unmarked(plan: seq<PlannedTask>, self: string): seq<string> {
    if plan == [] then []
    else (if plan[0].title == self || plan[0].finalMark then [] else [plan[0].title]) + Unmarked(plan[1..], self)
  }

  function NormalizedList(plan: seq<PlannedTask>, roles: Roles, task: PlannedTask): seq<string> {
    var self := task.title;
    if self == roles.research then []
    else if self == roles.reflection then
      if roles.research != "" then AddDep(roles, self, [], roles.research) else []
    else
      var own := AddAll(roles, self, [], task.dependsOn);
      var rooted := if roles.Root() != "" then AddDep(roles, self, own, roles.Root()) else own;
      if self in roles.finals then AddAll(roles, self, rooted, Unmarked(plan, self)) else rooted
  }

  function NormalizedLists(plan: seq<PlannedTask>): (r: seq<seq<string>>)
    ensures |r| == |plan|
  {
    seq(|plan|, i requires 0 <= i < |plan| => NormalizedList(plan, RolesOf(plan), plan[i]))
  }

  function WithLists(plan: seq<PlannedTask>, lists: seq<seq<string>>): (r: seq<PlannedTask>)
    requires |lists| == |plan|
    ensures |r| == |plan| && Titles(r) == Titles(plan) && Lists(r) == lists
  {
    seq(|plan|, i requires 0 <= i < |plan| => plan[i].(dependsOn := lists[i]))
  }

  ghost function Normalize(plan: seq<PlannedTask>): seq<PlannedTask> {
    WithLists(plan, Pruned(Titles(plan), NormalizedLists(plan)))
  }

  // ---- the loops --------------------------------------------------------------------

  method FirstTitleMatching(plan: seq<PlannedTask>, mark: Mark) returns (title: string)
    ensures title == FirstTitle(plan, mark)
  {
    for i := 0 to |plan|
      invariant FirstTitle(plan[i..], mark) == FirstTitle(plan, mark)
    {
      if HasMark(plan[i], mark) {
        return plan[i].title;
      }
      assert plan[i..][1..] == plan[i + 1..];
    }
    return "";
  }

  method FindRoles(plan: seq<PlannedTask>) returns (roles: Roles)
    ensures roles == RolesOf(plan)
  {
    var research := FirstTitleMatching(plan, ResearchMark);
    var reflection := FirstTitleMatching(plan, ReflectionMark);
    var titles: set<string> := {};
    var finalByTitle: map<string, bool> := map[];
    for i := 0 to |plan|
      invariant titles == TitleSet(Titles(plan)[..i]) == finalByTitle.Keys
      invariant forall t :: t in finalByTitle ==>
          (finalByTitle[t] <==> t != research && t != reflection && LastMark(plan[..i], t))
    {
      var task := plan[i];
      assert plan[..i + 1][..i] == plan[..i];
      assert Titles(plan)[..i + 1] == Titles(plan)[..i] + [task.title];
      TitleSetOfMore(Titles(plan)[..i], task.title);
      titles := titles + {task.title};
      finalByTitle := finalByTitle[task.title := task.title != research && task.title != reflection && task.finalMark];
    }
    assert plan[..|plan|] == plan && Titles(plan)[..|plan|] == Titles(plan);
    roles := Roles(titles, research, reflection, set t | t in finalByTitle && finalByTitle[t]);
  }

  lemma TitleSetOfMore(titles: seq<string>, t: string)
    ensures TitleSet(titles + [t]) == TitleSet(titles) + {t}
  {
    assert forall i :: 0 <= i < |titles| ==> (titles + [t])[i] == titles[i];
    assert (titles + [t])[|titles|] == t;
  }

  method BuildList(plan: seq<PlannedTask>, roles: Roles, task: PlannedTask) returns (deps: seq<string>)
    ensures deps == NormalizedList(plan, roles, task)
  {
    var self := task.title;
    deps := [];
    if self == roles.research {
    } else if self == roles.reflection {
      if roles.research != "" && roles.research != roles.reflection {
        deps := AddDep(roles, self, deps, roles.research);
      }
    } else {
      for i := 0 to |task.dependsOn|
        invariant AddAll(roles, self, deps, task.dependsOn[i..]) == AddAll(roles, self, [], task.dependsOn)
      {
        assert task.dependsOn[i..][1..] == task.dependsOn[i + 1..];
        deps := AddDep(roles, self, deps, task.dependsOn[i]);
      }
      if roles.reflection != "" {
        deps := AddDep(roles, self, deps, roles.reflection);
      } else if roles.research != "" {
        deps := AddDep(roles, self, deps, roles.research);
      }
      if self in roles.finals {
        ghost var rooted := deps;
        for i := 0 to |plan|
          invariant AddAll(roles, self, deps, Unmarked(plan[i..], self))
              == AddAll(roles, self, rooted, Unmarked(plan, self))
        {
          assert plan[i..][1..] == plan[i + 1..];
          if plan[i].title == self || plan[i].finalMark {
            assert Unmarked(plan[i..], self) == Unmarked(plan[i + 1..], self);
          } else {
            assert Unmarked(plan[i..], self)[1..] == Unmarked(plan[i + 1..], self);
            deps := AddDep(roles, self, deps, plan[i].title);
          }
        }
      }
    }
  }

  /** Each task's new list, in a buffer of its own. */
  method BuildLists(plan: seq<PlannedTask>) returns (buffers: seq<array<string>>)
    ensures |buffers| == |plan| && Distinct(buffers)
    ensures forall i :: 0 <= i < |buffers| ==> fresh(buffers[i]) && buffers[i][..] == NormalizedLists(plan)[i]
  {
    var roles := FindRoles(plan);
    buffers := [];
    for i := 0 to |plan|
      invariant |buffers| == i && Distinct(buffers)
      invariant forall j :: 0 <= j < i ==> fresh(buffers[j]) && buffers[j][..] == NormalizedLists(plan)[j]
    {
      var deps := BuildList(plan, roles, plan[i]);
      var buffer := Copied(deps);
      buffers := buffers + [buffer];
    }
  }

  method Copied(deps: seq<string>) returns (buffer: array<string>)
    ensures fresh(buffer) && buffer[..] == deps
  {
    buffer := new string[|deps|](k requires 0 <= k < |deps| => deps[k]);
  }

  method NormalizeDependencies(plan: seq<PlannedTask>) returns (out: seq<PlannedTask>)
    ensures out == Normalize(plan)
  {
    if |plan| == 0 {
      return plan;
    }
    var buffers := BuildLists(plan);
    ghost var lists := NormalizedLists(plan);
    var lens := PruneCycles(Titles(plan), buffers, lists);
    out := Assembled(plan, buffers, lens, Pruned(Titles(plan), lists));
  }

  method Assembled(plan: seq<PlannedTask>, buffers: seq<array<string>>, lens: seq<nat>, ghost lists: seq<seq<string>>)
      returns (out: seq<PlannedTask>)
    requires |plan| == |buffers| == |lens| == |lists|
    requires forall i :: 0 <= i < |lens| ==> lens[i] <= buffers[i].Length && buffers[i][..lens[i]] == lists[i]
    ensures out == WithLists(plan, lists)
  {
    out := [];
    for i := 0 to |plan|
      invariant |out| == i
      invariant forall j :: 0 <= j < i ==> out[j] == plan[j].(dependsOn := lists[j])
    {
      out := out + [plan[i].(dependsOn := buffers[i][..lens[i]])];
    }
  }
}
