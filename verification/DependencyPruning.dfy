/**
 The cycle pruner of a plan (`pruneCyclicDependencies`, `pruneDomainDependencyCycles`):
 a depth-first search over the dependency map, and a pass that filters each task's
 dependency list in place while that map changes.
 */
module DependencyPruning {
  import opened Text
  import opened Digraph

  type DepMap = map<string, seq<string>>

  /** A title a stored task can have: the planner trims titles and refuses blank ones. */
  predicate CleanTitle(t: string) {
    t != "" && Trimmed(t)
  }

  predicate CleanList(list: seq<string>) {
    forall d :: d in list ==> CleanTitle(d)
  }

  predicate Distinct<T(==)>(s: seq<T>) {
    forall i, j :: 0 <= i < j < |s| ==> s[i] != s[j]
  }

  /** The edges the search follows: a listed dependency, trimmed, unless blank. */
  function TitleEdges(deps: DepMap): set<(string, string)> {
    set u, d | u in deps && d in deps[u] && Trim(d) != "" :: (u, Trim(d))
  }

  ghost predicate DependencyReaches(deps: DepMap, from: string, target: string) {
    Trim(from) != "" && Trim(target) != "" && Reaches(TitleEdges(deps), Trim(from), Trim(target))
  }

  // ---- the search --------------------------------------------------------------

  /** One depth-first search: `seen` is the map all its recursive calls share. */
  class DependencySearch {
    const depsByTitle: DepMap
    var seen: set<string>

    constructor (depsByTitle: DepMap)
      ensures this.depsByTitle == depsByTitle && seen == {}
    {
      this.depsByTitle := depsByTitle;
      seen := {};
    }

    /** `open` holds the titles whose lists are being walked; every other seen title is finished. */
    method ReachesDependency(from: string, target: string, ghost universe: set<string>, ghost open: set<string>)
        returns (found: bool)
      requires Trim(from) == "" || Trim(from) in universe
      requires HeadsIn(TitleEdges(depsByTitle), universe, {}, universe)
      requires Trim(target) !in seen && HeadsIn(TitleEdges(depsByTitle), seen, open, seen)
      modifies this
      ensures old(seen) <= seen
      ensures found ==> DependencyReaches(depsByTitle, from, target)
      ensures !found ==> Trim(target) !in seen && HeadsIn(TitleEdges(depsByTitle), seen, open, seen)
      ensures !found && Trim(from) != "" && Trim(target) != "" ==> Trim(from) in seen
      decreases |universe - seen|, 1
    {
      var source, goal := Trim(from), Trim(target);
      if source == "" || goal == "" {
        return false;
      }
      if source == goal {
        ReachesSelf(TitleEdges(depsByTitle), source);
        return true;
      }
      if source in seen {
        return false;
      }
      TrimIdempotent(target);
      found := ReachesFromList(source, goal, universe, open);
    }

    /** The loop over the dependency list of an unseen title. */
    method ReachesFromList(source: string, goal: string, ghost universe: set<string>, ghost open: set<string>)
        returns (found: bool)
      requires source in universe && source !in seen && source != goal
      requires goal != "" && Trim(goal) == goal
      requires HeadsIn(TitleEdges(depsByTitle), universe, {}, universe)
      requires goal !in seen && HeadsIn(TitleEdges(depsByTitle), seen, open, seen)
      modifies this
      ensures old(seen) + {source} <= seen
      ensures found ==> Reaches(TitleEdges(depsByTitle), source, goal)
      ensures !found ==> goal !in seen && HeadsIn(TitleEdges(depsByTitle), seen, open, seen)
      decreases |universe - seen|, 0
    {
      ghost var edges, room := TitleEdges(depsByTitle), |universe - seen|;
      SubsetIsSmaller(universe - (seen + {source}), universe - seen, source);
      seen := seen + {source};
      var nexts := if source in depsByTitle then depsByTitle[source] else [];
      ListedEdges(depsByTitle, source, nexts);
      for i := 0 to |nexts|
        invariant old(seen) + {source} <= seen
        invariant |universe - seen| < room
        invariant goal !in seen && HeadsIn(edges, seen, open + {source}, seen)
        invariant ListedIn(nexts[..i], seen)
      {
        ghost var visited := seen;
        assert nexts[i] in nexts;
        assert Trim(nexts[i]) != "" ==> (source, Trim(nexts[i])) in edges;
        found := ReachesDependency(nexts[i], goal, universe, open + {source});
        if found {
          ReachesByEdge(edges, source, Trim(nexts[i]), goal);
          return;
        }
        SubsetIsNoLarger(universe - seen, universe - visited);
        ListedInExtends(nexts, i, visited, seen);
      }
      assert nexts[..|nexts|] == nexts;
      return false;
    }
  }

  /** Every non-blank entry of a list is in the set, trimmed. */
  ghost predicate ListedIn(list: seq<string>, titles: set<string>) {
    forall d :: d in list && Trim(d) != "" ==> Trim(d) in titles
  }

  lemma ListedInExtends(list: seq<string>, i: nat, fewer: set<string>, more: set<string>)
    requires i < |list| && fewer <= more && ListedIn(list[..i], fewer)
    requires Trim(list[i]) != "" ==> Trim(list[i]) in more
    ensures ListedIn(list[..i + 1], more)
  {
    assert list[..i + 1] == list[..i] + [list[i]];
  }

  /** Every edge that leaves `tails`, other than from `open`, ends in `heads`. */
  ghost predicate HeadsIn(edges: set<(string, string)>, tails: set<string>, open: set<string>, heads: set<string>) {
    forall u, v :: (u, v) in edges && u in tails && u !in open ==> v in heads
  }

  lemma ListedEdges(deps: DepMap, source: string, nexts: seq<string>)
    requires nexts == if source in deps then deps[source] else []
    ensures forall d :: d in nexts && Trim(d) != "" ==> (source, Trim(d)) in TitleEdges(deps)
    ensures forall heads :: ListedIn(nexts, heads) ==> HeadsIn(TitleEdges(deps), {source}, {}, heads)
  {
  }

  lemma SubsetIsNoLarger<T>(small: set<T>, large: set<T>)
    requires small <= large
    ensures |small| <= |large|
  {
    assert large == (large - small) + small;
  }

  /** The search answers true exactly when a path exists, in any graph, cyclic or not. */
  method ReachesDependency(deps: DepMap, from: string, target: string) returns (found: bool)
    ensures found <==> DependencyReaches(deps, from, target)
  {
    var search := new DependencySearch(deps);
    ghost var universe := {Trim(from)} + set e | e in TitleEdges(deps) :: e.1;
    forall u, v | (u, v) in TitleEdges(deps) ensures v in universe {
      assert (u, v).1 == v;
    }
    found := search.ReachesDependency(from, target, universe, {});
    if !found && DependencyReaches(deps, from, target) {
      ClosedSetKeepsWalk(TitleEdges(deps), search.seen, Trim(from), Trim(target));
    }
  }

  // ---- what pruning computes ---------------------------------------------------

  /** The part of `rest` that is kept for `title` once `kept` has been. */
  ghost function KeptAfter(deps: DepMap, title: string, kept: seq<string>, rest: seq<string>): seq<string>
    decreases |rest|
  {
    if rest == [] then []
    else if DependencyReaches(deps[title := kept], rest[0], title) then KeptAfter(deps, title, kept, rest[1..])
    else [rest[0]] + KeptAfter(deps, title, kept + [rest[0]], rest[1..])
  }

  /** The map before pruning: a later task with the same title overwrites an earlier one. */
  function InitialMap(titles: seq<string>, lists: seq<seq<string>>, n: nat): DepMap
    requires n <= |titles| == |lists|
  {
    if n == 0 then map[] else InitialMap(titles, lists, n - 1)[titles[n - 1] := lists[n - 1]]
  }

  /** The map and the finished lists after the first `n` tasks. */
  ghost function PruneState(titles: seq<string>, lists: seq<seq<string>>, n: nat): (r: (DepMap, seq<seq<string>>))
    requires n <= |titles| == |lists|
    ensures |r.1| == n
  {
    if n == 0 then (InitialMap(titles, lists, |titles|), [])
    else
      var (deps, done) := PruneState(titles, lists, n - 1);
      var title := Trim(titles[n - 1]);
      var kept := KeptAfter(deps, title, [], lists[n - 1]);
      (deps[title := kept], done + [kept])
  }

  ghost function FinalMap(titles: seq<string>, lists: seq<seq<string>>): DepMap
    requires |titles| == |lists|
  {
    PruneState(titles, lists, |titles|).0
  }

  ghost function Pruned(titles: seq<string>, lists: seq<seq<string>>): (r: seq<seq<string>>)
    requires |titles| == |lists|
    ensures |r| == |titles|
  {
    PruneState(titles, lists, |titles|).1
  }

  lemma {:induction false} PruneStatePrefix(titles: seq<string>, lists: seq<seq<string>>, m: nat, n: nat)
    requires m <= n <= |titles| == |lists|
    ensures PruneState(titles, lists, m).1 == PruneState(titles, lists, n).1[..m]
  {
    if m < n {
      PruneStatePrefix(titles, lists, m, n - 1);
    }
  }

  // ---- pruning in place --------------------------------------------------------

  /**
   Filters each buffer in place and returns how much of it is kept. The map entry of the
   task at hand is renewed right before every search and the buffer is written only after
   it, so the search always sees the prefix the entry denotes.
   */
  method PruneCycles(titles: seq<string>, buffers: seq<array<string>>, ghost lists: seq<seq<string>>)
      returns (lens: seq<nat>)
    requires |titles| == |buffers| == |lists|
    requires Distinct(buffers)
    requires forall i :: 0 <= i < |buffers| ==> buffers[i][..] == lists[i]
    modifies buffers
    ensures |lens| == |titles|
    ensures forall i :: 0 <= i < |lens| ==>
        lens[i] <= buffers[i].Length && buffers[i][..lens[i]] == Pruned(titles, lists)[i]
  {
    var deps := MapOfPlan(titles, buffers, lists);
    lens := [];
    for i := 0 to |titles|
      invariant |lens| == i
      invariant forall j :: i <= j < |buffers| ==> buffers[j][..] == lists[j]
      invariant deps == PruneState(titles, lists, i).0
      invariant forall j :: 0 <= j < i ==>
                  lens[j] <= buffers[j].Length && buffers[j][..lens[j]] == PruneState(titles, lists, i).1[j]
    {
      ghost var others := buffers[..i] + buffers[i + 1..];
      assert forall b :: b in others ==> b != buffers[i];
      assert buffers[i][..] == lists[i];
      var kept: nat;
      deps, kept := PruneOne(deps, Trim(titles[i]), buffers[i], lists[i]);
      lens := lens + [kept];
    }
  }

  method MapOfPlan(titles: seq<string>, buffers: seq<array<string>>, ghost lists: seq<seq<string>>)
      returns (deps: DepMap)
    requires |titles| == |buffers| == |lists|
    requires forall i :: 0 <= i < |buffers| ==> buffers[i][..] == lists[i]
    ensures deps == InitialMap(titles, lists, |titles|)
  {
    deps := map[];
    for i := 0 to |titles|
      invariant deps == InitialMap(titles, lists, i)
    {
      deps := deps[titles[i] := buffers[i][..]];
    }
  }

  method PruneOne(deps0: DepMap, title: string, buffer: array<string>, ghost list: seq<string>)
      returns (deps: DepMap, kept: nat)
    requires buffer[..] == list
    modifies buffer
    ensures kept <= buffer.Length && buffer[..kept] == KeptAfter(deps0, title, [], list)
    ensures deps == deps0[title := buffer[..kept]]
  {
    deps, kept := deps0, 0;
    assert [] + KeptAfter(deps0, title, [], list) == KeptAfter(deps0, title, [], list) && list[0..] == list;
    ghost var entry: seq<string> := [];
    for i := 0 to buffer.Length
      invariant kept <= i
      invariant buffer[i..] == list[i..]
      invariant deps == deps0 || deps == deps0[title := entry]
      invariant OnTrack(deps0, title, buffer[..kept], list[i..], list)
    {
      ghost var before := buffer[..kept];
      KeepingStep(deps0, title, before, list[i..], list);
      var cyclic;
      deps, cyclic := IsCyclic(deps, title, buffer[..kept], buffer[i]);
      entry := before;
      assert deps == deps0[title := entry];
      assert list[i..][0] == buffer[i..][0] && list[i..][1..] == list[i + 1..] == buffer[i + 1..];
      if !cyclic {
        buffer[kept] := buffer[i];
        kept := kept + 1;
        assert buffer[..kept] == before + [list[i..][0]];
      }
      assert buffer[i + 1..] == list[i + 1..];
    }
    deps := deps[title := buffer[..kept]];
    KeepingEnds(deps0, title, buffer[..kept], list);
  }

  /** Renews the task's entry and asks whether the dependency leads back to the task. */
  method IsCyclic(deps0: DepMap, title: string, kept: seq<string>, dep: string) returns (deps: DepMap, cyclic: bool)
    ensures deps == deps0[title := kept]
    ensures cyclic <==> DependencyReaches(deps0[title := kept], dep, title)
  {
    deps := deps0[title := kept];
    cyclic := ReachesDependency(deps, dep, title);
  }

  /** What was kept so far, and what will be kept of the rest, is what is kept of the whole list. */
  ghost predicate OnTrack(deps: DepMap, title: string, kept: seq<string>, rest: seq<string>, list: seq<string>) {
    kept + KeptAfter(deps, title, kept, rest) == KeptAfter(deps, title, [], list)
  }

  lemma KeepingStep(deps: DepMap, title: string, kept: seq<string>, rest: seq<string>, list: seq<string>)
    requires rest != [] && OnTrack(deps, title, kept, rest, list)
    ensures var cyclic := DependencyReaches(deps[title := kept], rest[0], title);
      OnTrack(deps, title, if cyclic then kept else kept + [rest[0]], rest[1..], list)
  {
    var more := KeptAfter(deps, title, kept + [rest[0]], rest[1..]);
    assert kept + ([rest[0]] + more) == (kept + [rest[0]]) + more;
  }

  lemma KeepingEnds(deps: DepMap, title: string, kept: seq<string>, list: seq<string>)
    requires OnTrack(deps, title, kept, list[|list|..], list)
    ensures kept == KeptAfter(deps, title, [], list)
  {
    assert kept + [] == kept;
  }

  // ---- what pruning guarantees --------------------------------------------------

  predicate CleanPlan(titles: seq<string>, lists: seq<seq<string>>) {
    && |titles| == |lists|
    && (forall i :: 0 <= i < |titles| ==> CleanTitle(titles[i]))
    && (forall i :: 0 <= i < |lists| ==> CleanList(lists[i]))
  }

  ghost predicate CleanMap(deps: DepMap) {
    forall t :: t in deps ==> CleanList(deps[t])
  }

  /** With clean lists an edge of the map is just a listed dependency. */
  lemma CleanEdges(deps: DepMap)
    requires CleanMap(deps)
    ensures forall u, d :: (u, d) in TitleEdges(deps) <==> u in deps && d in deps[u]
  {
    forall u, d | u in deps && d in deps[u] ensures Trim(d) == d && (u, d) in TitleEdges(deps) {
      TrimTrimmed(d);
    }
  }

  /** `xs` is `ys` with some entries left out. */
  ghost predicate Subsequence<T>(xs: seq<T>, ys: seq<T>) {
    xs == [] || (ys != [] && ((xs[0] == ys[0] && Subsequence(xs[1..], ys[1..])) || Subsequence(xs, ys[1..])))
  }

  lemma {:induction false} SubsequenceMembers<T>(xs: seq<T>, ys: seq<T>)
    requires Subsequence(xs, ys)
    ensures forall x :: x in xs ==> x in ys
  {
    if xs != [] {
      assert ys == [ys[0]] + ys[1..];
      assert xs == [xs[0]] + xs[1..];
      if xs[0] == ys[0] && Subsequence(xs[1..], ys[1..]) {
        SubsequenceMembers(xs[1..], ys[1..]);
      } else {
        SubsequenceMembers(xs, ys[1..]);
      }
    }
  }

  lemma {:induction false} KeptIsSubsequence(deps: DepMap, title: string, kept: seq<string>, rest: seq<string>)
    ensures Subsequence(KeptAfter(deps, title, kept, rest), rest)
    decreases |rest|
  {
    if rest != [] {
      if DependencyReaches(deps[title := kept], rest[0], title) {
        KeptIsSubsequence(deps, title, kept, rest[1..]);
      } else {
        KeptIsSubsequence(deps, title, kept + [rest[0]], rest[1..]);
      }
    }
  }

  lemma CleanReaches(deps: DepMap, from: string, target: string)
    requires CleanTitle(from) && CleanTitle(target)
    ensures DependencyReaches(deps, from, target) <==> Reaches(TitleEdges(deps), from, target)
  {
    TrimTrimmed(from);
    TrimTrimmed(target);
  }

  lemma KeepingOneMore(deps: DepMap, title: string, kept: seq<string>, d: string)
    requires CleanMap(deps) && CleanList(kept) && CleanTitle(d)
    ensures TitleEdges(deps[title := kept + [d]]) == TitleEdges(deps[title := kept]) + {(title, d)}
  {
    var now, grown := deps[title := kept], deps[title := kept + [d]];
    assert CleanList(kept + [d]);
    CleanEdges(now);
    CleanEdges(grown);
    OneMorePair(deps, title, kept, d, TitleEdges(now), TitleEdges(grown));
  }

  lemma OneMorePair(deps: DepMap, title: string, kept: seq<string>, d: string, now: set<(string, string)>,
          grown: set<(string, string)>)
    requires forall u, x :: (u, x) in now <==> u in deps[title := kept] && x in deps[title := kept][u]
    requires forall u, x :: (u, x) in grown <==> u in deps[title := kept + [d]] && x in deps[title := kept + [d]][u]
    ensures grown == now + {(title, d)}
  {
    forall u, x ensures (u, x) in grown <==> (u, x) in now + {(title, d)} {
    }
    SamePairs(grown, now + {(title, d)});
  }

  lemma SamePairs<S(!new), T(!new)>(one: set<(S, T)>, two: set<(S, T)>)
    requires forall u, x :: (u, x) in one <==> (u, x) in two
    ensures one == two
  {
    forall e | e in one ensures e in two {
      assert (e.0, e.1) in one;
    }
    forall e | e in two ensures e in one {
      assert (e.0, e.1) in two;
    }
  }

  lemma EmptyingOne(deps: DepMap, title: string)
    requires CleanMap(deps)
    ensures TitleEdges(deps[title := []]) <= TitleEdges(deps)
    ensures NoCycleThrough(TitleEdges(deps[title := []]), title)
  {
    CleanEdges(deps);
    CleanEdges(deps[title := []]);
  }

  ghost predicate NoneOnCycle(edges: set<(string, string)>, safe: set<string>) {
    forall p :: p in safe ==> NoCycleThrough(edges, p)
  }

  /** Filtering one list leaves every title that is on no cycle so, its own included. */
  lemma {:induction false} KeepingAddsNoCycle(deps: DepMap, title: string, kept: seq<string>, rest: seq<string>,
          safe: set<string>)
    requires CleanMap(deps) && CleanTitle(title) && CleanList(kept) && CleanList(rest)
    requires NoneOnCycle(TitleEdges(deps[title := kept]), safe)
    ensures NoneOnCycle(TitleEdges(deps[title := kept + KeptAfter(deps, title, kept, rest)]), safe)
    decreases |rest|
  {
    if rest == [] {
      assert kept + KeptAfter(deps, title, kept, rest) == kept;
    } else {
      var d := rest[0];
      assert d in rest && CleanList(rest[1..]);
      if DependencyReaches(deps[title := kept], d, title) {
        KeepingAddsNoCycle(deps, title, kept, rest[1..], safe);
      } else {
        CleanReaches(deps[title := kept], d, title);
        KeepingOneMore(deps, title, kept, d);
        forall p | p in safe ensures NoCycleThrough(TitleEdges(deps[title := kept + [d]]), p) {
          SafeEdgeAddsNoCycle(TitleEdges(deps[title := kept]), title, d, p);
        }
        KeepingAddsNoCycle(deps, title, kept + [d], rest[1..], safe);
        assert kept + KeptAfter(deps, title, kept, rest) == kept + [d] + KeptAfter(deps, title, kept + [d], rest[1..]);
      }
    }
  }

  lemma {:induction false} InitialMapFacts(titles: seq<string>, lists: seq<seq<string>>, n: nat)
    requires n <= |titles| && CleanPlan(titles, lists)
    ensures CleanMap(InitialMap(titles, lists, n))
    ensures forall t :: t in InitialMap(titles, lists, n) <==> t in titles[..n]
    ensures Distinct(titles) ==> forall j :: 0 <= j < n ==> InitialMap(titles, lists, n)[titles[j]] == lists[j]
  {
    if n > 0 {
      InitialMapFacts(titles, lists, n - 1);
      assert titles[..n] == titles[..n - 1] + [titles[n - 1]];
    }
  }

  lemma KeptIsClean(deps: DepMap, title: string, list: seq<string>)
    requires CleanList(list)
    ensures CleanList(KeptAfter(deps, title, [], list))
  {
    KeptIsSubsequence(deps, title, [], list);
    SubsequenceMembers(KeptAfter(deps, title, [], list), list);
  }

  function TitleSet(titles: seq<string>): set<string> {
    set i | 0 <= i < |titles| :: titles[i]
  }

  ghost predicate ProcessedSafe(titles: seq<string>, deps: DepMap, n: nat)
    requires n <= |titles|
  {
    && CleanMap(deps)
    && (forall t :: t in deps <==> t in titles)
    && NoneOnCycle(TitleEdges(deps), TitleSet(titles[..n]))
  }

  /** Handling one task keeps the titles handled before off every cycle and adds its own. */
  lemma OneTaskKeepsSafe(titles: seq<string>, deps: DepMap, n: nat, list: seq<string>)
    requires n < |titles| && CleanTitle(titles[n]) && CleanList(list)
    requires ProcessedSafe(titles, deps, n)
    ensures ProcessedSafe(titles, deps[titles[n] := KeptAfter(deps, titles[n], [], list)], n + 1)
  {
    var title := titles[n];
    var emptied := TitleEdges(deps[title := []]);
    EmptyingOne(deps, title);
    assert titles[..n + 1] == titles[..n] + [title];
    var safe := TitleSet(titles[..n + 1]);
    forall p | p in safe ensures NoCycleThrough(emptied, p) {
      if p != title {
        assert p in TitleSet(titles[..n]);
        NoCycleMonotone(emptied, TitleEdges(deps), p);
      }
    }
    KeepingAddsNoCycle(deps, title, [], list, safe);
    KeptIsClean(deps, title, list);
    assert [] + KeptAfter(deps, title, [], list) == KeptAfter(deps, title, [], list);
  }

  /** After `n` tasks no cycle of the changing map passes through any of their titles. */
  lemma {:induction false} ProcessedTitlesAreSafe(titles: seq<string>, lists: seq<seq<string>>, n: nat)
    requires n <= |titles| && CleanPlan(titles, lists)
    ensures ProcessedSafe(titles, PruneState(titles, lists, n).0, n)
  {
    if n == 0 {
      InitialMapFacts(titles, lists, |titles|);
      assert titles[..|titles|] == titles;
    } else {
      ProcessedTitlesAreSafe(titles, lists, n - 1);
      TrimTrimmed(titles[n - 1]);
      OneTaskKeepsSafe(titles, PruneState(titles, lists, n - 1).0, n - 1, lists[n - 1]);
    }
  }

  /** The map pruning ends with is acyclic for every plan, repeated titles included. */
  lemma PrunedMapIsAcyclic(titles: seq<string>, lists: seq<seq<string>>)
    requires CleanPlan(titles, lists)
    ensures Acyclic(TitleEdges(FinalMap(titles, lists)))
  {
    ProcessedTitlesAreSafe(titles, lists, |titles|);
    var deps := FinalMap(titles, lists);
    forall u, v | (u, v) in TitleEdges(deps) ensures !Reaches(TitleEdges(deps), v, u) {
      CleanEdges(deps);
      assert titles[..|titles|] == titles;
      assert u in TitleSet(titles[..|titles|]);
    }
  }

  /** The final map holds, for each title, the pruned list of the last task that has it. */
  lemma {:induction false} FinalMapHoldsLastList(titles: seq<string>, lists: seq<seq<string>>, n: nat, j: nat)
    requires j < n <= |titles| && CleanPlan(titles, lists)
    requires forall k :: j < k < n ==> titles[k] != titles[j]
    ensures titles[j] in PruneState(titles, lists, n).0
    ensures PruneState(titles, lists, n).0[titles[j]] == PruneState(titles, lists, n).1[j]
  {
    TrimTrimmed(titles[n - 1]);
    if j < n - 1 {
      FinalMapHoldsLastList(titles, lists, n - 1, j);
    }
  }

  /** Whatever the plan, pruning only leaves entries out. */
  lemma {:induction false} PruningKeepsOrder(titles: seq<string>, lists: seq<seq<string>>, n: nat)
    requires n <= |titles| == |lists|
    ensures forall j :: 0 <= j < n ==> Subsequence(PruneState(titles, lists, n).1[j], lists[j])
  {
    if n > 0 {
      PruningKeepsOrder(titles, lists, n - 1);
      KeptIsSubsequence(PruneState(titles, lists, n - 1).0, Trim(titles[n - 1]), [], lists[n - 1]);
    }
  }

  // ---- plans without repeated titles ---------------------------------------------

  /** The dependency graph of a plan whose titles are distinct. */
  function PlanEdges(titles: seq<string>, lists: seq<seq<string>>): set<(string, string)>
    requires |titles| == |lists|
  {
    set i, d | 0 <= i < |titles| && d in lists[i] :: (titles[i], d)
  }

  /** Only dependencies that lead back to the task are dropped, and the rest keep their order. */
  lemma {:induction false} KeptAgainst(deps: DepMap, title: string, kept: seq<string>, rest: seq<string>,
          full: set<(string, string)>)
    requires CleanMap(deps) && CleanTitle(title) && CleanList(kept) && CleanList(rest)
    requires forall u, d :: u != title && u in deps && d in deps[u] ==> (u, d) in full
    requires forall d :: d in kept || d in rest ==> (title, d) in full
    ensures forall d :: d in rest && d !in KeptAfter(deps, title, kept, rest) ==> Reaches(full, d, title)
    ensures (forall d :: d in rest ==> !Reaches(full, d, title)) ==> KeptAfter(deps, title, kept, rest) == rest
    decreases |rest|
  {
    if rest != [] {
      var now := deps[title := kept];
      assert rest[0] in rest;
      if DependencyReaches(now, rest[0], title) {
        CleanEdges(now);
        TrimTrimmed(rest[0]);
        TrimTrimmed(title);
        assert TitleEdges(now) <= full by {
          forall e | e in TitleEdges(now) ensures e in full {
            assert (e.0, e.1) in TitleEdges(now);
          }
        }
        ReachesMonotone(TitleEdges(now), full, rest[0], title);
        KeptAgainst(deps, title, kept, rest[1..], full);
      } else {
        KeptAgainst(deps, title, kept + [rest[0]], rest[1..], full);
      }
    }
  }

  lemma InitialMapIsSubgraph(titles: seq<string>, lists: seq<seq<string>>)
    requires CleanPlan(titles, lists) && Distinct(titles)
    ensures MapIn(InitialMap(titles, lists, |titles|), PlanEdges(titles, lists))
  {
    InitialMapFacts(titles, lists, |titles|);
    var deps := InitialMap(titles, lists, |titles|);
    assert titles[..|titles|] == titles;
    forall u, d | u in deps && d in deps[u] ensures (u, d) in PlanEdges(titles, lists) {
      var j :| 0 <= j < |titles| && titles[j] == u;
      assert d in lists[j];
    }
  }

  ghost predicate MapIn(deps: DepMap, edges: set<(string, string)>) {
    CleanMap(deps) && forall u, d :: u in deps && d in deps[u] ==> (u, d) in edges
  }

  /** With distinct titles the changing map only ever holds edges of the plan. */
  lemma {:induction false} PruneStateIsSubgraph(titles: seq<string>, lists: seq<seq<string>>, n: nat)
    requires n <= |titles| && CleanPlan(titles, lists) && Distinct(titles)
    ensures MapIn(PruneState(titles, lists, n).0, PlanEdges(titles, lists))
  {
    if n == 0 {
      InitialMapIsSubgraph(titles, lists);
    } else {
      PruneStateIsSubgraph(titles, lists, n - 1);
      var deps, title, list := PruneState(titles, lists, n - 1).0, titles[n - 1], lists[n - 1];
      TrimTrimmed(title);
      KeptIsSubsequence(deps, title, [], list);
      KeptIsClean(deps, title, list);
      SubsequenceMembers(KeptAfter(deps, title, [], list), list);
      forall d | d in KeptAfter(deps, title, [], list) ensures (title, d) in PlanEdges(titles, lists) {
        PlanEdgeOf(titles, lists, n - 1, d);
      }
    }
  }

  /** What pruning makes of one list of a plan with distinct titles. */
  lemma PrunedAgainstPlan(titles: seq<string>, lists: seq<seq<string>>, i: nat)
    requires CleanPlan(titles, lists) && Distinct(titles) && i < |titles|
    ensures forall d :: d in lists[i] && d !in Pruned(titles, lists)[i] ==>
        Reaches(PlanEdges(titles, lists), d, titles[i])
    ensures (forall d :: d in lists[i] ==> !Reaches(PlanEdges(titles, lists), d, titles[i])) ==>
              Pruned(titles, lists)[i] == lists[i]
  {
    PrunedListIs(titles, lists, i);
    PruneStateIsSubgraph(titles, lists, i);
    forall d | d in lists[i] ensures (titles[i], d) in PlanEdges(titles, lists) {
      PlanEdgeOf(titles, lists, i, d);
    }
    KeptAgainst(PruneState(titles, lists, i).0, titles[i], [], lists[i], PlanEdges(titles, lists));
  }

  lemma PlanEdgeOf(titles: seq<string>, lists: seq<seq<string>>, i: nat, d: string)
    requires |titles| == |lists| && i < |titles| && d in lists[i]
    ensures (titles[i], d) in PlanEdges(titles, lists)
  {
  }

  lemma PrunedListIs(titles: seq<string>, lists: seq<seq<string>>, i: nat)
    requires CleanPlan(titles, lists) && i < |titles|
    ensures Pruned(titles, lists)[i] == KeptAfter(PruneState(titles, lists, i).0, titles[i], [], lists[i])
  {
    PruneStatePrefix(titles, lists, i + 1, |titles|);
    NextState(titles, lists, i);
    TrimTrimmed(titles[i]);
    assert Pruned(titles, lists)[i] == Pruned(titles, lists)[..i + 1][i];
  }

  lemma NextState(titles: seq<string>, lists: seq<seq<string>>, i: nat)
    requires i < |titles| == |lists|
    ensures PruneState(titles, lists, i + 1).1[i]
        == KeptAfter(PruneState(titles, lists, i).0, Trim(titles[i]), [], lists[i])
  {
  }

  /** The edges that are left are edges of the acyclic map pruning ends with. */
  lemma PrunedPlanIsAcyclic(titles: seq<string>, lists: seq<seq<string>>)
    requires CleanPlan(titles, lists) && Distinct(titles)
    ensures Acyclic(PlanEdges(titles, Pruned(titles, lists)))
  {
    PrunedMapIsAcyclic(titles, lists);
    ProcessedTitlesAreSafe(titles, lists, |titles|);
    var deps, out := FinalMap(titles, lists), Pruned(titles, lists);
    CleanEdges(deps);
    forall e | e in PlanEdges(titles, out) ensures e in TitleEdges(deps) {
      var j, d :| 0 <= j < |titles| && d in out[j] && e == (titles[j], d);
      FinalMapHoldsLastList(titles, lists, |titles|, j);
    }
    AcyclicMonotone(PlanEdges(titles, out), TitleEdges(deps));
  }

  /**
   Pruning a plan with distinct titles keeps the order of every list, drops only
   dependencies that close a cycle of the plan, and leaves no cycle.
   */
  lemma PruningDropsOnlyCycleEdges(titles: seq<string>, lists: seq<seq<string>>, i: nat)
    requires CleanPlan(titles, lists) && Distinct(titles) && i < |titles|
    ensures Subsequence(Pruned(titles, lists)[i], lists[i])
    ensures forall d :: d in lists[i] && d !in Pruned(titles, lists)[i] ==>
        Reaches(PlanEdges(titles, lists), d, titles[i])
    ensures Acyclic(PlanEdges(titles, Pruned(titles, lists)))
  {
    PruningKeepsOrder(titles, lists, |titles|);
    PrunedAgainstPlan(titles, lists, i);
    PrunedPlanIsAcyclic(titles, lists);
  }

  /** An acyclic plan is left exactly as it is; so what is changed had a cycle. */
  lemma PruningKeepsAcyclicPlans(titles: seq<string>, lists: seq<seq<string>>)
    requires CleanPlan(titles, lists) && Distinct(titles)
    ensures Acyclic(PlanEdges(titles, lists)) <==> Pruned(titles, lists) == lists
  {
    if Acyclic(PlanEdges(titles, lists)) {
      forall j | 0 <= j < |titles| ensures Pruned(titles, lists)[j] == lists[j] {
        PrunedAgainstPlan(titles, lists, j);
        forall d | d in lists[j] ensures (titles[j], d) in PlanEdges(titles, lists) {
          PlanEdgeOf(titles, lists, j, d);
        }
      }
    }
    PrunedPlanIsAcyclic(titles, lists);
  }
}
