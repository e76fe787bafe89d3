/**
 Which dependencies the pruner leaves out (`pruneDomainDependencyCycles` in
 `internal/runtime/service_planning.go`), exactly: it looks at one after the other, and leaves
 one out when it closes a cycle with what is left of the plan at that moment.
 */
module GreedyPruning {
  import opened Text
  import opened Digraph
  import opened DependencyPruning

  lemma {:induction false} KeptAfterConcat(deps: DepMap, title: string, kept: seq<string>, one: seq<string>,
          two: seq<string>)
    ensures var first := KeptAfter(deps, title, kept, one);
      KeptAfter(deps, title, kept, one + two) == first + KeptAfter(deps, title, kept + first, two)
    decreases |one|
  {
    if one == [] {
      assert one + two == two && kept + [] == kept;
    } else {
      assert (one + two)[1..] == one[1..] + two;
      if DependencyReaches(deps[title := kept], one[0], title) {
        KeptAfterConcat(deps, title, kept, one[1..], two);
      } else {
        var more := KeptAfter(deps, title, kept + [one[0]], one[1..]);
        KeptAfterConcat(deps, title, kept + [one[0]], one[1..], two);
        assert kept + [one[0]] + more == kept + ([one[0]] + more);
        assert [one[0]] + more == KeptAfter(deps, title, kept, one);
      }
    }
  }

  /** Whether an entry is kept depends on the entries before it only. */
  lemma KeptEntry(deps: DepMap, title: string, list: seq<string>, k: nat)
    requires Distinct(list) && k < |list|
    ensures var all, before := KeptAfter(deps, title, [], list), KeptAfter(deps, title, [], list[..k]);
      && (list[k] in all <==> !DependencyReaches(deps[title := before], list[k], title))
      && (forall d :: d in before <==> d in all && d in list[..k])
  {
    var before, rest := KeptAfter(deps, title, [], list[..k]), list[k..];
    var all, after := KeptAfter(deps, title, [], list), KeptAfter(deps, title, before, rest);
    assert list == list[..k] + rest && [] + before == before;
    KeptAfterConcat(deps, title, [], list[..k], rest);
    KeptIsSubsequence(deps, title, [], list[..k]);
    SubsequenceMembers(before, list[..k]);
    KeptIsSubsequence(deps, title, before, rest);
    SubsequenceMembers(after, rest);
    OnlyOnce(list, k);
    NotKeptLater(deps, title, before, rest);
  }

  lemma OnlyOnce(list: seq<string>, k: nat)
    requires Distinct(list) && k < |list|
    ensures list[k] !in list[..k] && list[k] !in list[k..][1..]
    ensures forall d :: d in list[..k] ==> d !in list[k..]
  {
    assert list[k..][1..] == list[k + 1..];
    forall d | d in list[..k] ensures d !in list[k..] {
      var i :| 0 <= i < k && list[..k][i] == d;
      assert forall j :: 0 <= j < |list[k..]| ==> list[k..][j] == list[k + j] != list[i];
    }
  }

  /** The first entry that is still to come is kept now or never. */
  lemma NotKeptLater(deps: DepMap, title: string, kept: seq<string>, rest: seq<string>)
    requires rest != [] && rest[0] !in rest[1..]
    ensures rest[0] in KeptAfter(deps, title, kept, rest) <==>
            !DependencyReaches(deps[title := kept], rest[0], title)
  {
    if DependencyReaches(deps[title := kept], rest[0], title) {
      KeptIsSubsequence(deps, title, kept, rest[1..]);
      SubsequenceMembers(KeptAfter(deps, title, kept, rest[1..]), rest[1..]);
    }
  }

  /** With distinct titles the map holds the pruned lists of the tasks before `n`, and all others as they were. */
  lemma {:induction false} MapHolds(titles: seq<string>, lists: seq<seq<string>>, n: nat, j: nat)
    requires n <= |titles| && j < |titles| && CleanPlan(titles, lists) && Distinct(titles)
    ensures titles[j] in PruneState(titles, lists, n).0
    ensures PruneState(titles, lists, n).0[titles[j]] == if j < n then Pruned(titles, lists)[j] else lists[j]
  {
    if j < n {
      FinalMapHoldsLastList(titles, lists, n, j);
      PruneStatePrefix(titles, lists, n, |titles|);
    } else if n == 0 {
      InitialMapFacts(titles, lists, |titles|);
      assert titles[..|titles|] == titles;
    } else {
      MapHolds(titles, lists, n - 1, j);
      TrimTrimmed(titles[n - 1]);
    }
  }

  lemma {:induction false} MapHoldsOnlyTitles(titles: seq<string>, lists: seq<seq<string>>, n: nat)
    requires n <= |titles| && CleanPlan(titles, lists)
    ensures forall t :: t in PruneState(titles, lists, n).0 ==> t in titles
  {
    if n == 0 {
      InitialMapFacts(titles, lists, |titles|);
      assert titles[..|titles|] == titles;
    } else {
      MapHoldsOnlyTitles(titles, lists, n - 1);
      TrimTrimmed(titles[n - 1]);
    }
  }

  /**
   What is left when the pruner comes to entry `k` of task `i`: what it has kept of the tasks
   before and of this task's earlier entries, and all dependencies of the tasks behind.
   */
  ghost predicate IsLeft(titles: seq<string>, lists: seq<seq<string>>, i: nat, k: nat, j: nat, d: string)
    requires |titles| == |lists| && i < |lists| && k <= |lists[i]| && j < |lists|
  {
    && d in lists[j]
    && (j <= i ==> d in Pruned(titles, lists)[j])
    && (j == i ==> d in lists[i][..k])
  }

  ghost function LeftEdges(titles: seq<string>, lists: seq<seq<string>>, i: nat, k: nat): set<(string, string)>
    requires |titles| == |lists| && i < |lists| && k <= |lists[i]|
  {
    set j, d | 0 <= j < |lists| && d in lists[j] && IsLeft(titles, lists, i, k, j, d) :: (titles[j], d)
  }

  lemma PrunedMembers(titles: seq<string>, lists: seq<seq<string>>, j: nat)
    requires |titles| == |lists| && j < |titles|
    ensures forall d :: d in Pruned(titles, lists)[j] ==> d in lists[j]
  {
    PruningKeepsOrder(titles, lists, |titles|);
    SubsequenceMembers(Pruned(titles, lists)[j], lists[j]);
  }

  lemma HeldIsLeft(titles: seq<string>, lists: seq<seq<string>>, i: nat, k: nat, before: seq<string>, j: nat)
    requires CleanPlan(titles, lists) && Distinct(titles) && i < |titles| && k <= |lists[i]| && j < |titles|
    requires forall d :: d in before <==> d in Pruned(titles, lists)[i] && d in lists[i][..k]
    ensures var deps := PruneState(titles, lists, i).0[titles[i] := before];
      && titles[j] in deps
      && forall d :: d in deps[titles[j]] <==> d in lists[j] && IsLeft(titles, lists, i, k, j, d)
  {
    MapHolds(titles, lists, i, j);
    PrunedMembers(titles, lists, j);
    if j != i {
      assert titles[j] != titles[i];
    }
  }

  /** The map the search sees is what is left. */
  lemma SearchedIsLeft(titles: seq<string>, lists: seq<seq<string>>, i: nat, k: nat, before: seq<string>,
          deps: DepMap)
    requires CleanPlan(titles, lists) && Distinct(titles) && i < |titles| && k <= |lists[i]|
    requires forall d :: d in before <==> d in Pruned(titles, lists)[i] && d in lists[i][..k]
    requires deps == PruneState(titles, lists, i).0[titles[i] := before]
    ensures TitleEdges(deps) == LeftEdges(titles, lists, i, k)
  {
    PruneStateIsSubgraph(titles, lists, i);
    CleanWith(titles, lists, i, before, deps);
    CleanEdges(deps);
    MapHoldsOnlyTitles(titles, lists, i);
    forall j | 0 <= j < |titles|
      ensures titles[j] in deps
      ensures forall d :: d in deps[titles[j]] <==> d in lists[j] && IsLeft(titles, lists, i, k, j, d)
    {
      HeldIsLeft(titles, lists, i, k, before, j);
    }
    SamePlaces(titles, lists, i, k, deps);
  }

  lemma CleanWith(titles: seq<string>, lists: seq<seq<string>>, i: nat, before: seq<string>, deps: DepMap)
    requires CleanPlan(titles, lists) && i < |titles| && CleanMap(PruneState(titles, lists, i).0)
    requires forall d :: d in before ==> d in Pruned(titles, lists)[i]
    requires deps == PruneState(titles, lists, i).0[titles[i] := before]
    ensures CleanMap(deps)
  {
    PrunedMembers(titles, lists, i);
    assert CleanList(lists[i]);
  }

  lemma SamePlaces(titles: seq<string>, lists: seq<seq<string>>, i: nat, k: nat, deps: DepMap)
    requires |titles| == |lists| && i < |titles| && k <= |lists[i]|
    requires forall u, d :: (u, d) in TitleEdges(deps) <==> u in deps && d in deps[u]
    requires forall u :: u in deps ==> u in titles
    requires forall j :: 0 <= j < |titles| ==> titles[j] in deps
    requires forall j, d :: 0 <= j < |titles| ==>
               (d in deps[titles[j]] <==> d in lists[j] && IsLeft(titles, lists, i, k, j, d))
    ensures TitleEdges(deps) == LeftEdges(titles, lists, i, k)
  {
    forall u, d ensures (u, d) in TitleEdges(deps) <==> (u, d) in LeftEdges(titles, lists, i, k) {
      if (u, d) in TitleEdges(deps) {
        var j :| 0 <= j < |titles| && titles[j] == u;
        assert d in deps[titles[j]];
      }
    }
    SamePairs(TitleEdges(deps), LeftEdges(titles, lists, i, k));
  }

  /** An entry is kept exactly when it closes no cycle with what is left when the pruner comes to it. */
  lemma PruningIsGreedy(titles: seq<string>, lists: seq<seq<string>>, i: nat, k: nat)
    requires CleanPlan(titles, lists) && Distinct(titles) && i < |titles| && k < |lists[i]| && Distinct(lists[i])
    ensures lists[i][k] in Pruned(titles, lists)[i] <==>
            !Reaches(LeftEdges(titles, lists, i, k), lists[i][k], titles[i])
  {
    var deps, d := PruneState(titles, lists, i).0, lists[i][k];
    var before := KeptAfter(deps, titles[i], [], lists[i][..k]);
    PrunedListIs(titles, lists, i);
    KeptEntry(deps, titles[i], lists[i], k);
    SearchedIsLeft(titles, lists, i, k, before, deps[titles[i] := before]);
    CleanReaches(deps[titles[i] := before], d, titles[i]);
  }
}
