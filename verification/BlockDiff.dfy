/** Which blocks of a context changed (`internal/contextbuilder/cache.go`). */
module BlockDiff {
  import opened Orderings

  datatype BlockInvalidation = BlockInvalidation(layer: string, block: string, previousKey: string, currentKey: string)

  /** A missing key reads as the empty string. */
  function KeyOf(keys: map<string, string>, name: string): string {
    if name in keys then keys[name] else ""
  }

  predicate Changed(previous: map<string, string>, current: map<string, string>, name: string) {
    KeyOf(previous, name) != KeyOf(current, name)
  }

  function Entry(layer: string, previous: map<string, string>, current: map<string, string>,
          name: string): BlockInvalidation {
    BlockInvalidation(layer, name, KeyOf(previous, name), KeyOf(current, name))
  }

  predicate Before(x: BlockInvalidation, y: BlockInvalidation) {
    StringOrder()(x.layer, y.layer) || (x.layer == y.layer && StringOrder()(x.block, y.block))
  }

  lemma BeforeIsTransitive(x: BlockInvalidation, y: BlockInvalidation, z: BlockInvalidation)
    requires Before(y, x) && !Before(z, x)
    ensures !Before(z, y)
  {
    StringsAreOrdered();
  }

  lemma BeforeIsAsymmetric(x: BlockInvalidation, y: BlockInvalidation)
    requires Before(y, x)
    ensures !Before(x, y)
  {
    StringsAreOrdered();
    assert x.layer == y.layer || StringOrder()(x.layer, y.layer) || StringOrder()(y.layer, x.layer);
  }

  // ---- exchange sort ---------------------------------------------------------------------

  /** The first `i` places are final: nothing behind one of them belongs before it. */
  predicate FinalUpTo(values: seq<BlockInvalidation>, i: nat) {
    forall p, q :: 0 <= p < i && p < q < |values| ==> !Before(values[q], values[p])
  }

  /** Nothing in places `i + 1` to `j - 1` belongs before place `i`. */
  predicate Smallest(values: seq<BlockInvalidation>, i: nat, j: nat)
    requires i < j <= |values|
  {
    forall q :: i < q < j ==> !Before(values[q], values[i])
  }

  lemma Exchanged(values: seq<BlockInvalidation>, i: nat, j: nat)
    requires i < j < |values| && FinalUpTo(values, i) && Smallest(values, i, j) && Before(values[j], values[i])
    ensures var swapped := values[i := values[j]][j := values[i]];
      FinalUpTo(swapped, i) && Smallest(swapped, i, j + 1) && multiset(swapped) == multiset(values)
  {
    var swapped := values[i := values[j]][j := values[i]];
    BeforeIsAsymmetric(values[i], values[j]);
    forall q | i < q < j ensures !Before(swapped[q], swapped[i]) {
      BeforeIsTransitive(values[i], values[j], values[q]);
    }
  }

  method Exchange(values: array<BlockInvalidation>, i: nat, j: nat)
    requires i < j < values.Length && FinalUpTo(values[..], i) && Smallest(values[..], i, j)
    modifies values
    ensures FinalUpTo(values[..], i) && Smallest(values[..], i, j + 1)
    ensures multiset(values[..]) == multiset(old(values[..]))
  {
    if Before(values[j], values[i]) {
      ghost var now := values[..];
      Exchanged(now, i, j);
      values[i], values[j] := values[j], values[i];
      assert values[..] == now[i := now[j]][j := now[i]];
    }
  }

  method SortBlockInvalidations(values: array<BlockInvalidation>)
    modifies values
    ensures FinalUpTo(values[..], values.Length)
    ensures forall p, q :: 0 <= p < q < values.Length ==>
              && !StringOrder()(values[q].layer, values[p].layer)
              && (values[p].layer == values[q].layer ==> !StringOrder()(values[q].block, values[p].block))
    ensures multiset(values[..]) == multiset(old(values[..]))
  {
    for i := 0 to values.Length
      invariant FinalUpTo(values[..], i) && multiset(values[..]) == multiset(old(values[..]))
    {
      for j := i + 1 to values.Length
        invariant FinalUpTo(values[..], i) && Smallest(values[..], i, j)
        invariant multiset(values[..]) == multiset(old(values[..]))
      {
        Exchange(values, i, j);
      }
    }
  }

  // ---- the difference ------------------------------------------------------------------------

  /** One entry for each changed block, with both keys, in the order of the names. */
  ghost predicate IsDiff(layer: string, previous: map<string, string>, current: map<string, string>,
          r: seq<BlockInvalidation>) {
    && (forall i :: 0 <= i < |r| ==>
        r[i] == Entry(layer, previous, current, r[i].block) && Changed(previous, current, r[i].block))
    && (forall name :: Changed(previous, current, name) ==> exists i :: 0 <= i < |r| && r[i].block == name)
    && (forall i, j :: 0 <= i < j < |r| ==> StringOrder()(r[i].block, r[j].block))
  }

  /** Entries of different names, one for each changed name seen so far. */
  ghost predicate Collected(layer: string, previous: map<string, string>, current: map<string, string>,
                            names: set<string>, r: multiset<BlockInvalidation>) {
    forall e :: r[e] == if e.block in names && Changed(previous, current, e.block)
        && e == Entry(layer, previous, current, e.block) then 1 else 0
  }

  /** The entries in the order in which the names come up. */
  method CollectDiff(layer: string, previous: map<string, string>, current: map<string, string>)
      returns (result: seq<BlockInvalidation>)
    ensures Collected(layer, previous, current, previous.Keys + current.Keys, multiset(result))
  {
    var names := previous.Keys + current.Keys;
    var rest := names;
    result := [];
    while rest != {}
      invariant rest <= names && Collected(layer, previous, current, names - rest, multiset(result))
      decreases |rest|
    {
      var name :| name in rest;
      rest := rest - {name};
      if KeyOf(previous, name) != KeyOf(current, name) {
        result := result + [Entry(layer, previous, current, name)];
      }
    }
    assert names - rest == names;
  }

  method DiffBlockMap(layer: string, previous: map<string, string>, current: map<string, string>)
      returns (result: seq<BlockInvalidation>)
    ensures IsDiff(layer, previous, current, result)
    ensures forall i :: 0 <= i < |result| ==>
              && result[i].layer == layer
              && result[i].previousKey == (if result[i].block in previous then previous[result[i].block] else "")
              && result[i].currentKey == (if result[i].block in current then current[result[i].block] else "")
              && result[i].previousKey != result[i].currentKey
    ensures forall name :: (if name in previous then previous[name] else "")
                           != (if name in current then current[name] else "") ==>
              exists i :: 0 <= i < |result| && result[i].block == name
    ensures forall i, j :: 0 <= i < j < |result| ==> StringOrder()(result[i].block, result[j].block)
  {
    result := CollectDiff(layer, previous, current);
    var values := new BlockInvalidation[|result|](i requires 0 <= i < |result| => result[i]);
    assert values[..] == result;
    SortBlockInvalidations(values);
    result := values[..];
    SortedCollectionIsDiff(layer, previous, current, previous.Keys + current.Keys, result);
    DiffMeans(layer, previous, current, result);
  }

  lemma DiffMeans(layer: string, previous: map<string, string>, current: map<string, string>,
                  r: seq<BlockInvalidation>)
    requires IsDiff(layer, previous, current, r)
    ensures forall i :: 0 <= i < |r| ==>
              && r[i].layer == layer
              && r[i].previousKey == (if r[i].block in previous then previous[r[i].block] else "")
              && r[i].currentKey == (if r[i].block in current then current[r[i].block] else "")
              && r[i].previousKey != r[i].currentKey
    ensures forall name :: (if name in previous then previous[name] else "")
                           != (if name in current then current[name] else "") ==>
              exists i :: 0 <= i < |r| && r[i].block == name
  {
    forall name | (if name in previous then previous[name] else "") != (if name in current then current[name] else "")
      ensures exists i :: 0 <= i < |r| && r[i].block == name
    {
      assert Changed(previous, current, name);
    }
  }

  lemma SortedCollectionIsDiff(layer: string, previous: map<string, string>, current: map<string, string>,
                               names: set<string>, r: seq<BlockInvalidation>)
    requires names == previous.Keys + current.Keys && Collected(layer, previous, current, names, multiset(r))
    requires FinalUpTo(r, |r|)
    ensures IsDiff(layer, previous, current, r)
  {
    StringsAreOrdered();
    forall i | 0 <= i < |r|
      ensures r[i] == Entry(layer, previous, current, r[i].block) && Changed(previous, current, r[i].block)
    {
      assert r[i] in multiset(r);
    }
    forall name | Changed(previous, current, name) ensures exists i :: 0 <= i < |r| && r[i].block == name {
      assert name in names;
      assert multiset(r)[Entry(layer, previous, current, name)] == 1;
      assert Entry(layer, previous, current, name) in r;
    }
    forall i, j | 0 <= i < j < |r| ensures StringOrder()(r[i].block, r[j].block) {
      assert !Before(r[j], r[i]);
      assert r[i].layer == r[j].layer == layer;
      OnceInSequence(r, i, j);
      var x, y := r[i].block, r[j].block;
      assert x == y || StringOrder()(x, y) || StringOrder()(y, x);
    }
  }

  lemma OnceInSequence(r: seq<BlockInvalidation>, i: nat, j: nat)
    requires i < j < |r| && multiset(r)[r[i]] <= 1
    ensures r[i] != r[j]
  {
    assert r == r[..j] + [r[j]] + r[j + 1..];
    assert r[i] in r[..j];
  }

  lemma {:induction false} StrictlySortedUnique(a: seq<BlockInvalidation>, b: seq<BlockInvalidation>)
    requires forall i, j :: 0 <= i < j < |a| ==> StringOrder()(a[i].block, a[j].block)
    requires forall i, j :: 0 <= i < j < |b| ==> StringOrder()(b[i].block, b[j].block)
    requires forall e :: e in a <==> e in b
    ensures a == b
    decreases |a|
  {
    StringsAreOrdered();
    assert b != [] ==> b[0] in b;
    if a != [] {
      assert a[0] in b && b[0] in a;
      FirstIsLeast(a, b[0]);
      FirstIsLeast(b, a[0]);
      forall e ensures e in a[1..] <==> e in b[1..] {
        TailMembers(a, e);
        TailMembers(b, e);
      }
      StrictlySortedUnique(a[1..], b[1..]);
      assert a == [a[0]] + a[1..] && b == [b[0]] + b[1..];
    }
  }

  lemma FirstIsLeast(a: seq<BlockInvalidation>, e: BlockInvalidation)
    requires e in a && forall i, j :: 0 <= i < j < |a| ==> StringOrder()(a[i].block, a[j].block)
    ensures e == a[0] || StringOrder()(a[0].block, e.block)
  {
    var k :| 0 <= k < |a| && a[k] == e;
  }

  lemma TailMembers(a: seq<BlockInvalidation>, e: BlockInvalidation)
    requires a != [] && forall i, j :: 0 <= i < j < |a| ==> StringOrder()(a[i].block, a[j].block)
    ensures e in a[1..] <==> e in a && e != a[0]
  {
    StringsAreOrdered();
    if e in a[1..] {
      var k :| 0 <= k < |a[1..]| && a[1..][k] == e;
      assert StringOrder()(a[0].block, a[k + 1].block);
    }
    if e in a && e != a[0] {
      var k :| 0 <= k < |a| && a[k] == e;
      assert a[1..][k - 1] == e;
    }
  }

  /** The difference is determined by the two maps: the order in which a map is walked does not show. */
  lemma DiffIsUnique(layer: string, previous: map<string, string>, current: map<string, string>,
                     one: seq<BlockInvalidation>, two: seq<BlockInvalidation>)
    requires IsDiff(layer, previous, current, one) && IsDiff(layer, previous, current, two)
    ensures one == two
  {
    forall e ensures e in one <==> e in two {
      DiffMember(layer, previous, current, one, e);
      DiffMember(layer, previous, current, two, e);
    }
    StrictlySortedUnique(one, two);
  }

  lemma DiffMember(layer: string, previous: map<string, string>, current: map<string, string>,
                   r: seq<BlockInvalidation>, e: BlockInvalidation)
    requires IsDiff(layer, previous, current, r)
    ensures e in r <==> Changed(previous, current, e.block) && e == Entry(layer, previous, current, e.block)
  {
    if Changed(previous, current, e.block) && e == Entry(layer, previous, current, e.block) {
      var i :| 0 <= i < |r| && r[i].block == e.block;
      assert r[i] == e;
    }
  }
}
