/** Orders, sorting, and keeping the first of equal items, as the context builder uses them. */
module Orderings {

  ghost predicate StrictTotal<T(!new)>(less: (T, T) -> bool) {
    && (forall a :: !less(a, a))
    && (forall a, b, c :: less(a, b) && less(b, c) ==> less(a, c))
    && (forall a, b :: a == b || less(a, b) || less(b, a))
  }

  // ---- lexicographic order --------------------------------------------------------------

  predicate LexLess<T(==)>(less: (T, T) -> bool, a: seq<T>, b: seq<T>) {
    b != [] && (a == [] || if a[0] == b[0] then LexLess(less, a[1..], b[1..]) else less(a[0], b[0]))
  }

  function LexOrder<T(==)>(less: (T, T) -> bool): (seq<T>, seq<T>) -> bool {
    (a: seq<T>, b: seq<T>) => LexLess(less, a, b)
  }

  lemma {:induction false} LexIrreflexive<T(!new)>(less: (T, T) -> bool, a: seq<T>)
    requires StrictTotal(less)
    ensures !LexLess(less, a, a)
  {
    if a != [] {
      LexIrreflexive(less, a[1..]);
    }
  }

  lemma {:induction false} LexTransitive<T(!new)>(less: (T, T) -> bool, a: seq<T>, b: seq<T>, c: seq<T>)
    requires StrictTotal(less) && LexLess(less, a, b) && LexLess(less, b, c)
    ensures LexLess(less, a, c)
    decreases |a|
  {
    if a != [] && a[0] == b[0] == c[0] {
      LexTransitive(less, a[1..], b[1..], c[1..]);
    }
  }

  lemma {:induction false} LexConnected<T(!new)>(less: (T, T) -> bool, a: seq<T>, b: seq<T>)
    requires StrictTotal(less)
    ensures a == b || LexLess(less, a, b) || LexLess(less, b, a)
    decreases |a|
  {
    if a != [] && b != [] && a[0] == b[0] {
      LexConnected(less, a[1..], b[1..]);
      assert a == [a[0]] + a[1..] && b == [b[0]] + b[1..];
    }
  }

  lemma LexIsStrictTotal<T(!new)>(less: (T, T) -> bool)
    requires StrictTotal(less)
    ensures StrictTotal(LexOrder(less))
  {
    var order := LexOrder(less);
    forall a ensures !order(a, a) {
      LexIrreflexive(less, a);
    }
    forall a, b, c | order(a, b) && order(b, c) ensures order(a, c) {
      LexTransitive(less, a, b, c);
    }
    forall a, b ensures a == b || order(a, b) || order(b, a) {
      LexConnected(less, a, b);
    }
  }

  /** Of two lists of the same length the first place in which they differ decides. */
  lemma {:induction false} LexIs<T(!new)>(less: (T, T) -> bool, a: seq<T>, b: seq<T>)
    requires StrictTotal(less) && |a| == |b|
    ensures LexLess(less, a, b) <==> exists k :: 0 <= k < |a| && less(a[k], b[k]) && a[..k] == b[..k]
    decreases |a|
  {
    if a != [] {
      var c, d := a[1..], b[1..];
      LexIs(less, c, d);
      if a[0] == b[0] {
        if k :| 0 <= k < |c| && less(c[k], d[k]) && c[..k] == d[..k] {
          assert a[..k + 1] == [a[0]] + c[..k] && b[..k + 1] == [b[0]] + d[..k] && less(a[k + 1], b[k + 1]);
        }
        if k :| 0 <= k < |a| && less(a[k], b[k]) && a[..k] == b[..k] {
          assert k > 0 && c[..k - 1] == a[..k][1..] && d[..k - 1] == b[..k][1..] && less(c[k - 1], d[k - 1]);
        }
      } else {
        assert a[..0] == b[..0];
        if k :| 0 <= k < |a| && less(a[k], b[k]) && a[..k] == b[..k] {
          assert k == 0 || a[..k][0] == b[..k][0];
        }
      }
    }
  }

  function CharOrder(): (char, char) -> bool {
    (a: char, b: char) => a < b
  }

  /** How Go compares strings. */
  function StringOrder(): (string, string) -> bool {
    LexOrder(CharOrder())
  }

  lemma StringsAreOrdered()
    ensures StrictTotal(StringOrder())
  {
    LexIsStrictTotal(CharOrder());
  }

  /** A text comes before another where it has the smaller character first, or ends first. */
  lemma {:induction false} StringOrderIs(a: string, b: string)
    ensures StringOrder()(a, b) <==>
            exists k :: 0 <= k <= |a| && k < |b| && a[..k] == b[..k] && (k == |a| || a[k] < b[k])
    decreases |a|
  {
    if a == [] && b != [] {
      assert a[..0] == b[..0];
    } else if a != [] && b != [] && a[0] == b[0] {
      StringOrderIs(a[1..], b[1..]);
      if k :| 0 <= k <= |a| - 1 && k < |b| - 1 && a[1..][..k] == b[1..][..k]
              && (k == |a| - 1 || a[1..][k] < b[1..][k]) {
        assert a[..k + 1] == [a[0]] + a[1..][..k] && b[..k + 1] == [b[0]] + b[1..][..k];
      }
      if k :| 0 <= k <= |a| && k < |b| && a[..k] == b[..k] && (k == |a| || a[k] < b[k]) {
        assert k > 0 && a[1..][..k - 1] == a[..k][1..] && b[1..][..k - 1] == b[..k][1..];
      }
    } else if a != [] && b != [] {
      assert a[..0] == b[..0];
      if k :| 0 <= k <= |a| && k < |b| && a[..k] == b[..k] && (k == |a| || a[k] < b[k]) {
        assert k > 0 ==> a[..k][0] == b[..k][0];
      }
    }
  }

  // ---- sorting ------------------------------------------------------------------------------

  predicate Sorted<K(!new)>(keys: seq<K>, less: (K, K) -> bool) {
    forall i, j :: 0 <= i < j < |keys| ==> !less(keys[j], keys[i])
  }

  function Keys<T, K>(items: seq<T>, key: T -> K): (keys: seq<K>)
    ensures |keys| == |items|
  {
    seq(|items|, i requires 0 <= i < |items| => key(items[i]))
  }

  /** Before the first item that is not smaller. */
  function Inserted<T, K>(x: T, items: seq<T>, key: T -> K, less: (K, K) -> bool): seq<T> {
    if items == [] then [x]
    else if less(key(items[0]), key(x)) then [items[0]] + Inserted(x, items[1..], key, less)
    else [x] + items
  }

  /** What Go's `sort.SliceStable` leaves in a slice: equal items stay in order. */
  function StableSorted<T, K>(items: seq<T>, key: T -> K, less: (K, K) -> bool): seq<T> {
    if items == [] then [] else Inserted(items[0], StableSorted(items[1..], key, less), key, less)
  }

  lemma {:induction false} InsertedItems<T, K(!new)>(x: T, items: seq<T>, key: T -> K, less: (K, K) -> bool)
    ensures multiset(Inserted(x, items, key, less)) == multiset(items) + multiset{x}
    decreases |items|
  {
    if items != [] && less(key(items[0]), key(x)) {
      InsertedItems(x, items[1..], key, less);
      assert items == [items[0]] + items[1..];
    }
  }

  /** Nothing in a list is smaller than `x`. */
  predicate NoneBefore<T, K>(x: T, items: seq<T>, key: T -> K, less: (K, K) -> bool) {
    forall k :: 0 <= k < |items| ==> !less(key(items[k]), key(x))
  }

  lemma HeadIsLeast<T, K(!new)>(items: seq<T>, key: T -> K, less: (K, K) -> bool)
    requires items != [] && Sorted(Keys(items, key), less)
    ensures NoneBefore(items[0], items[1..], key, less) && Sorted(Keys(items[1..], key), less)
  {
    var keys := Keys(items, key);
    assert Keys(items[1..], key) == keys[1..];
    forall k | 0 <= k < |items| - 1 ensures !less(key(items[1..][k]), key(items[0])) {
      assert !less(keys[k + 1], keys[0]);
    }
  }

  lemma InsertedAfter<T, K(!new)>(first: T, x: T, items: seq<T>, key: T -> K, less: (K, K) -> bool)
    requires NoneBefore(first, items, key, less) && !less(key(x), key(first))
    ensures NoneBefore(first, Inserted(x, items, key, less), key, less)
  {
    var inserted := Inserted(x, items, key, less);
    InsertedItems(x, items, key, less);
    forall k | 0 <= k < |inserted| ensures !less(key(inserted[k]), key(first)) {
      assert inserted[k] in multiset(inserted);
      assert inserted[k] == x || inserted[k] in items;
    }
  }

  lemma {:induction false} InsertedIsSorted<T, K(!new)>(x: T, items: seq<T>, key: T -> K, less: (K, K) -> bool)
    requires StrictTotal(less) && Sorted(Keys(items, key), less)
    ensures Sorted(Keys(Inserted(x, items, key, less), key), less)
    decreases |items|
  {
    if items != [] {
      HeadIsLeast(items, key, less);
      if less(key(items[0]), key(x)) {
        InsertedIsSorted(x, items[1..], key, less);
        InsertedAfter(items[0], x, items[1..], key, less);
        SortedCons(items[0], Inserted(x, items[1..], key, less), key, less);
      } else {
        HeadStaysLeast(x, items, key, less);
        SortedCons(x, items, key, less);
      }
    }
  }

  lemma HeadStaysLeast<T, K(!new)>(x: T, items: seq<T>, key: T -> K, less: (K, K) -> bool)
    requires StrictTotal(less) && items != [] && NoneBefore(items[0], items[1..], key, less)
    requires !less(key(items[0]), key(x))
    ensures NoneBefore(x, items, key, less)
  {
    forall k | 0 < k < |items| ensures !less(key(items[k]), key(x)) {
      assert items[k] == items[1..][k - 1];
      assert key(items[k]) == key(items[0]) || less(key(items[0]), key(items[k]));
    }
  }

  lemma SortedCons<T, K(!new)>(x: T, items: seq<T>, key: T -> K, less: (K, K) -> bool)
    requires Sorted(Keys(items, key), less) && NoneBefore(x, items, key, less)
    ensures Sorted(Keys([x] + items, key), less)
  {
    var keys := Keys([x] + items, key);
    forall i, j | 0 <= i < j < |keys| ensures !less(keys[j], keys[i]) {
      if i > 0 {
        assert !less(Keys(items, key)[j - 1], Keys(items, key)[i - 1]);
      }
    }
  }

  lemma {:induction false} SortingIs<T, K(!new)>(items: seq<T>, key: T -> K, less: (K, K) -> bool)
    requires StrictTotal(less)
    ensures multiset(StableSorted(items, key, less)) == multiset(items)
    ensures Sorted(Keys(StableSorted(items, key, less), key), less)
    decreases |items|
  {
    if items != [] {
      SortingIs(items[1..], key, less);
      InsertedItems(items[0], StableSorted(items[1..], key, less), key, less);
      InsertedIsSorted(items[0], StableSorted(items[1..], key, less), key, less);
      assert items == [items[0]] + items[1..];
    }
  }

  /** The items with one key, in order. */
  function WithKey<T, K(==)>(items: seq<T>, key: T -> K, k: K): seq<T> {
    if items == [] then [] else (if key(items[0]) == k then [items[0]] else []) + WithKey(items[1..], key, k)
  }

  lemma WithKeyCons<T, K(!new)>(x: T, items: seq<T>, key: T -> K, k: K)
    ensures WithKey([x] + items, key, k) == (if key(x) == k then [x] else []) + WithKey(items, key, k)
  {
    assert ([x] + items)[1..] == items;
  }

  lemma {:induction false} InsertedInFront<T, K(!new)>(x: T, items: seq<T>, key: T -> K, less: (K, K) -> bool, k: K)
    requires StrictTotal(less)
    ensures WithKey(Inserted(x, items, key, less), key, k) == (if key(x) == k then [x] else []) + WithKey(items, key, k)
    decreases |items|
  {
    if items != [] && less(key(items[0]), key(x)) {
      var first, rest := items[0], items[1..];
      InsertedInFront(x, rest, key, less, k);
      WithKeyCons(first, Inserted(x, rest, key, less), key, k);
      FirstPasses(x, first, key, k, WithKey(rest, key, k));
    } else {
      WithKeyCons(x, items, key, k);
      assert items == [] ==> [x] + items == [x];
    }
  }

  lemma FirstPasses<T, K(!new)>(x: T, first: T, key: T -> K, k: K, rest: seq<T>)
    requires key(first) != key(x)
    ensures (if key(first) == k then [first] else []) + ((if key(x) == k then [x] else []) + rest)
            == (if key(x) == k then [x] else []) + ((if key(first) == k then [first] else []) + rest)
  {
  }

  /** Items with the same key stay in the order they came in. */
  lemma {:induction false} SortingIsStable<T, K(!new)>(items: seq<T>, key: T -> K, less: (K, K) -> bool, k: K)
    requires StrictTotal(less)
    ensures WithKey(StableSorted(items, key, less), key, k) == WithKey(items, key, k)
    decreases |items|
  {
    if items != [] {
      var rest := StableSorted(items[1..], key, less);
      SortingIsStable(items[1..], key, less, k);
      InsertedInFront(items[0], rest, key, less, k);
    }
  }

  /** There is only one way to sort. */
  lemma {:induction false} SortedUnique<K(!new)>(a: seq<K>, b: seq<K>, less: (K, K) -> bool)
    requires StrictTotal(less) && Sorted(a, less) && Sorted(b, less) && multiset(a) == multiset(b)
    ensures a == b
    decreases |a|
  {
    assert |a| == |multiset(a)| == |multiset(b)| == |b|;
    if a != [] {
      SameLeast(a, b, less);
      WithoutFirst(a);
      WithoutFirst(b);
      SortedUnique(a[1..], b[1..], less);
    }
  }

  lemma SameLeast<K(!new)>(a: seq<K>, b: seq<K>, less: (K, K) -> bool)
    requires StrictTotal(less) && Sorted(a, less) && Sorted(b, less) && multiset(a) == multiset(b) && a != [] && b != []
    ensures a[0] == b[0]
  {
    assert a[0] in multiset(b) && b[0] in multiset(a);
    var i :| 0 <= i < |b| && b[i] == a[0];
    var j :| 0 <= j < |a| && a[j] == b[0];
    assert !less(b[i], b[0]) && !less(a[j], a[0]);
  }

  lemma WithoutFirst<K>(a: seq<K>)
    requires a != []
    ensures a == [a[0]] + a[1..] && multiset(a[1..]) == multiset(a) - multiset{a[0]}
  {
    assert a == [a[0]] + a[1..];
  }

  lemma WithoutOne<K>(b: seq<K>, j: nat)
    requires j < |b|
    ensures multiset(b[..j] + b[j + 1..]) == multiset(b) - multiset{b[j]}
  {
    assert b == b[..j] + [b[j]] + b[j + 1..];
  }

  lemma KeysWithoutOne<T, K>(b: seq<T>, j: nat, key: T -> K)
    requires j < |b|
    ensures multiset(Keys(b[..j] + b[j + 1..], key)) == multiset(Keys(b, key)) - multiset{key(b[j])}
    ensures key(b[j]) in multiset(Keys(b, key))
  {
    var keys := Keys(b, key);
    WithoutOne(keys, j);
    assert keys[j] == key(b[j]);
    assert Keys(b[..j] + b[j + 1..], key) == keys[..j] + keys[j + 1..];
  }

  lemma SameWithOne<K>(a: multiset<K>, b: multiset<K>, x: K)
    requires x in a && x in b && a - multiset{x} == b - multiset{x}
    ensures a == b
  {
    assert a == a - multiset{x} + multiset{x};
    assert b == b - multiset{x} + multiset{x};
  }

  lemma {:induction false} SameItemsSameKeys<T, K>(a: seq<T>, b: seq<T>, key: T -> K)
    requires multiset(a) == multiset(b)
    ensures multiset(Keys(a, key)) == multiset(Keys(b, key))
    decreases |a|
  {
    assert |a| == |multiset(a)| == |multiset(b)| == |b|;
    if a != [] {
      assert a[0] in multiset(b);
      var j :| 0 <= j < |b| && b[j] == a[0];
      var rest := b[..j] + b[j + 1..];
      WithoutFirst(a);
      WithoutOne(b, j);
      SameItemsSameKeys(a[1..], rest, key);
      KeysWithoutOne(a, 0, key);
      KeysWithoutOne(b, j, key);
      assert a[..0] + a[1..] == a[1..];
      SameWithOne(multiset(Keys(a, key)), multiset(Keys(b, key)), key(a[0]));
    }
  }

  /** The keys of a sorted list do not depend on the order it had before. */
  lemma SortedKeysIgnoreOrder<T, K(!new)>(a: seq<T>, b: seq<T>, key: T -> K, less: (K, K) -> bool)
    requires StrictTotal(less) && multiset(a) == multiset(b)
    ensures Keys(StableSorted(a, key, less), key) == Keys(StableSorted(b, key, less), key)
  {
    SortingIs(a, key, less);
    SortingIs(b, key, less);
    SameItemsSameKeys(StableSorted(a, key, less), StableSorted(b, key, less), key);
    SortedUnique(Keys(StableSorted(a, key, less), key), Keys(StableSorted(b, key, less), key), less);
  }

  /** Two places of a list have two places in any list that contains it. */
  lemma TwoPlaces<T>(small: seq<T>, large: seq<T>, i: nat, j: nat) returns (p: nat, q: nat)
    requires multiset(small) <= multiset(large) && i < j < |small|
    ensures p < |large| && q < |large| && p != q && large[p] == small[i] && large[q] == small[j]
  {
    assert small[i] in multiset(small) && small[j] in multiset(small);
    p :| 0 <= p < |large| && large[p] == small[i];
    var rest := large[..p] + large[p + 1..];
    WithoutOne(large, p);
    WithoutOne(small, i);
    assert (small[..i] + small[i + 1..])[j - 1] == small[j];
    assert small[j] in multiset(rest);
    var k :| 0 <= k < |rest| && rest[k] == small[j];
    q := if k < p then k else k + 1;
  }

  // ---- the first of each kind --------------------------------------------------------------------

  /** The items whose key no earlier item has. */
  function FirstOfEach<T, K(==)>(items: seq<T>, key: T -> K): (r: seq<T>) {
    if items == [] then []
    else
      var n := |items| - 1;
      FirstOfEach(items[..n], key) + if key(items[n]) in Keys(items[..n], key) then [] else [items[n]]
  }

  lemma {:induction false} AllAreFirst<T, K>(items: seq<T>, key: T -> K)
    requires forall i, j :: 0 <= i < j < |items| ==> key(items[i]) != key(items[j])
    ensures FirstOfEach(items, key) == items
  {
    if items != [] {
      AllAreFirst(items[..|items| - 1], key);
    }
  }
}
