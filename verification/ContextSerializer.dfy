/** Making a context independent of the order it was gathered in (`internal/contextbuilder/serializer.go`). */
module ContextSerializer {
  import opened Orderings

  /** An instant, and how it is written; the zero instant is written as nothing. */
  type Instant = int
  type TimeFormat = Instant -> string

  const NUL: char := '\0'

  datatype Message = Message(id: string, role: string, text: string, versionHash: string, createdAt: Instant)
  datatype StableMessage = StableMessage(id: string, role: string, text: string, versionHash: string, createdAt: string)

  // ---- comparing lists of strings --------------------------------------------------------

  function Firsts(values: seq<string>): seq<string> {
    if |values| < 2 then [] else [values[0]] + Firsts(values[2..])
  }

  function Seconds(values: seq<string>): seq<string> {
    if |values| < 2 then [] else [values[1]] + Seconds(values[2..])
  }

  lemma {:induction false} SameLength(values: seq<string>)
    ensures |Firsts(values)| == |Seconds(values)|
    decreases |values|
  {
    if |values| >= 2 {
      SameLength(values[2..]);
    }
  }

  /** Which fields belong to which key. */
  lemma {:induction false} FieldsAt(values: seq<string>, k: nat)
    requires |values| % 2 == 0 && k < |values| / 2
    ensures |Firsts(values)| == |Seconds(values)| == |values| / 2
    ensures Firsts(values)[k] == values[2 * k] && Seconds(values)[k] == values[2 * k + 1]
    decreases |values|
  {
    SameLength(values);
    if |values| > 2 {
      FieldsAt(values[2..], if k > 0 then k - 1 else 0);
    }
  }

  /** Compares two keys, given as alternating fields, field by field. */
  method CompareStrings(values: seq<string>) returns (less: bool)
    requires |values| % 2 == 0
    ensures less == LexLess(StringOrder(), Firsts(values), Seconds(values))
    ensures less <==> exists k :: 0 <= k < |Firsts(values)| == |Seconds(values)|
                                  && StringOrder()(Firsts(values)[k], Seconds(values)[k])
                                  && Firsts(values)[..k] == Seconds(values)[..k]
  {
    StringsAreOrdered();
    SameLength(values);
    LexIs(StringOrder(), Firsts(values), Seconds(values));
    var i := 0;
    while i < |values|
      invariant 0 <= i <= |values| && i % 2 == 0
      invariant LexLess(StringOrder(), Firsts(values), Seconds(values))
                == LexLess(StringOrder(), Firsts(values[i..]), Seconds(values[i..]))
    {
      assert values[i..][0] == values[i] && values[i..][1] == values[i + 1] && values[i..][2..] == values[i + 2..];
      SameLength(values[i..]);
      if values[i] != values[i + 1] {
        return StringOrder()(values[i], values[i + 1]);
      }
      i := i + 2;
    }
    return false;
  }

  // ---- messages ------------------------------------------------------------------------------

  function MessageKey(format: TimeFormat): Message -> seq<string> {
    (m: Message) => [m.id, m.versionHash, m.role, m.text, format(m.createdAt)]
  }

  function Join(fields: seq<string>): string {
    if fields == [] then "" else if |fields| == 1 then fields[0] else fields[0] + [NUL] + Join(fields[1..])
  }

  function Rendered(key: seq<string>, includeCreatedAt: bool): StableMessage
    requires |key| == 5
  {
    StableMessage(key[0], key[2], key[3], key[1], if includeCreatedAt then key[4] else "")
  }

  /** The rendered messages: sorted by their fields, each key once. */
  function RenderedKeys(keys: seq<seq<string>>, includeCreatedAt: bool): seq<StableMessage>
    requires forall i :: 0 <= i < |keys| ==> |keys[i]| == 5
  {
    if keys == [] then []
    else
      var n := |keys| - 1;
      RenderedKeys(keys[..n], includeCreatedAt)
      + if Join(keys[n]) in Keys(keys[..n], Join) then [] else [Rendered(keys[n], includeCreatedAt)]
  }

  function NormalizedMessages(messages: seq<Message>, includeCreatedAt: bool, format: TimeFormat): seq<StableMessage> {
    var key := MessageKey(format);
    RenderedKeys(Keys(StableSorted(messages, key, LexOrder(StringOrder())), key), includeCreatedAt)
  }

  method NormalizeMessages(messages: seq<Message>, includeCreatedAt: bool, format: TimeFormat)
      returns (result: seq<StableMessage>)
    ensures result == NormalizedMessages(messages, includeCreatedAt, format)
  {
    var key := MessageKey(format);
    var copied := StableSorted(messages, key, LexOrder(StringOrder()));
    ghost var keys := Keys(copied, key);
    result := [];
    var seen := {};
    for i := 0 to |copied|
      invariant forall k :: k in seen <==> k in Keys(keys[..i], Join)
      invariant result == RenderedKeys(keys[..i], includeCreatedAt)
    {
      var m := copied[i];
      var fields := [m.id, m.versionHash, m.role, m.text, format(m.createdAt)];
      NextKey(keys, i, includeCreatedAt);
      if Join(fields) !in seen {
        seen := seen + {Join(fields)};
        var createdAt := if includeCreatedAt then fields[4] else "";
        result := result + [StableMessage(m.id, m.role, m.text, m.versionHash, createdAt)];
      }
    }
    assert keys[..|copied|] == keys;
  }

  lemma NextKey(keys: seq<seq<string>>, i: nat, includeCreatedAt: bool)
    requires i < |keys| && forall k :: 0 <= k < |keys| ==> |keys[k]| == 5
    ensures RenderedKeys(keys[..i + 1], includeCreatedAt)
            == RenderedKeys(keys[..i], includeCreatedAt)
               + if Join(keys[i]) in Keys(keys[..i], Join) then [] else [Rendered(keys[i], includeCreatedAt)]
    ensures Keys(keys[..i + 1], Join) == Keys(keys[..i], Join) + [Join(keys[i])]
  {
    assert keys[..i + 1][..i] == keys[..i];
  }

  /** The normalised messages are the same for every order the messages come in. */
  lemma NormalizingIgnoresOrder(one: seq<Message>, two: seq<Message>, includeCreatedAt: bool, format: TimeFormat)
    requires multiset(one) == multiset(two)
    ensures NormalizedMessages(one, includeCreatedAt, format) == NormalizedMessages(two, includeCreatedAt, format)
  {
    StringsAreOrdered();
    LexIsStrictTotal(StringOrder());
    SortedKeysIgnoreOrder(one, two, MessageKey(format), LexOrder(StringOrder()));
  }

  // ---- what is rendered ------------------------------------------------------------------------

  /** Each field of a message stands in its place; the time only if it is asked for. */
  predicate Shows(r: StableMessage, m: Message, includeCreatedAt: bool, format: TimeFormat) {
    && r.id == m.id && r.role == m.role && r.text == m.text && r.versionHash == m.versionHash
    && r.createdAt == if includeCreatedAt then format(m.createdAt) else ""
  }

  /** The fields messages are sorted by. */
  function Fields(m: Message, format: TimeFormat): seq<string> {
    [m.id, m.versionHash, m.role, m.text, format(m.createdAt)]
  }

  /** The key at `p` is the one that is rendered in place `i`. */
  ghost predicate RendersAt(keys: seq<seq<string>>, includeCreatedAt: bool, i: nat, p: nat)
    requires forall k :: 0 <= k < |keys| ==> |keys[k]| == 5
  {
    && p < |keys| && i < |RenderedKeys(keys, includeCreatedAt)|
    && RenderedKeys(keys, includeCreatedAt)[i] == Rendered(keys[p], includeCreatedAt)
    && |RenderedKeys(keys[..p], includeCreatedAt)| <= i < |RenderedKeys(keys[..p + 1], includeCreatedAt)|
    && Join(keys[p]) !in Keys(keys[..p], Join)
  }

  lemma RendersAtStill(keys: seq<seq<string>>, includeCreatedAt: bool, i: nat, p: nat, n: nat)
    requires |keys| == n + 1 && forall k :: 0 <= k < |keys| ==> |keys[k]| == 5
    requires RendersAt(keys[..n], includeCreatedAt, i, p)
    ensures RendersAt(keys, includeCreatedAt, i, p)
  {
    assert keys[..n][..p + 1] == keys[..p + 1] && keys[..n][..p] == keys[..p] && keys[..n][p] == keys[p];
  }

  lemma {:induction false} RenderedPlace(keys: seq<seq<string>>, includeCreatedAt: bool, i: nat) returns (p: nat)
    requires forall k :: 0 <= k < |keys| ==> |keys[k]| == 5
    requires i < |RenderedKeys(keys, includeCreatedAt)|
    ensures RendersAt(keys, includeCreatedAt, i, p)
  {
    var n := |keys| - 1;
    if i < |RenderedKeys(keys[..n], includeCreatedAt)| {
      p := RenderedPlace(keys[..n], includeCreatedAt, i);
      RendersAtStill(keys, includeCreatedAt, i, p, n);
    } else {
      p := n;
      assert keys[..n + 1] == keys;
    }
  }

  lemma {:induction false} FewerRendered(keys: seq<seq<string>>, includeCreatedAt: bool, p: nat, q: nat)
    requires p <= q <= |keys| && forall k :: 0 <= k < |keys| ==> |keys[k]| == 5
    ensures |RenderedKeys(keys[..p], includeCreatedAt)| <= |RenderedKeys(keys[..q], includeCreatedAt)|
    decreases q
  {
    if p < q {
      FewerRendered(keys, includeCreatedAt, p, q - 1);
      assert keys[..q][..q - 1] == keys[..q - 1];
    }
  }

  /** The sorted messages and their keys. */
  lemma SortedMessages(messages: seq<Message>, format: TimeFormat) returns (sorted: seq<Message>)
    ensures sorted == StableSorted(messages, MessageKey(format), LexOrder(StringOrder()))
    ensures forall m :: m in sorted <==> m in messages
    ensures Sorted(Keys(sorted, MessageKey(format)), LexOrder(StringOrder()))
  {
    StringsAreOrdered();
    LexIsStrictTotal(StringOrder());
    SortingIs(messages, MessageKey(format), LexOrder(StringOrder()));
    sorted := StableSorted(messages, MessageKey(format), LexOrder(StringOrder()));
    assert forall m :: m in sorted <==> m in multiset(sorted);
    assert forall m :: m in messages <==> m in multiset(messages);
  }

  /** Two rendered keys stand in the order in which they are rendered, and differ. */
  lemma PlacesIncrease(keys: seq<seq<string>>, includeCreatedAt: bool, i: nat, j: nat) returns (p: nat, q: nat)
    requires forall k :: 0 <= k < |keys| ==> |keys[k]| == 5
    requires i < j < |RenderedKeys(keys, includeCreatedAt)|
    ensures p < q < |keys| && keys[p] != keys[q]
    ensures RenderedKeys(keys, includeCreatedAt)[i] == Rendered(keys[p], includeCreatedAt)
    ensures RenderedKeys(keys, includeCreatedAt)[j] == Rendered(keys[q], includeCreatedAt)
  {
    p := RenderedPlace(keys, includeCreatedAt, i);
    q := RenderedPlace(keys, includeCreatedAt, j);
    NotBefore(keys, includeCreatedAt, i, j, p, q);
    assert Keys(keys[..q], Join)[p] == Join(keys[p]);
  }

  lemma NotBefore(keys: seq<seq<string>>, includeCreatedAt: bool, i: nat, j: nat, p: nat, q: nat)
    requires forall k :: 0 <= k < |keys| ==> |keys[k]| == 5
    requires i < j && RendersAt(keys, includeCreatedAt, i, p) && RendersAt(keys, includeCreatedAt, j, q)
    ensures p < q
  {
    assert keys[..p + 1][..p] == keys[..p];
    if q < p {
      FewerRendered(keys, includeCreatedAt, q + 1, p);
    }
  }

  /** Of two different keys in order the first is smaller. */
  lemma SortedApart(keys: seq<seq<string>>, p: nat, q: nat)
    requires Sorted(keys, LexOrder(StringOrder())) && p < q < |keys| && keys[p] != keys[q]
    ensures LexLess(StringOrder(), keys[p], keys[q])
  {
    StringsAreOrdered();
    assert !LexOrder(StringOrder())(keys[q], keys[p]);
    LexConnected(StringOrder(), keys[p], keys[q]);
  }

  /**
   Every rendered message shows one of the messages, and of two the first one's fields come
   first, in the order ID, version, role, text and time; so none is rendered twice.
   */
  lemma RenderedAreMessages(messages: seq<Message>, includeCreatedAt: bool, format: TimeFormat, i: nat, j: nat)
      returns (one: Message, two: Message)
    requires i < j < |NormalizedMessages(messages, includeCreatedAt, format)|
    ensures one in messages && two in messages
    ensures Shows(NormalizedMessages(messages, includeCreatedAt, format)[i], one, includeCreatedAt, format)
    ensures Shows(NormalizedMessages(messages, includeCreatedAt, format)[j], two, includeCreatedAt, format)
    ensures LexLess(StringOrder(), Fields(one, format), Fields(two, format))
  {
    var sorted := SortedMessages(messages, format);
    var keys := Keys(sorted, MessageKey(format));
    var p, q := PlacesIncrease(keys, includeCreatedAt, i, j);
    SortedApart(keys, p, q);
    one, two := sorted[p], sorted[q];
    assert keys[p] == Fields(one, format) && keys[q] == Fields(two, format);
  }

  /** A single rendered message shows a message too. */
  lemma RenderedIsMessage(messages: seq<Message>, includeCreatedAt: bool, format: TimeFormat, i: nat)
      returns (m: Message)
    requires i < |NormalizedMessages(messages, includeCreatedAt, format)|
    ensures m in messages
            && Shows(NormalizedMessages(messages, includeCreatedAt, format)[i], m, includeCreatedAt, format)
  {
    var sorted := SortedMessages(messages, format);
    var p := RenderedPlace(Keys(sorted, MessageKey(format)), includeCreatedAt, i);
    m := sorted[p];
  }

  predicate NoNul(fields: seq<string>) {
    forall i :: 0 <= i < |fields| ==> NUL !in fields[i]
  }

  /** Fields without the separator can be told apart after joining. */
  lemma {:induction false} JoinApart(a: seq<string>, b: seq<string>)
    requires |a| == |b| && NoNul(a) && NoNul(b) && Join(a) == Join(b)
    ensures a == b
    decreases |a|
  {
    if |a| > 1 {
      HeadsApart(a[0], Join(a[1..]), b[0], Join(b[1..]));
      JoinApart(a[1..], b[1..]);
      assert a == [a[0]] + a[1..] && b == [b[0]] + b[1..];
    }
  }

  lemma HeadsApart(a: string, s: string, b: string, t: string)
    requires a + [NUL] + s == b + [NUL] + t && NUL !in a && NUL !in b
    ensures a == b && s == t
  {
    var whole := a + [NUL] + s;
    assert whole[|a|] == NUL && whole[|b|] == NUL;
    assert forall i :: 0 <= i < |a| ==> whole[i] == a[i] != NUL;
    assert forall i :: 0 <= i < |b| ==> whole[i] == b[i] != NUL;
    assert |a| == |b|;
    assert a == whole[..|a|] && b == whole[..|b|] && s == whole[|a| + 1..] && t == whole[|b| + 1..];
  }

  lemma {:induction false} KeyIsRendered(keys: seq<seq<string>>, includeCreatedAt: bool, p: nat) returns (q: nat)
    requires p < |keys| && forall k :: 0 <= k < |keys| ==> |keys[k]| == 5
    ensures q <= p && Join(keys[q]) == Join(keys[p])
    ensures Rendered(keys[q], includeCreatedAt) in RenderedKeys(keys, includeCreatedAt)
  {
    var n := |keys| - 1;
    if p < n {
      assert keys[..n][p] == keys[p];
      q := KeyIsRendered(keys[..n], includeCreatedAt, p);
    } else if Join(keys[n]) in Keys(keys[..n], Join) {
      var k :| 0 <= k < n && Keys(keys[..n], Join)[k] == Join(keys[n]);
      q := KeyIsRendered(keys[..n], includeCreatedAt, k);
    } else {
      q := n;
    }
  }

  /** Every message is rendered, where no field contains the separator. */
  lemma EveryMessageIsRendered(messages: seq<Message>, includeCreatedAt: bool, format: TimeFormat, m: Message)
    requires m in messages && forall x :: x in messages ==> NoNul(Fields(x, format))
    ensures exists r :: r in NormalizedMessages(messages, includeCreatedAt, format)
                        && Shows(r, m, includeCreatedAt, format)
  {
    var sorted := SortedMessages(messages, format);
    var keys := Keys(sorted, MessageKey(format));
    var p :| 0 <= p < |sorted| && sorted[p] == m;
    var q := KeyIsRendered(keys, includeCreatedAt, p);
    assert keys[p] == Fields(sorted[p], format) && keys[q] == Fields(sorted[q], format);
    assert sorted[q] in sorted;
    JoinApart(keys[q], keys[p]);
    assert Shows(Rendered(keys[q], includeCreatedAt), m, includeCreatedAt, format);
  }

  // ---- the newest items ------------------------------------------------------------------------

  type Moment = (Instant, string)

  /** Later first; at the same instant, by ID. */
  function NewestFirst(): (Moment, Moment) -> bool {
    (a: Moment, b: Moment) => a.0 > b.0 || (a.0 == b.0 && StringOrder()(a.1, b.1))
  }

  function OldestFirst(): (Moment, Moment) -> bool {
    (a: Moment, b: Moment) => a.0 < b.0 || (a.0 == b.0 && StringOrder()(a.1, b.1))
  }

  lemma MomentsAreOrdered()
    ensures StrictTotal(NewestFirst()) && StrictTotal(OldestFirst())
  {
    StringsAreOrdered();
    var less, newest, oldest := StringOrder(), NewestFirst(), OldestFirst();
    forall a, b, c ensures newest(a, b) && newest(b, c) ==> newest(a, c)
                   ensures oldest(a, b) && oldest(b, c) ==> oldest(a, c) {
      assert less(a.1, b.1) && less(b.1, c.1) ==> less(a.1, c.1);
    }
    forall a, b ensures a == b || newest(a, b) || newest(b, a)
                ensures a == b || oldest(a, b) || oldest(b, a) {
      assert a.1 == b.1 || less(a.1, b.1) || less(b.1, a.1);
      assert a == (a.0, a.1) && b == (b.0, b.1);
    }
  }

  function FirstItems<T>(items: seq<T>, maxItems: nat): seq<T> {
    if |items| > maxItems then items[..maxItems] else items
  }

  /** Sorted newest first, cut, then sorted oldest first. */
  function RecentItems<T>(items: seq<T>, moment: T -> Moment, maxItems: nat): seq<T> {
    StableSorted(FirstItems(StableSorted(items, moment, NewestFirst()), maxItems), moment, OldestFirst())
  }

  lemma CutItems<T>(items: seq<T>, maxItems: nat)
    ensures var first := FirstItems(items, maxItems);
      && first <= items && |first| == (if |items| < maxItems then |items| else maxItems)
      && multiset(items) == multiset(first) + multiset(items[|first|..])
  {
    var first := FirstItems(items, maxItems);
    assert items == first + items[|first|..];
  }

  lemma LaterIsNotSmaller<T, K(!new)>(items: seq<T>, key: T -> K, less: (K, K) -> bool, n: nat, x: T, y: T)
    requires Sorted(Keys(items, key), less) && n <= |items| && x in items[..n] && y in items[n..]
    ensures !less(key(y), key(x))
  {
    var i :| 0 <= i < n && items[..n][i] == x;
    var j :| 0 <= j < |items| - n && items[n..][j] == y;
    assert Keys(items, key)[i] == key(x) && Keys(items, key)[n + j] == key(y);
  }

  /** As many as allowed are kept, oldest first, and no item that is left out is newer than one that is kept. */
  lemma RecentAreTheNewest<T>(items: seq<T>, moment: T -> Moment, maxItems: nat)
    ensures var recent := RecentItems(items, moment, maxItems);
      && |recent| == (if |items| < maxItems then |items| else maxItems)
      && multiset(recent) <= multiset(items) && Sorted(Keys(recent, moment), OldestFirst())
      && forall kept, left :: kept in recent && left in multiset(items) - multiset(recent) ==>
           !NewestFirst()(moment(left), moment(kept))
  {
    MomentsAreOrdered();
    var newest := StableSorted(items, moment, NewestFirst());
    var first := FirstItems(newest, maxItems);
    var recent := RecentItems(items, moment, maxItems);
    SortingIs(items, moment, NewestFirst());
    SortingIs(first, moment, OldestFirst());
    CutItems(newest, maxItems);
    assert |newest| == |multiset(newest)| == |multiset(items)| && |recent| == |multiset(recent)| == |multiset(first)|;
    forall kept, left | kept in recent && left in multiset(items) - multiset(recent)
      ensures !NewestFirst()(moment(left), moment(kept))
    {
      assert kept in multiset(first) && left in multiset(newest[|first|..]);
      LaterIsNotSmaller(newest, moment, NewestFirst(), |first|, kept, left);
    }
  }

  /** At an earlier instant, or at the same one with an ID that is no larger. */
  predicate NotAfter(p: Moment, q: Moment) {
    p.0 < q.0 || (p.0 == q.0 && !StringOrder()(q.1, p.1))
  }

  /** At an earlier instant, or at the same one with an ID that is no smaller. */
  predicate GivesWay(p: Moment, q: Moment) {
    p.0 < q.0 || (p.0 == q.0 && !StringOrder()(p.1, q.1))
  }

  lemma OrdersMean(p: Moment, q: Moment)
    ensures OldestFirst()(q, p) || NotAfter(p, q)
    ensures NewestFirst()(p, q) || GivesWay(p, q)
  {
  }

  /** The same with the order written out: by time, at the same time by ID; the smaller IDs are kept. */
  lemma RecentOrder<T>(items: seq<T>, moment: T -> Moment, maxItems: nat)
    ensures var recent := RecentItems(items, moment, maxItems);
      && (forall i, j :: 0 <= i < j < |recent| ==> NotAfter(moment(recent[i]), moment(recent[j])))
      && (forall kept, left :: kept in recent && left in multiset(items) - multiset(recent) ==>
            GivesWay(moment(left), moment(kept)))
  {
    var recent := RecentItems(items, moment, maxItems);
    RecentAreTheNewest(items, moment, maxItems);
    forall i, j | 0 <= i < j < |recent| ensures NotAfter(moment(recent[i]), moment(recent[j])) {
      OrdersMean(Keys(recent, moment)[i], Keys(recent, moment)[j]);
    }
    forall kept, left | kept in recent && left in multiset(items) - multiset(recent)
      ensures GivesWay(moment(left), moment(kept))
    {
      OrdersMean(moment(left), moment(kept));
    }
  }

  // ---- evidence ---------------------------------------------------------------------------------

  datatype EvidenceRef = EvidenceRef(id: string, kind: string, summary: string, artifactRef: string, createdAt: Instant)

  const EVIDENCE_MOMENT: EvidenceRef -> Moment := (r: EvidenceRef) => (r.createdAt, r.id)

  function EvidenceKey(format: TimeFormat): EvidenceRef -> string {
    (r: EvidenceRef) => r.id + [NUL] + format(r.createdAt)
  }

  /** What is rendered: the newest references, each ID and time once. */
  function NormalizedEvidence(refs: seq<EvidenceRef>, maxItems: nat, format: TimeFormat): seq<EvidenceRef> {
    FirstOfEach(RecentItems(refs, EVIDENCE_MOMENT, maxItems), EvidenceKey(format))
  }

  method NormalizeEvidenceRefs(refs: seq<EvidenceRef>, maxItems: nat, format: TimeFormat)
      returns (result: seq<EvidenceRef>)
    ensures result == NormalizedEvidence(refs, maxItems, format)
  {
    var recent := StableSorted(refs, EVIDENCE_MOMENT, NewestFirst());
    if |recent| > maxItems {
      recent := recent[..maxItems];
    }
    recent := StableSorted(recent, EVIDENCE_MOMENT, OldestFirst());
    var key := EvidenceKey(format);
    result := [];
    var seen := {};
    for i := 0 to |recent|
      invariant forall k :: k in seen <==> k in Keys(recent[..i], key)
      invariant result == FirstOfEach(recent[..i], key)
    {
      assert recent[..i + 1][..i] == recent[..i];
      assert Keys(recent[..i + 1], key) == Keys(recent[..i], key) + [key(recent[i])];
      if key(recent[i]) !in seen {
        seen := seen + {key(recent[i])};
        result := result + [recent[i]];
      }
    }
    assert recent[..|recent|] == recent;
  }

  /** Different instants are written differently, and without a NUL. */
  ghost predicate Faithful(format: TimeFormat) {
    && (forall a, b :: format(a) == format(b) ==> a == b)
    && (forall a :: NUL !in format(a))
  }

  /** An ID and a time can be told apart after joining, even when the ID contains the separator. */
  lemma JoinedApart(a: string, s: string, b: string, t: string)
    requires a + [NUL] + s == b + [NUL] + t && NUL !in s && NUL !in t
    ensures a == b && s == t
  {
    var whole := a + [NUL] + s;
    assert whole[|a|] == NUL && whole[|a| + 1..] == s;
    assert whole[|b|] == NUL && whole[|b| + 1..] == t;
    assert forall k :: |a| < k < |whole| ==> whole[k] == s[k - |a| - 1];
    assert forall k :: |b| < k < |whole| ==> whole[k] == t[k - |b| - 1];
    assert |a| == |b|;
    assert a == whole[..|a|] && b == whole[..|b|];
  }

  predicate DistinctMoments(refs: seq<EvidenceRef>) {
    forall i, j :: 0 <= i < j < |refs| ==> EVIDENCE_MOMENT(refs[i]) != EVIDENCE_MOMENT(refs[j])
  }

  /** With distinct IDs and times the evidence is exactly the newest items, as many as allowed, oldest first. */
  lemma EvidenceIsTheNewest(refs: seq<EvidenceRef>, maxItems: nat, format: TimeFormat)
    requires Faithful(format) && DistinctMoments(refs)
    ensures var kept := NormalizedEvidence(refs, maxItems, format);
      && kept == RecentItems(refs, EVIDENCE_MOMENT, maxItems)
      && |kept| == (if |refs| < maxItems then |refs| else maxItems)
      && multiset(kept) <= multiset(refs) && Sorted(Keys(kept, EVIDENCE_MOMENT), OldestFirst())
      && forall k, left :: k in kept && left in multiset(refs) - multiset(kept) ==>
           !NewestFirst()(EVIDENCE_MOMENT(left), EVIDENCE_MOMENT(k))
  {
    var recent := RecentItems(refs, EVIDENCE_MOMENT, maxItems);
    RecentAreTheNewest(refs, EVIDENCE_MOMENT, maxItems);
    forall i, j | 0 <= i < j < |recent| ensures EvidenceKey(format)(recent[i]) != EvidenceKey(format)(recent[j]) {
      DistinctStays(refs, recent, i, j);
      if EvidenceKey(format)(recent[i]) == EvidenceKey(format)(recent[j]) {
        JoinedApart(recent[i].id, format(recent[i].createdAt), recent[j].id, format(recent[j].createdAt));
      }
    }
    AllAreFirst(recent, EvidenceKey(format));
  }

  /** By time, at the same time by ID; what is left out is older, or of the same time with a larger ID. */
  lemma EvidenceOrder(refs: seq<EvidenceRef>, maxItems: nat, format: TimeFormat)
    requires Faithful(format) && DistinctMoments(refs)
    ensures var kept := NormalizedEvidence(refs, maxItems, format);
      && (forall i, j :: 0 <= i < j < |kept| ==>
            NotAfter((kept[i].createdAt, kept[i].id), (kept[j].createdAt, kept[j].id)))
      && (forall k, left :: k in kept && left in multiset(refs) - multiset(kept) ==>
            GivesWay((left.createdAt, left.id), (k.createdAt, k.id)))
  {
    var kept := NormalizedEvidence(refs, maxItems, format);
    EvidenceIsTheNewest(refs, maxItems, format);
    RecentOrder(refs, EVIDENCE_MOMENT, maxItems);
    forall i, j | 0 <= i < j < |kept|
      ensures NotAfter((kept[i].createdAt, kept[i].id), (kept[j].createdAt, kept[j].id))
    {
      assert NotAfter(EVIDENCE_MOMENT(kept[i]), EVIDENCE_MOMENT(kept[j]));
    }
    forall k, left | k in kept && left in multiset(refs) - multiset(kept)
      ensures GivesWay((left.createdAt, left.id), (k.createdAt, k.id))
    {
      assert GivesWay(EVIDENCE_MOMENT(left), EVIDENCE_MOMENT(k));
    }
  }

  lemma DistinctStays(refs: seq<EvidenceRef>, recent: seq<EvidenceRef>, i: nat, j: nat)
    requires DistinctMoments(refs) && multiset(recent) <= multiset(refs) && i < j < |recent|
    ensures EVIDENCE_MOMENT(recent[i]) != EVIDENCE_MOMENT(recent[j])
  {
    var p, q := TwoPlaces(recent, refs, i, j);
  }
}
