/** Reachability and cycles in a finite set of directed edges. */
module Digraph {

  /** `v` can be reached from `u` in exactly `n` edges. */
  ghost predicate ReachesIn<T(!new)>(edges: set<(T, T)>, u: T, v: T, n: nat) {
    if n == 0 then u == v
    else exists w :: (u, w) in edges && ReachesIn(edges, w, v, n - 1)
  }

  ghost predicate Reaches<T(!new)>(edges: set<(T, T)>, u: T, v: T) {
    exists n: nat :: ReachesIn(edges, u, v, n)
  }

  /** No closed walk uses an edge that leaves `t`. */
  ghost predicate NoCycleThrough<T(!new)>(edges: set<(T, T)>, t: T) {
    forall v :: (t, v) in edges ==> !Reaches(edges, v, t)
  }

  ghost predicate Acyclic<T(!new)>(edges: set<(T, T)>) {
    forall u, v :: (u, v) in edges ==> !Reaches(edges, v, u)
  }

  lemma ReachesSelf<T(!new)>(edges: set<(T, T)>, u: T)
    ensures Reaches(edges, u, u)
  {
    assert ReachesIn(edges, u, u, 0);
  }

  lemma ReachesByEdge<T(!new)>(edges: set<(T, T)>, u: T, w: T, v: T)
    requires (u, w) in edges && Reaches(edges, w, v)
    ensures Reaches(edges, u, v)
  {
    var n: nat :| ReachesIn(edges, w, v, n);
    assert ReachesIn(edges, u, v, n + 1);
  }

  lemma EdgeReaches<T(!new)>(edges: set<(T, T)>, u: T, v: T)
    requires (u, v) in edges
    ensures Reaches(edges, u, v)
  {
    ReachesSelf(edges, v);
    ReachesByEdge(edges, u, v, v);
  }

  lemma {:induction false} ReachesTransitiveIn<T(!new)>(edges: set<(T, T)>, u: T, v: T, w: T, n: nat)
    requires ReachesIn(edges, u, v, n) && Reaches(edges, v, w)
    ensures Reaches(edges, u, w)
    decreases n
  {
    if n > 0 {
      var x :| (u, x) in edges && ReachesIn(edges, x, v, n - 1);
      ReachesTransitiveIn(edges, x, v, w, n - 1);
      ReachesByEdge(edges, u, x, w);
    }
  }

  lemma ReachesTransitive<T(!new)>(edges: set<(T, T)>, u: T, v: T, w: T)
    requires Reaches(edges, u, v) && Reaches(edges, v, w)
    ensures Reaches(edges, u, w)
  {
    var n: nat :| ReachesIn(edges, u, v, n);
    ReachesTransitiveIn(edges, u, v, w, n);
  }

  lemma {:induction false} ReachesMonotoneIn<T(!new)>(small: set<(T, T)>, large: set<(T, T)>, u: T, v: T, n: nat)
    requires small <= large && ReachesIn(small, u, v, n)
    ensures ReachesIn(large, u, v, n)
    decreases n
  {
    if n > 0 {
      var w :| (u, w) in small && ReachesIn(small, w, v, n - 1);
      ReachesMonotoneIn(small, large, w, v, n - 1);
    }
  }

  lemma ReachesMonotone<T(!new)>(small: set<(T, T)>, large: set<(T, T)>, u: T, v: T)
    requires small <= large && Reaches(small, u, v)
    ensures Reaches(large, u, v)
  {
    var n: nat :| ReachesIn(small, u, v, n);
    ReachesMonotoneIn(small, large, u, v, n);
  }

  lemma NoCycleMonotone<T(!new)>(small: set<(T, T)>, large: set<(T, T)>, t: T)
    requires small <= large && NoCycleThrough(large, t)
    ensures NoCycleThrough(small, t)
  {
    forall v | (t, v) in small ensures !Reaches(small, v, t) {
      if Reaches(small, v, t) {
        ReachesMonotone(small, large, v, t);
      }
    }
  }

  lemma AcyclicMonotone<T(!new)>(small: set<(T, T)>, large: set<(T, T)>)
    requires small <= large && Acyclic(large)
    ensures Acyclic(small)
  {
    forall u, v | (u, v) in small ensures !Reaches(small, v, u) {
      if Reaches(small, v, u) {
        ReachesMonotone(small, large, v, u);
      }
    }
  }

  /** A set of vertices that edges never leave keeps every walk inside. */
  lemma {:induction false} ClosedSetKeepsWalk<T(!new)>(edges: set<(T, T)>, inside: set<T>, u: T, v: T)
    requires forall a, b :: (a, b) in edges && a in inside ==> b in inside
    requires u in inside && Reaches(edges, u, v)
    ensures v in inside
  {
    var n: nat :| ReachesIn(edges, u, v, n);
    ClosedSetKeepsWalkIn(edges, inside, u, v, n);
  }

  lemma {:induction false} ClosedSetKeepsWalkIn<T(!new)>(edges: set<(T, T)>, inside: set<T>, u: T, v: T, n: nat)
    requires forall a, b :: (a, b) in edges && a in inside ==> b in inside
    requires u in inside && ReachesIn(edges, u, v, n)
    ensures v in inside
    decreases n
  {
    if n > 0 {
      var w :| (u, w) in edges && ReachesIn(edges, w, v, n - 1);
      ClosedSetKeepsWalkIn(edges, inside, w, v, n - 1);
    }
  }

  /** A walk that uses a new edge passes through both of its ends. */
  lemma {:induction false} ReachesWithNewEdge<T(!new)>(edges: set<(T, T)>, a: T, b: T, u: T, v: T, n: nat)
    requires ReachesIn(edges + {(a, b)}, u, v, n)
    ensures Reaches(edges, u, v) || (Reaches(edges, u, a) && Reaches(edges, b, v))
    decreases n
  {
    if n == 0 {
      ReachesSelf(edges, u);
    } else {
      var w :| (u, w) in edges + {(a, b)} && ReachesIn(edges + {(a, b)}, w, v, n - 1);
      ReachesWithNewEdge(edges, a, b, w, v, n - 1);
      if (u, w) in edges {
        if Reaches(edges, w, v) {
          ReachesByEdge(edges, u, w, v);
        } else {
          ReachesByEdge(edges, u, w, a);
        }
      } else {
        ReachesSelf(edges, u);
      }
    }
  }

  /** Adding an edge whose head does not reach its tail puts no vertex on a new cycle. */
  lemma SafeEdgeAddsNoCycle<T(!new)>(edges: set<(T, T)>, a: T, b: T, t: T)
    requires NoCycleThrough(edges, t)
    requires !Reaches(edges, b, a)
    ensures NoCycleThrough(edges + {(a, b)}, t)
  {
    var grown := edges + {(a, b)};
    forall v | (t, v) in grown ensures !Reaches(grown, v, t) {
      if Reaches(grown, v, t) {
        var n: nat :| ReachesIn(grown, v, t, n);
        ReachesWithNewEdge(edges, a, b, v, t, n);
        if (t, v) in edges {
          ReachesByEdge(edges, t, v, a);
          ReachesTransitive(edges, b, t, a);
        }
      }
    }
  }

  /** Every non-empty set of vertices of an acyclic graph has one with no edge back into the set. */
  lemma {:induction false} AcyclicHasSink<T(!new)>(edges: set<(T, T)>, s: set<T>) returns (sink: T)
    requires Acyclic(edges) && s != {}
    ensures sink in s && forall y :: y in s ==> (sink, y) !in edges
    decreases |s|
  {
    var x :| x in s;
    ghost var below := set y | y in s && y != x && Reaches(edges, x, y);
    if below == {} {
      sink := x;
      assert forall y :: y in s && y != x && Reaches(edges, x, y) ==> y in below;
      forall y | y in s ensures (x, y) !in edges {
        if (x, y) in edges {
          EdgeReaches(edges, x, y);
          ReachesSelf(edges, x);
        }
      }
    } else {
      SubsetIsSmaller(below, s, x);
      sink := AcyclicHasSink(edges, below);
      forall y | y in s ensures (sink, y) !in edges {
        if (sink, y) in edges {
          EdgeReaches(edges, sink, y);
          ReachesTransitive(edges, x, sink, y);
        }
      }
    }
  }

  lemma SubsetIsSmaller<T>(small: set<T>, large: set<T>, missing: T)
    requires small <= large && missing in large && missing !in small
    ensures |small| < |large|
  {
    assert large == (large - small) + small;
    assert missing in large - small;
  }

  /** A map of vertices that sends edges to edges sends walks to walks. */
  lemma {:induction false} HomomorphismIn<S(!new), T(!new)>(
      edges: set<(S, S)>, image: set<(T, T)>, inside: set<S>, f: S -> T, u: S, v: S, n: nat)
    requires forall a, b :: (a, b) in edges ==> b in inside
    requires forall a, b :: (a, b) in edges && a in inside ==> (f(a), f(b)) in image
    requires u in inside && ReachesIn(edges, u, v, n)
    ensures Reaches(image, f(u), f(v))
    decreases n
  {
    if n == 0 {
      ReachesSelf(image, f(u));
    } else {
      var w :| (u, w) in edges && ReachesIn(edges, w, v, n - 1);
      HomomorphismIn(edges, image, inside, f, w, v, n - 1);
      ReachesByEdge(image, f(u), f(w), f(v));
    }
  }

  /** The vertex a walk ends in is its start or the head of an edge. */
  lemma {:induction false} WalkEndsAtHead<T(!new)>(edges: set<(T, T)>, u: T, v: T, n: nat)
    requires ReachesIn(edges, u, v, n)
    ensures u == v || exists a :: (a, v) in edges
    decreases n
  {
    if n > 0 {
      var w :| (u, w) in edges && ReachesIn(edges, w, v, n - 1);
      WalkEndsAtHead(edges, w, v, n - 1);
    }
  }

  /** Acyclicity is inherited along a map that sends edges to edges on every head. */
  lemma AcyclicFromImage<S(!new), T(!new)>(edges: set<(S, S)>, image: set<(T, T)>, inside: set<S>, f: S -> T)
    requires Acyclic(image)
    requires forall a, b :: (a, b) in edges ==> b in inside
    requires forall a, b :: (a, b) in edges && a in inside ==> (f(a), f(b)) in image
    ensures Acyclic(edges)
  {
    forall u, v | (u, v) in edges ensures !Reaches(edges, v, u) {
      if Reaches(edges, v, u) {
        var n: nat :| ReachesIn(edges, v, u, n);
        WalkEndsAtHead(edges, v, u, n);
        assert u in inside;
        HomomorphismIn(edges, image, inside, f, v, u, n);
      }
    }
  }
}
