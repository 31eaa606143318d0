/** Reachability in a finite directed graph given as a successor map.
    The control-flow graph of a function is one such graph: a block maps to
    the set of blocks its tagged successor edges point at. */
module Digraph {

  /** `p` is a non-empty walk through the vertices of `g`: each element is
      followed by one of its successors. */
  ghost predicate IsPath<T>(g: map<T, set<T>>, older p: seq<T>)
  {
    && |p| > 0
    && (forall i :: 0 <= i < |p| ==> p[i] in g)
    && (forall i :: 0 <= i < |p| - 1 ==> p[i + 1] in g[p[i]])
  }

  /** `b` can be reached from `a` by following zero or more edges of `g`. */
  ghost predicate Reachable<T>(g: map<T, set<T>>, a: T, b: T)
  {
    exists p :: IsPath(g, p) && p[0] == a && p[|p| - 1] == b
  }

  /** Every vertex of `s` can be reached from `a`. */
  ghost predicate ReachesAll<T>(g: map<T, set<T>>, a: T, s: set<T>)
  {
    forall b :: b in s ==> Reachable(g, a, b)
  }

  /** No edge of `g` leaves `s`. */
  ghost predicate ClosedUnder<T>(g: map<T, set<T>>, s: set<T>)
  {
    forall x :: x in s && x in g ==> g[x] <= s
  }

  lemma ReachableSelf<T>(g: map<T, set<T>>, a: T)
    requires a in g
    ensures Reachable(g, a, a)
  {
    assert IsPath(g, [a]);
  }

  /** A block reaches whatever its successors reach. */
  lemma ReachableStep<T>(g: map<T, set<T>>, a: T, s: T, b: T)
    requires a in g && s in g[a]
    requires Reachable(g, s, b)
    ensures Reachable(g, a, b)
  {
    var p :| IsPath(g, p) && p[0] == s && p[|p| - 1] == b;
    var q := [a] + p;
    assert forall i :: 1 <= i < |q| ==> q[i] == p[i - 1];
    assert IsPath(g, q);
  }

  /** Every vertex of a walk that starts inside a closed set stays inside it. */
  lemma {:induction false} PathStaysInClosedSet<T>(g: map<T, set<T>>, s: set<T>, p: seq<T>, n: nat)
    requires IsPath(g, p) && p[0] in s && ClosedUnder(g, s)
    requires n < |p|
    ensures p[n] in s
  {
    if n > 0 {
      PathStaysInClosedSet(g, s, p, n - 1);
    }
  }

  /** A set that holds `a` and that no edge leaves holds everything reachable from `a`. */
  lemma ClosedSetHoldsReachable<T>(g: map<T, set<T>>, s: set<T>, a: T, b: T)
    requires a in s && ClosedUnder(g, s)
    requires Reachable(g, a, b)
    ensures b in s
  {
    var p :| IsPath(g, p) && p[0] == a && p[|p| - 1] == b;
    PathStaysInClosedSet(g, s, p, |p| - 1);
  }
}
