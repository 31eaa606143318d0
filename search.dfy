/** The bookkeeping of the depth-first search that validates a function:
    a visited map from vertices to flags, as `std::map<BasicBlock *, bool>`
    holds it, and what a search that has run so far guarantees about it.
    Everything here is about a graph given as a successor map, so it holds
    for any vertex type. */
module DepthFirst {
  import opened Digraph

  /** The vertices a visited map records as visited. */
  ghost function Marked<T>(visited: map<T, bool>): set<T>
  {
    set b | b in visited && visited[b]
  }

  /** No entry of the visited map is left unvisited. */
  predicate AllVisited<T>(visited: map<T, bool>)
  {
    forall b | b in visited :: visited[b]
  }

  /** `v1` is `v0` after more of the search: no entry lost, every new
      entry visited, nothing visited forgotten. */
  ghost predicate Extends<T>(v0: map<T, bool>, v1: map<T, bool>)
  {
    && v0.Keys <= v1.Keys
    && (forall b :: b in v1 && b !in v0 ==> v1[b])
    && Marked(v0) <= Marked(v1)
  }

  /** Every vertex visited between `v0` and `v1`, `skip` aside, has all its
      successors visited in `v1`. */
  ghost predicate ClosedBeyond<T>(g: map<T, set<T>>, v0: map<T, bool>, v1: map<T, bool>, skip: set<T>)
  {
    forall b :: b in Marked(v1) - Marked(v0) - skip && b in g ==> g[b] <= Marked(v1)
  }

  /** Every vertex visited between `v0` and `v1` is reachable from `root`. */
  ghost predicate ReachedFrom<T>(g: map<T, set<T>>, root: T, v0: map<T, bool>, v1: map<T, bool>)
  {
    forall b :: b in Marked(v1) - Marked(v0) ==> Reachable(g, root, b)
  }

  /** What holds while the search started at `root` (on the visited map
      `v0`) walks the successors of `root`: `root` is visited, everything
      visited since is reachable from it, and everything visited since
      except `root` has its successors visited. */
  ghost predicate Searching<T>(g: map<T, set<T>>, root: T, v0: map<T, bool>, v: map<T, bool>)
  {
    && Extends(v0, v)
    && Marked(v) <= g.Keys
    && root in Marked(v)
    && ClosedBeyond(g, v0, v, {root})
    && ReachedFrom(g, root, v0, v)
  }

  /** The successors of the first `i` tags in `tags` are all in `m`. */
  ghost predicate PrefixMarked<K, T>(succ: map<K, T>, tags: seq<K>, i: nat, m: set<T>)
  {
    && i <= |tags|
    && forall j :: 0 <= j < i ==> tags[j] in succ && succ[tags[j]] in m
  }

  lemma {:induction false} SubsetNoLarger<T>(a: set<T>, b: set<T>)
    requires a <= b
    ensures |a| <= |b|
    decreases a
  {
    if a != {} {
      var x :| x in a;
      SubsetNoLarger(a - {x}, b - {x});
    }
  }

  /** Marking `root` starts the search. */
  lemma StartSearch<T>(g: map<T, set<T>>, root: T, v0: map<T, bool>)
    requires root in g && Marked(v0) <= g.Keys && root !in Marked(v0)
    ensures Searching(g, root, v0, v0[root := true])
  {
    var v := v0[root := true];
    assert Marked(v) == Marked(v0) + {root};
    forall b | b in Marked(v) - Marked(v0)
      ensures Reachable(g, root, b)
    {
      ReachableSelf(g, root);
    }
  }

  /** Inserting an unvisited successor `s` of `root` unvisited changes no
      mark, and `s` may be searched from next: fewer vertices of `g` are
      left unvisited than when the search from `root` began. */
  lemma ReadyToVisit<T>(g: map<T, set<T>>, root: T, v0: map<T, bool>, v: map<T, bool>, s: T)
    requires ClosedUnder(g, g.Keys) && root in g && s in g[root]
    requires Searching(g, root, v0, v) && s !in Marked(v)
    requires root !in Marked(v0)
    ensures s in g
    ensures Marked(v[s := false]) == Marked(v) && s !in Marked(v[s := false])
    ensures |g.Keys - Marked(v[s := false])| < |g.Keys - Marked(v0)|
  {
    var v' := v[s := false];
    assert Marked(v') == Marked(v);
    SubsetNoLarger(g.Keys - Marked(v'), g.Keys - Marked(v0) - {root});
  }

  /** The search from an unvisited successor `s` of `root`, begun after
      `s` was inserted unvisited, keeps the search from `root` going. */
  lemma VisitedSuccessor<T>(g: map<T, set<T>>, root: T, v0: map<T, bool>,
                            v: map<T, bool>, after: map<T, bool>, s: T)
    requires root in g && s in g[root]
    requires Searching(g, root, v0, v) && s !in Marked(v)
    requires Extends(v[s := false], after) && Marked(after) <= g.Keys && s in Marked(after)
    requires ClosedBeyond(g, v[s := false], after, {}) && ReachedFrom(g, s, v[s := false], after)
    ensures Searching(g, root, v0, after)
    ensures Marked(v) <= Marked(after)
  {
    var before := v[s := false];
    assert Marked(before) == Marked(v);
    forall b | b in after && b !in v0
      ensures after[b]
    {
      if b in v {
        assert b in Marked(v);
      } else if b != s {
        assert b !in before;
      }
    }
    forall b | b in Marked(after) - Marked(before)
      ensures Reachable(g, root, b)
    {
      ReachableStep(g, root, s, b);
    }
  }

  /** One more tag done. */
  lemma PrefixMarkedStep<K, T>(succ: map<K, T>, tags: seq<K>, i: nat, m: set<T>, m': set<T>)
    requires PrefixMarked(succ, tags, i, m) && m <= m'
    requires i < |tags| && tags[i] in succ && succ[tags[i]] in m'
    ensures PrefixMarked(succ, tags, i + 1, m')
  {
  }

  /** Once every successor of `root` is visited, `root` is no exception
      any more: everything visited since has its successors visited. */
  lemma FinishSearch<K, T>(g: map<T, set<T>>, root: T, v0: map<T, bool>, v: map<T, bool>,
                           succ: map<K, T>, tags: seq<K>)
    requires Searching(g, root, v0, v)
    requires root in g && g[root] == succ.Values
    requires forall k :: k in succ ==> k in tags
    requires PrefixMarked(succ, tags, |tags|, Marked(v))
    ensures ClosedBeyond(g, v0, v, {})
  {
    forall t | t in succ.Values
      ensures t in Marked(v)
    {
      var k :| k in succ && succ[k] == t;
      var j :| 0 <= j < |tags| && tags[j] == k;
    }
  }

  /** A search from `root` begun with nothing marked marks exactly the
      vertices reachable from `root`. */
  lemma SearchMarksReachable<T>(g: map<T, set<T>>, root: T, v0: map<T, bool>, v: map<T, bool>)
    requires Marked(v0) == {} && root in Marked(v)
    requires ClosedBeyond(g, v0, v, {}) && ReachedFrom(g, root, v0, v)
    ensures forall b :: b in Marked(v) <==> Reachable(g, root, b)
  {
    assert ClosedUnder(g, Marked(v));
    forall b | Reachable(g, root, b)
      ensures b in Marked(v)
    {
      ClosedSetHoldsReachable(g, Marked(v), root, b);
    }
  }

  /** The verdict of a search from `root` over a visited map that held
      every vertex of `vs` unvisited: every entry is visited exactly when
      every vertex of `vs` is reachable from `root`. */
  lemma SearchVerdict<T>(g: map<T, set<T>>, root: T, vs: set<T>,
                         registered: map<T, bool>, visited: map<T, bool>)
    requires registered.Keys == vs && Marked(registered) == {}
    requires Extends(registered, visited) && root in Marked(visited)
    requires ClosedBeyond(g, registered, visited, {}) && ReachedFrom(g, root, registered, visited)
    ensures AllVisited(visited) <==> ReachesAll(g, root, vs)
  {
    if ReachesAll(g, root, vs) {
      assert ClosedUnder(g, Marked(visited));
      forall b | b in visited
        ensures visited[b]
      {
        if b in registered {
          ClosedSetHoldsReachable(g, Marked(visited), root, b);
        }
      }
    }
    if AllVisited(visited) {
      forall b | b in vs
        ensures Reachable(g, root, b)
      {
        assert b in Marked(visited);
      }
    }
  }
}
