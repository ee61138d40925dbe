/** Paths and reachability in a directed graph given by its edge relation. */
module Reachability {

  ghost predicate IsPath<T(!new)>(edge: (T, T) -> bool, p: seq<T>) {
    && |p| > 0
    && forall i, j :: 0 <= i && j == i + 1 && j < |p| ==> edge(p[i], p[j])
  }

  ghost predicate PathFromTo<T(!new)>(edge: (T, T) -> bool, p: seq<T>, u: T, v: T) {
    IsPath(edge, p) && p[0] == u && p[|p| - 1] == v
  }

  /** There is a path of zero or more edges from `u` to `v`. */
  ghost predicate Reach<T(!new)>(edge: (T, T) -> bool, u: T, v: T) {
    exists p :: PathFromTo(edge, p, u, v)
  }

  ghost predicate Mutual<T(!new)>(edge: (T, T) -> bool, u: T, v: T) {
    Reach(edge, u, v) && Reach(edge, v, u)
  }

  lemma ReachSelf<T(!new)>(edge: (T, T) -> bool, u: T)
    ensures Reach(edge, u, u)
  {
    assert PathFromTo(edge, [u], u, u);
  }

  lemma ReachEdge<T(!new)>(edge: (T, T) -> bool, u: T, v: T)
    requires edge(u, v)
    ensures Reach(edge, u, v)
  {
    assert PathFromTo(edge, [u, v], u, v);
  }

  lemma ReachTransitive<T(!new)>(edge: (T, T) -> bool, u: T, v: T, w: T)
    requires Reach(edge, u, v) && Reach(edge, v, w)
    ensures Reach(edge, u, w)
  {
    var p :| PathFromTo(edge, p, u, v);
    var q :| PathFromTo(edge, q, v, w);
    var r := p + q[1..];
    forall i, j | 0 <= i && j == i + 1 && j < |r|
      ensures edge(r[i], r[j])
    {
      if j < |p| {
        assert edge(p[i], p[j]);
      } else {
        assert edge(q[i - |p| + 1], q[j - |p| + 1]);
      }
    }
    assert PathFromTo(edge, r, u, w);
  }

  /** A set that no edge leaves contains everything reachable from its members. */
  lemma ReachStaysInside<T(!new)>(edge: (T, T) -> bool, inside: T -> bool, u: T, v: T)
    requires inside(u) && Reach(edge, u, v)
    requires forall x, y :: inside(x) && edge(x, y) ==> inside(y)
    ensures inside(v)
  {
    var p :| PathFromTo(edge, p, u, v);
    PathStaysInside(edge, inside, p, |p| - 1);
  }

  lemma {:induction false} PathStaysInside<T(!new)>(edge: (T, T) -> bool, inside: T -> bool, p: seq<T>, k: nat)
    requires IsPath(edge, p) && k < |p| && inside(p[0])
    requires forall x, y :: inside(x) && edge(x, y) ==> inside(y)
    ensures inside(p[k])
  {
    if k > 0 {
      PathStaysInside(edge, inside, p, k - 1);
      assert edge(p[k - 1], p[k]);
    }
  }

  /** A path that is not a single node ends with an edge. */
  lemma LastEdge<T(!new)>(edge: (T, T) -> bool, u: T, v: T) returns (w: T)
    requires Reach(edge, u, v) && u != v
    ensures Reach(edge, u, w) && edge(w, v)
  {
    var p :| PathFromTo(edge, p, u, v);
    var k := |p| - 2;
    w := p[k];
    assert edge(p[k], p[k + 1]);
    assert PathFromTo(edge, p[..k + 1], u, w);
  }
}
