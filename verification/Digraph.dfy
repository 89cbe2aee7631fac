/** Reachability by paths over an arbitrary edge relation: the reference every search is compared with. */
module Digraph {
  import opened Ordering

  ghost predicate IsPath<N(!new)>(edge: (N, N) -> bool, p: seq<N>) {
    |p| > 0 && forall i, j :: 0 <= i && j == i + 1 && j < |p| ==> edge(p[i], p[j])
  }

  ghost predicate Connects<N(!new)>(edge: (N, N) -> bool, p: seq<N>, a: N, b: N) {
    IsPath(edge, p) && p[0] == a && p[|p| - 1] == b
  }

  ghost predicate Reaches<N(!new)>(edge: (N, N) -> bool, a: N, b: N) {
    exists p :: Connects(edge, p, a, b)
  }

  ghost predicate OnCycle<N(!new)>(edge: (N, N) -> bool, a: N) {
    exists p :: Connects(edge, p, a, a) && |p| >= 2
  }

  ghost predicate Closed<N(!new)>(edge: (N, N) -> bool, inside: set<N>) {
    forall a, b :: a in inside && edge(a, b) ==> b in inside
  }

  lemma {:induction false} ReachesSelf<N(!new)>(edge: (N, N) -> bool, a: N)
    ensures Reaches(edge, a, a)
  {
    assert Connects(edge, [a], a, a);
  }

  lemma {:induction false} PathPrepend<N(!new)>(edge: (N, N) -> bool, a: N, p: seq<N>)
    requires IsPath(edge, p) && edge(a, p[0])
    ensures IsPath(edge, [a] + p)
  {
    var q := [a] + p;
    forall i, j | 0 <= i && j == i + 1 && j < |q| ensures edge(q[i], q[j]) {
      if i > 0 { assert q[i] == p[i - 1] && q[j] == p[j - 1]; }
    }
  }

  lemma {:induction false} PathAppend<N(!new)>(edge: (N, N) -> bool, p: seq<N>, b: N)
    requires IsPath(edge, p) && edge(p[|p| - 1], b)
    ensures IsPath(edge, p + [b])
  {
    var q := p + [b];
    forall i, j | 0 <= i && j == i + 1 && j < |q| ensures edge(q[i], q[j]) {
      if j < |p| { assert q[i] == p[i] && q[j] == p[j]; }
    }
  }

  lemma {:induction false} PathTail<N(!new)>(edge: (N, N) -> bool, p: seq<N>)
    requires IsPath(edge, p) && |p| > 1
    ensures edge(p[0], p[1]) && IsPath(edge, p[1..])
  {
    var q := p[1..];
    forall i, j | 0 <= i && j == i + 1 && j < |q| ensures edge(q[i], q[j]) {
      assert q[i] == p[i + 1] && q[j] == p[j + 1];
    }
  }

  lemma {:induction false} ReachesStep<N(!new)>(edge: (N, N) -> bool, a: N, b: N, c: N)
    requires edge(a, b) && Reaches(edge, b, c)
    ensures Reaches(edge, a, c)
  {
    var p :| Connects(edge, p, b, c);
    PathPrepend(edge, a, p);
    assert Connects(edge, [a] + p, a, c);
  }

  lemma {:induction false} ReachesEdge<N(!new)>(edge: (N, N) -> bool, a: N, b: N, c: N)
    requires Reaches(edge, a, b) && edge(b, c)
    ensures Reaches(edge, a, c)
  {
    var p :| Connects(edge, p, a, b);
    PathAppend(edge, p, c);
    assert Connects(edge, p + [c], a, c);
  }

  lemma {:induction false} ReachesTrans<N(!new)>(edge: (N, N) -> bool, a: N, b: N, c: N)
    requires Reaches(edge, a, b) && Reaches(edge, b, c)
    ensures Reaches(edge, a, c)
  {
    var p :| Connects(edge, p, a, b);
    ReachesAlong(edge, p, a, b, c);
  }

  lemma {:induction false} ReachesAlong<N(!new)>(edge: (N, N) -> bool, p: seq<N>, a: N, b: N, c: N)
    requires Connects(edge, p, a, b) && Reaches(edge, b, c)
    ensures Reaches(edge, a, c)
    decreases |p|
  {
    if |p| > 1 {
      PathTail(edge, p);
      ReachesAlong(edge, p[1..], p[1], b, c);
      ReachesStep(edge, a, p[1], c);
    }
  }

  /** What is reached from inside a closed set stays inside it. */
  lemma {:induction false} PathStaysInside<N(!new)>(edge: (N, N) -> bool, inside: set<N>, p: seq<N>)
    requires IsPath(edge, p) && p[0] in inside && Closed(edge, inside)
    ensures p[|p| - 1] in inside
    decreases |p|
  {
    if |p| > 1 {
      PathTail(edge, p);
      PathStaysInside(edge, inside, p[1..]);
    }
  }

  lemma {:induction false} ReachesInside<N(!new)>(edge: (N, N) -> bool, inside: set<N>, a: N, b: N)
    requires Reaches(edge, a, b) && a in inside && Closed(edge, inside)
    ensures b in inside
  {
    var p :| Connects(edge, p, a, b);
    PathStaysInside(edge, inside, p);
  }

  /** A symmetric relation is reached backwards too. */
  lemma {:induction false} ReachesBack<N(!new)>(edge: (N, N) -> bool, a: N, b: N)
    requires forall x, y :: edge(x, y) ==> edge(y, x)
    requires Reaches(edge, a, b)
    ensures Reaches(edge, b, a)
  {
    var p :| Connects(edge, p, a, b);
    BackAlong(edge, p, a, b);
  }

  lemma {:induction false} BackAlong<N(!new)>(edge: (N, N) -> bool, p: seq<N>, a: N, b: N)
    requires forall x, y :: edge(x, y) ==> edge(y, x)
    requires Connects(edge, p, a, b)
    ensures Reaches(edge, b, a)
    decreases |p|
  {
    if |p| == 1 {
      ReachesSelf(edge, a);
    } else {
      PathTail(edge, p);
      BackAlong(edge, p[1..], p[1], b);
      ReachesEdge(edge, b, p[1], a);
    }
  }

  /** Two relations that agree inside a set closed under one of them have the same paths from there. */
  lemma {:induction false} SamePaths<N(!new)>(e: (N, N) -> bool, f: (N, N) -> bool, inside: set<N>, p: seq<N>)
    requires Closed(e, inside)
    requires forall a, b :: a in inside ==> e(a, b) == f(a, b)
    requires |p| > 0 && p[0] in inside
    ensures IsPath(e, p) <==> IsPath(f, p)
    decreases |p|
  {
    if |p| > 1 {
      if IsPath(e, p) {
        PathTail(e, p);
        SamePaths(e, f, inside, p[1..]);
        PathPrepend(f, p[0], p[1..]);
        assert [p[0]] + p[1..] == p;
      }
      if IsPath(f, p) {
        PathTail(f, p);
        SamePaths(e, f, inside, p[1..]);
        PathPrepend(e, p[0], p[1..]);
        assert [p[0]] + p[1..] == p;
      }
    }
  }

  lemma {:induction false} SameReach<N(!new)>(e: (N, N) -> bool, f: (N, N) -> bool, inside: set<N>, a: N, b: N)
    requires Closed(e, inside) && a in inside
    requires forall x, y :: x in inside ==> e(x, y) == f(x, y)
    ensures Reaches(e, a, b) <==> Reaches(f, a, b)
  {
    if Reaches(e, a, b) {
      var p :| Connects(e, p, a, b);
      SamePaths(e, f, inside, p);
      assert Connects(f, p, a, b);
    }
    if Reaches(f, a, b) {
      var p :| Connects(f, p, a, b);
      SamePaths(e, f, inside, p);
      assert Connects(e, p, a, b);
    }
  }

  lemma {:induction false} SameCycles<N(!new)>(e: (N, N) -> bool, f: (N, N) -> bool, inside: set<N>, a: N)
    requires Closed(e, inside) && a in inside
    requires forall x, y :: x in inside ==> e(x, y) == f(x, y)
    ensures OnCycle(e, a) <==> OnCycle(f, a)
  {
    if OnCycle(e, a) {
      var p :| Connects(e, p, a, a) && |p| >= 2;
      SamePaths(e, f, inside, p);
      assert Connects(f, p, a, a);
    }
    if OnCycle(f, a) {
      var p :| Connects(f, p, a, a) && |p| >= 2;
      SamePaths(e, f, inside, p);
      assert Connects(e, p, a, a);
    }
  }

  /** Every node comes after all of its successors. */
  ghost predicate DependenciesFirst<N(!new)>(edge: (N, N) -> bool, order: seq<N>) {
    forall i, d :: 0 <= i < |order| && edge(order[i], d) ==> d in order[..i]
  }

  /** Along edges, positions in a dependencies-first order strictly fall. */
  lemma {:induction false} PathDescends<N(!new)>(edge: (N, N) -> bool, order: seq<N>, p: seq<N>, k: nat) returns (j: nat)
    requires DependenciesFirst(edge, order)
    requires IsPath(edge, p) && k < |order| && order[k] == p[0]
    ensures j <= k && order[j] == p[|p| - 1]
    ensures |p| >= 2 ==> j < k
    decreases |p|
  {
    if |p| == 1 {
      j := k;
    } else {
      PathTail(edge, p);
      var k' :| 0 <= k' < k && order[k'] == p[1];
      j := PathDescends(edge, order, p[1..], k');
    }
  }

  /** So a dependencies-first order leaves no room for a cycle. */
  lemma {:induction false} OrderedMeansAcyclic<N(!new)>(edge: (N, N) -> bool, order: seq<N>, a: N)
    requires DependenciesFirst(edge, order) && Distinct(order) && a in order
    ensures !OnCycle(edge, a)
  {
    if OnCycle(edge, a) {
      var p :| Connects(edge, p, a, a) && |p| >= 2;
      var k :| 0 <= k < |order| && order[k] == a;
      var j := PathDescends(edge, order, p, k);
      assert false;
    }
  }

  lemma {:induction false} OrderedMeansClosed<N(!new)>(edge: (N, N) -> bool, order: seq<N>)
    requires DependenciesFirst(edge, order)
    ensures Closed(edge, Elements(order))
  {
    forall a, b | a in Elements(order) && edge(a, b) ensures b in Elements(order) {
      var i :| 0 <= i < |order| && order[i] == a;
      assert b in order[..i];
    }
  }
}
