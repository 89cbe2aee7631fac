/** The worklist that splits nodes into connected components, and the connectivity check built on it. */
module Components {
  import opened Ordering
  import opened Digraph

  type Neighbors = map<string, set<string>>

  function Near(g: Neighbors, x: string): set<string> {
    if x in g then g[x] else {}
  }

  /** An edge between two members. */
  function Edges(g: Neighbors, members: set<string>): (string, string) -> bool {
    (x, y) => x in members && y in members && y in Near(g, x)
  }

  ghost predicate Undirected(g: Neighbors) {
    forall x, y :: y in Near(g, x) ==> x in Near(g, y)
  }

  /** Everything a member can reach. */
  ghost function Class(g: Neighbors, members: set<string>, x: string): set<string> {
    set y | y in members && Reaches(Edges(g, members), x, y)
  }

  ghost predicate Connected(g: Neighbors, members: set<string>) {
    forall x, y :: x in members && y in members ==> Reaches(Edges(g, members), x, y)
  }

  /** A set that is left through no edge is entered through none. */
  lemma {:induction false} ClosedBothWays(g: Neighbors, members: set<string>, inside: set<string>, x: string, y: string)
    requires Undirected(g) && Closed(Edges(g, members), inside) && Edges(g, members)(x, y) && y in inside
    ensures x in inside
  {
    assert Edges(g, members)(y, x);
  }

  /** Moves the unvisited neighbours of one node to the component and the frontier. */
  method Spread(near: set<string>, rest: set<string>, part: set<string>, frontier: seq<string>)
    returns (rest': set<string>, part': set<string>, frontier': seq<string>)
    ensures rest' == rest - near && part' == part + (rest * near)
    ensures Elements(frontier') == Elements(frontier) + (rest * near)
    ensures rest' == rest ==> frontier' == frontier
  {
    rest', part', frontier' := rest, part, frontier;
    var todo := near;
    while todo != {}
      invariant todo <= near
      invariant forall x :: x in rest' <==> x in rest && (x !in near || x in todo)
      invariant forall x :: x in part' <==> x in part || (x in rest && x in near && x !in todo)
      invariant forall x :: x in frontier' <==> x in frontier || (x in rest && x in near && x !in todo)
      invariant rest' <= rest && (rest' == rest ==> frontier' == frontier)
      decreases |todo|
    {
      var neighbor :| neighbor in todo;
      todo := todo - {neighbor};
      if neighbor in rest' {
        rest' := rest' - {neighbor};
        part' := part' + {neighbor};
        frontier' := frontier' + [neighbor];
      }
    }
  }

  /** What the walk from `start` keeps: it has only reached nodes, and every node done with has no unvisited neighbour. */
  ghost predicate Walking(g: Neighbors, members: set<string>, start: string, part: set<string>, frontier: set<string>, rest: set<string>) {
    && start in part && frontier <= part && part !! rest
    && (forall y :: y in part ==> y in members && Reaches(Edges(g, members), start, y))
    && (forall x, y :: x in part && x !in frontier && Edges(g, members)(x, y) ==> y !in rest)
  }

  lemma {:induction false} WalkStep(g: Neighbors, members: set<string>, start: string, part: set<string>, frontier: set<string>, rest: set<string>,
                                    current: string, left: set<string>)
    requires Walking(g, members, start, part, frontier, rest) && current in frontier && frontier - {current} <= left <= frontier && rest <= members
    ensures var near := Near(g, current) * members;
            Walking(g, members, start, part + (rest * near), left + (rest * near), rest - near)
  {
    var edge, near := Edges(g, members), Near(g, current) * members;
    forall y | y in rest * near ensures Reaches(edge, start, y) {
      assert edge(current, y);
      ReachesEdge(edge, start, current, y);
    }
    forall x, y | x in part + (rest * near) && x !in left + (rest * near) && edge(x, y) ensures y !in rest - near {
      if x == current { assert y in near; }
    }
  }

  /** A finished walk has found the start's whole class. */
  lemma {:induction false} WalkDone(g: Neighbors, members: set<string>, start: string, part: set<string>, unvisited: set<string>)
    requires Undirected(g) && unvisited <= members && part <= unvisited && Closed(Edges(g, members), members - unvisited)
    requires Walking(g, members, start, part, {}, unvisited - part)
    ensures part == Class(g, members, start) && Closed(Edges(g, members), members - (unvisited - part))
  {
    var edge := Edges(g, members);
    forall x, y | x in part && edge(x, y) ensures y in part {
      if y in members - unvisited { ClosedBothWays(g, members, members - unvisited, x, y); }
    }
    forall y | y in Class(g, members, start) ensures y in part {
      ReachesInside(edge, part, start, y);
    }
  }

  /** One walk: the component of `start`, taken out of the unvisited nodes. */
  method Walk(g: Neighbors, members: set<string>, start: string, unvisited: set<string>) returns (part: set<string>, rest: set<string>)
    requires Undirected(g) && start in unvisited && unvisited <= members && Closed(Edges(g, members), members - unvisited)
    ensures part == Class(g, members, start) && part <= unvisited && rest == unvisited - part
    ensures Closed(Edges(g, members), members - rest)
  {
    rest := unvisited - {start};
    part := {start};
    var frontier := [start];
    ReachesSelf(Edges(g, members), start);
    assert Elements(frontier) == {start};
    while frontier != []
      invariant part <= unvisited && rest == unvisited - part
      invariant Walking(g, members, start, part, Elements(frontier), rest)
      decreases |rest|, |frontier|
    {
      rest, part, frontier := Visit(g, members, start, part, frontier, rest);
    }
    EmptyElements(frontier);
    WalkDone(g, members, start, part, unvisited);
  }

  /** Takes the last node off the frontier and spreads from it. */
  method Visit(g: Neighbors, members: set<string>, start: string, part: set<string>, frontier: seq<string>, rest: set<string>)
    returns (rest': set<string>, part': set<string>, frontier': seq<string>)
    requires frontier != [] && rest <= members && Walking(g, members, start, part, Elements(frontier), rest)
    ensures Walking(g, members, start, part', Elements(frontier'), rest')
    ensures part <= part' <= part + rest && rest' == rest - part'
    ensures |rest'| < |rest| || (|rest'| == |rest| && |frontier'| < |frontier|)
  {
    var current, left := frontier[|frontier| - 1], frontier[..|frontier| - 1];
    assert frontier == left + [current];
    PopElements(left, current, Elements(frontier));
    WalkStep(g, members, start, part, Elements(frontier), rest, current, Elements(left));
    rest', part', frontier' := Spread(Near(g, current) * members, rest, part, left);
    if rest' != rest { SmallerSet(rest', rest); }
  }

  lemma {:induction false} PopElements(left: seq<string>, current: string, before: set<string>)
    requires before == Elements(left + [current])
    ensures before == Elements(left) + {current}
  {
    assert forall x :: x in left + [current] <==> x in left || x == current;
  }

  lemma {:induction false} SmallerSet<T>(a: set<T>, b: set<T>)
    requires a < b
    ensures |a| < |b|
  {
    var x :| x in b && x !in a;
    SubsetSize(a, b - {x});
  }

  /** The parts are exactly the classes of the visited nodes, each once. */
  ghost predicate Parted(g: Neighbors, members: set<string>, visited: set<string>, parts: seq<set<string>>) {
    && (forall x :: x in visited ==> Class(g, members, x) in parts)
    && (forall k :: 0 <= k < |parts| ==> exists x :: x in visited && parts[k] == Class(g, members, x))
    && (forall j, k :: 0 <= j < k < |parts| ==> parts[j] !! parts[k])
    && (forall k :: 0 <= k < |parts| ==> parts[k] <= visited)
  }

  lemma {:induction false} SameClass(g: Neighbors, members: set<string>, x: string, y: string)
    requires Undirected(g) && x in members && y in Class(g, members, x)
    ensures Class(g, members, x) == Class(g, members, y)
  {
    var edge := Edges(g, members);
    assert forall a, b :: edge(a, b) ==> edge(b, a);
    ReachesBack(edge, x, y);
    forall z | z in members ensures z in Class(g, members, x) <==> z in Class(g, members, y) {
      if Reaches(edge, x, z) { ReachesTrans(edge, y, x, z); }
      if Reaches(edge, y, z) { ReachesTrans(edge, x, y, z); }
    }
  }

  lemma {:induction false} PartedStep(g: Neighbors, members: set<string>, visited: set<string>, parts: seq<set<string>>, start: string)
    requires Undirected(g) && Parted(g, members, visited, parts) && start in members && start !in visited
    requires Class(g, members, start) !! visited
    ensures Parted(g, members, visited + Class(g, members, start), parts + [Class(g, members, start)])
  {
    var own := Class(g, members, start);
    var more := parts + [own];
    ReachesSelf(Edges(g, members), start);
    assert more[|parts|] == own;
    forall x | x in visited + own ensures Class(g, members, x) in more {
      if x in own { SameClass(g, members, start, x); } else { assert Class(g, members, x) in parts; }
    }
    forall k | 0 <= k < |more| ensures exists x :: x in visited + own && more[k] == Class(g, members, x) {
      if k < |parts| {
        var x :| x in visited && parts[k] == Class(g, members, x);
        assert x in visited + own;
      } else {
        assert start in visited + own;
      }
    }
  }

  /** The components of the members, whichever start each walk picks. */
  method Split(g: Neighbors, members: set<string>) returns (parts: seq<set<string>>)
    requires Undirected(g)
    ensures Parted(g, members, members, parts)
    ensures |parts| <= 1 <==> Connected(g, members)
  {
    parts := [];
    var unvisited := members;
    while unvisited != {}
      invariant unvisited <= members && Closed(Edges(g, members), members - unvisited)
      invariant Parted(g, members, members - unvisited, parts)
      decreases |unvisited|
    {
      var start :| start in unvisited;
      var part, rest := Walk(g, members, start, unvisited);
      SplitStep(g, members, unvisited, parts, start, part, rest);
      parts := parts + [part];
      unvisited := rest;
    }
    OnePart(g, members, parts);
  }

  lemma {:induction false} SplitStep(g: Neighbors, members: set<string>, unvisited: set<string>, parts: seq<set<string>>,
                                     start: string, part: set<string>, rest: set<string>)
    requires Undirected(g) && unvisited <= members && start in unvisited && Parted(g, members, members - unvisited, parts)
    requires part == Class(g, members, start) && part <= unvisited && rest == unvisited - part
    ensures Parted(g, members, members - rest, parts + [part]) && |rest| < |unvisited|
  {
    PartedStep(g, members, members - unvisited, parts, start);
    assert members - rest == members - unvisited + part;
    ReachesSelf(Edges(g, members), start);
    SmallerSet(rest, unvisited);
  }

  lemma {:induction false} OnePart(g: Neighbors, members: set<string>, parts: seq<set<string>>)
    requires Undirected(g) && Parted(g, members, members, parts)
    ensures |parts| <= 1 <==> Connected(g, members)
  {
    if |parts| <= 1 {
      forall x, y | x in members && y in members ensures Reaches(Edges(g, members), x, y) {
        ReachesSelf(Edges(g, members), y);
        assert y in Class(g, members, y);
        assert Class(g, members, x) == parts[0] == Class(g, members, y);
      }
    } else {
      var x :| x in members && parts[0] == Class(g, members, x);
      var y :| y in members && parts[1] == Class(g, members, y);
      ReachesSelf(Edges(g, members), y);
      assert y in parts[1] && y !in parts[0];
    }
  }
}
