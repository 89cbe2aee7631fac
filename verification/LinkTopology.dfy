/** Static topology of one link rule: which node pairs become candidates, and with which priority. */
module LinkTopology {
  import opened Ordering

  type NodeId = string

  datatype Pair = Pair(a: NodeId, b: NodeId)

  /** `_rank_key`. */
  datatype NodeKey = NodeKey(segment: string, local: string)

  type Keys = map<NodeId, NodeKey>
  type Ranks = map<Pair, real>

  function MakePair(x: NodeId, y: NodeId): Pair {
    if StringLt(x, y) then Pair(x, y) else Pair(y, x)
  }

  function KeyOf(keys: Keys, x: NodeId): NodeKey {
    if x in keys then keys[x] else NodeKey("", "")
  }

  function RankOf(ranks: Ranks, p: Pair): real {
    if p in ranks then ranks[p] else 0.0
  }

  predicate RealLt(x: real, y: real) { x < y }

  predicate NodeKeyLt(x: NodeKey, y: NodeKey) {
    StringLt(x.segment, y.segment) || (!StringLt(y.segment, x.segment) && StringLt(x.local, y.local))
  }

  predicate PairLt(p: Pair, q: Pair) {
    StringLt(p.a, q.a) || (!StringLt(q.a, p.a) && StringLt(p.b, q.b))
  }

  /** By the rank keys of both ends: not a total order, since two nodes may share a key. */
  function KeyOrder(keys: Keys): (Pair, Pair) -> bool {
    Then(By((p: Pair) => KeyOf(keys, p.a), NodeKeyLt), By((p: Pair) => KeyOf(keys, p.b), NodeKeyLt))
  }

  /** The order nearest_n results are returned in. */
  function ResultOrder(keys: Keys): (Pair, Pair) -> bool {
    Then(KeyOrder(keys), PairLt)
  }

  /** The order nearest_n considers pairs in. */
  function RankOrder(keys: Keys, ranks: Ranks): (Pair, Pair) -> bool {
    Then(By((p: Pair) => RankOf(ranks, p), RealLt), ResultOrder(keys))
  }

  lemma {:induction false} NodeKeyTotal()
    ensures StrictTotal(NodeKeyLt)
  {
    StringTotal();
  }

  lemma {:induction false} PairTotal()
    ensures StrictTotal(PairLt)
  {
    StringTotal();
  }

  lemma {:induction false} KeyOrderWeak(keys: Keys)
    ensures StrictWeak(KeyOrder(keys))
  {
    NodeKeyTotal();
    TotalIsWeak(NodeKeyLt);
    ByWeak((p: Pair) => KeyOf(keys, p.a), NodeKeyLt);
    ByWeak((p: Pair) => KeyOf(keys, p.b), NodeKeyLt);
    ThenWeak(By((p: Pair) => KeyOf(keys, p.a), NodeKeyLt), By((p: Pair) => KeyOf(keys, p.b), NodeKeyLt));
  }

  lemma {:induction false} ResultOrderTotal(keys: Keys)
    ensures StrictTotal(ResultOrder(keys))
  {
    KeyOrderWeak(keys);
    PairTotal();
    ThenTotal(KeyOrder(keys), PairLt);
  }

  lemma {:induction false} RealWeak()
    ensures StrictWeak(RealLt)
  {}

  lemma {:induction false} RankOrderTotal(keys: Keys, ranks: Ranks)
    ensures StrictTotal(RankOrder(keys, ranks))
  {
    ResultOrderTotal(keys);
    RealWeak();
    ByWeak((p: Pair) => RankOf(ranks, p), RealLt);
    ThenTotal(By((p: Pair) => RankOf(ranks, p), RealLt), ResultOrder(keys));
  }

  // Greedy nearest-N

  predicate Touches(p: Pair, x: NodeId) {
    p.a == x || p.b == x
  }

  function Degree(chosen: seq<Pair>, x: NodeId): nat {
    if chosen == [] then 0
    else Degree(chosen[..|chosen| - 1], x) + if Touches(chosen[|chosen| - 1], x) then 1 else 0
  }

  predicate Full(chosen: seq<Pair>, p: Pair, n: nat) {
    Degree(chosen, p.a) >= n || Degree(chosen, p.b) >= n
  }

  /** A pair is taken when both of its ends still have room. */
  function Take(chosen: seq<Pair>, p: Pair, n: nat): seq<Pair> {
    if Full(chosen, p, n) then chosen else chosen + [p]
  }

  function Greedy(order: seq<Pair>, n: nat): seq<Pair> {
    if order == [] then [] else Take(Greedy(order[..|order| - 1], n), order[|order| - 1], n)
  }

  ghost predicate Proper(order: seq<Pair>) {
    forall i :: 0 <= i < |order| ==> order[i].a != order[i].b
  }

  lemma {:induction false} DegreeAppend(chosen: seq<Pair>, p: Pair, x: NodeId)
    ensures Degree(chosen + [p], x) == Degree(chosen, x) + if Touches(p, x) then 1 else 0
  {
    assert (chosen + [p])[..|chosen|] == chosen;
  }

  lemma {:induction false} GreedyAt(order: seq<Pair>, n: nat, i: nat)
    requires i < |order|
    ensures Greedy(order[..i + 1], n) == Take(Greedy(order[..i], n), order[i], n)
  {
    assert order[..i + 1][..i] == order[..i];
  }

  lemma {:induction false} TakeDegree(chosen: seq<Pair>, p: Pair, n: nat, x: NodeId)
    requires Degree(chosen, x) <= n
    ensures Degree(Take(chosen, p, n), x) <= n
  {
    DegreeAppend(chosen, p, x);
  }

  /** No node ever holds more than n links. */
  lemma {:induction false} GreedyDegree(order: seq<Pair>, n: nat, x: NodeId)
    ensures Degree(Greedy(order, n), x) <= n
  {
    if order != [] {
      GreedyDegree(order[..|order| - 1], n, x);
      TakeDegree(Greedy(order[..|order| - 1], n), order[|order| - 1], n, x);
    }
  }

  lemma {:induction false} TakeFrom(front: seq<Pair>, chosen: seq<Pair>, p: Pair, n: nat)
    requires forall q :: q in chosen ==> q in front
    requires |chosen| <= |front|
    ensures forall q :: q in Take(chosen, p, n) ==> q in front + [p]
    ensures |Take(chosen, p, n)| <= |front| + 1
    ensures Distinct(chosen) && p !in front ==> Distinct(Take(chosen, p, n))
  {}

  /** Selection takes from what was ranked, each pair once. */
  lemma {:induction false} GreedyFrom(order: seq<Pair>, n: nat)
    ensures forall p :: p in Greedy(order, n) ==> p in order
    ensures Distinct(order) ==> Distinct(Greedy(order, n))
    ensures |Greedy(order, n)| <= |order|
  {
    if order != [] {
      var front, p := order[..|order| - 1], order[|order| - 1];
      GreedyFrom(front, n);
      TakeFrom(front, Greedy(front, n), p, n);
      assert order == front + [p];
      if Distinct(order) { assert p !in front; }
    }
  }

  lemma {:induction false} GreedyPrefix(order: seq<Pair>, n: nat, i: nat, j: nat)
    requires i <= j <= |order|
    ensures Greedy(order[..i], n) <= Greedy(order[..j], n)
    decreases j - i
  {
    if i < j {
      GreedyPrefix(order, n, i, j - 1);
      GreedyGrows(order, n, j);
      PrefixOfPrefix(Greedy(order[..i], n), Greedy(order[..j - 1], n), Greedy(order[..j], n));
    }
  }

  lemma {:induction false} GreedyGrows(order: seq<Pair>, n: nat, j: nat)
    requires 0 < j <= |order|
    ensures Greedy(order[..j - 1], n) <= Greedy(order[..j], n)
  {
    GreedyAt(order, n, j - 1);
  }

  lemma {:induction false} PrefixOfPrefix(a: seq<Pair>, b: seq<Pair>, c: seq<Pair>)
    requires a <= b <= c
    ensures a <= c
  {}

  /** What is taken from position i on comes from position i on. */
  lemma {:induction false} LaterTakings(order: seq<Pair>, n: nat, i: nat, j: nat, p: Pair) returns (k: nat)
    requires i < j <= |order| && p in Greedy(order[..j], n) && p !in Greedy(order[..i], n)
    ensures i <= k < j && order[k] == p
    decreases j - i
  {
    if p in Greedy(order[..j - 1], n) {
      k := LaterTakings(order, n, i, j - 1, p);
    } else {
      LastTaken(order, n, j, p);
      k := j - 1;
    }
  }

  lemma {:induction false} LastTaken(order: seq<Pair>, n: nat, j: nat, p: Pair)
    requires 0 < j <= |order| && p in Greedy(order[..j], n) && p !in Greedy(order[..j - 1], n)
    ensures order[j - 1] == p
  {
    GreedyAt(order, n, j - 1);
  }

  /** Exactly which pairs are taken: those whose two ends both had fewer than n earlier takings. In particular a
      skipped pair has an end already holding n selected pairs, all of them earlier in the ranking. */
  lemma {:induction false} GreedyTakes(order: seq<Pair>, n: nat, i: nat)
    requires Distinct(order) && i < |order|
    ensures Greedy(order[..i], n) <= Greedy(order, n)
    ensures order[i] in Greedy(order, n) <==> !Full(Greedy(order[..i], n), order[i], n)
    ensures order[i] !in Greedy(order, n) ==>
              Degree(Greedy(order[..i], n), order[i].a) == n || Degree(Greedy(order[..i], n), order[i].b) == n
  {
    assert order[..|order|] == order;
    GreedyPrefix(order, n, i, |order|);
    GreedyPrefix(order, n, i + 1, |order|);
    GreedyAt(order, n, i);
    GreedyDegree(order[..i], n, order[i].a);
    GreedyDegree(order[..i], n, order[i].b);
    GreedyFrom(order[..i], n);
    assert order[i] !in order[..i];
    if !Full(Greedy(order[..i], n), order[i], n) {
      assert Greedy(order[..i + 1], n)[|Greedy(order[..i], n)|] == order[i];
    } else if order[i] in Greedy(order, n) {
      var k := LaterTakings(order, n, i + 1, |order|, order[i]);
      assert false;
    }
  }

  /** How many chosen pairs among the first i touch x. */
  function Taken(order: seq<Pair>, chosen: set<Pair>, i: nat, x: NodeId): nat
    requires i <= |order|
  {
    if i == 0 then 0
    else Taken(order, chosen, i - 1, x) + if order[i - 1] in chosen && Touches(order[i - 1], x) then 1 else 0
  }

  /** The greedy selection is the only one with that property. */
  lemma {:induction false} GreedyUnique(order: seq<Pair>, n: nat, chosen: set<Pair>)
    requires Distinct(order) && chosen <= Elements(order)
    requires forall i :: 0 <= i < |order| ==>
               (order[i] in chosen <==> Taken(order, chosen, i, order[i].a) < n && Taken(order, chosen, i, order[i].b) < n)
    ensures chosen == Elements(Greedy(order, n))
  {
    GreedyUniqueUpTo(order, n, chosen, |order|);
    assert order[..|order|] == order;
    forall p ensures p in chosen <==> p in Elements(Greedy(order, n)) {
      if p in chosen { assert p in Elements(order); }
      GreedyFrom(order, n);
    }
  }

  /** What is chosen agrees with what greedy took among the first i. */
  ghost predicate Agrees(order: seq<Pair>, chosen: set<Pair>, i: nat, taken: seq<Pair>)
    requires i <= |order|
  {
    && (forall p :: p in taken <==> p in order[..i] && p in chosen)
    && (forall x :: Degree(taken, x) == Taken(order, chosen, i, x))
  }

  lemma {:induction false} AgreesStep(order: seq<Pair>, n: nat, chosen: set<Pair>, i: nat, before: seq<Pair>)
    requires i < |order| && Agrees(order, chosen, i, before)
    requires order[i] in chosen <==> !Full(before, order[i], n)
    ensures Agrees(order, chosen, i + 1, Take(before, order[i], n))
  {
    var p := order[i];
    assert order[..i + 1] == order[..i] + [p];
    forall x ensures Degree(Take(before, p, n), x) == Taken(order, chosen, i + 1, x) { DegreeAppend(before, p, x); }
  }

  lemma {:induction false} GreedyUniqueUpTo(order: seq<Pair>, n: nat, chosen: set<Pair>, i: nat)
    requires i <= |order|
    requires forall k :: 0 <= k < |order| ==>
               (order[k] in chosen <==> Taken(order, chosen, k, order[k].a) < n && Taken(order, chosen, k, order[k].b) < n)
    ensures Agrees(order, chosen, i, Greedy(order[..i], n))
  {
    if i > 0 {
      GreedyUniqueUpTo(order, n, chosen, i - 1);
      GreedyAt(order, n, i - 1);
      AgreesStep(order, n, chosen, i - 1, Greedy(order[..i - 1], n));
    }
  }

  // The budget

  /** The links of a list of nodes, counted once per node. */
  function TotalDegree(nodes: seq<NodeId>, chosen: seq<Pair>): nat {
    if nodes == [] then 0 else TotalDegree(nodes[1..], chosen) + Degree(chosen, nodes[0])
  }

  lemma {:induction false} TotalDegreeCapped(nodes: seq<NodeId>, chosen: seq<Pair>, n: nat)
    requires forall x :: x in nodes ==> Degree(chosen, x) <= n
    ensures TotalDegree(nodes, chosen) <= |nodes| * n
  {
    if nodes != [] {
      TotalDegreeCapped(nodes[1..], chosen, n);
      assert |nodes| * n == (|nodes| - 1) * n + n;
    }
  }

  lemma {:induction false} TotalDegreeGrows(nodes: seq<NodeId>, chosen: seq<Pair>, p: Pair)
    ensures TotalDegree(nodes, chosen + [p]) >= TotalDegree(nodes, chosen)
    ensures p.a in nodes || p.b in nodes ==> TotalDegree(nodes, chosen + [p]) > TotalDegree(nodes, chosen)
  {
    if nodes != [] {
      TotalDegreeGrows(nodes[1..], chosen, p);
      DegreeAppend(chosen, p, nodes[0]);
    }
  }

  /** Every chosen pair has an end among `nodes`, so it is paid for by that end's degree. */
  lemma {:induction false} ChosenArePaidFor(nodes: seq<NodeId>, chosen: seq<Pair>)
    requires forall p :: p in chosen ==> p.a in nodes || p.b in nodes
    ensures |chosen| <= TotalDegree(nodes, chosen)
  {
    if chosen != [] {
      var front, p := chosen[..|chosen| - 1], chosen[|chosen| - 1];
      ChosenArePaidFor(nodes, front);
      TotalDegreeGrows(nodes, front, p);
      assert chosen == front + [p];
    }
  }

  /** A degree cap on one side of a rule bounds its candidates, even when the two sides overlap. */
  lemma {:induction false} GreedyBound(nodes: seq<NodeId>, order: seq<Pair>, n: nat)
    requires forall p :: p in order ==> p.a in nodes || p.b in nodes
    ensures |Greedy(order, n)| <= |nodes| * n
  {
    var chosen := Greedy(order, n);
    GreedyFrom(order, n);
    forall x | x in nodes ensures Degree(chosen, x) <= n { GreedyDegree(order, n, x); }
    TotalDegreeCapped(nodes, chosen, n);
    ChosenArePaidFor(nodes, chosen);
  }

  /** The greedy loop of `_apply_static_topology`. */
  method SelectNearest(order: seq<Pair>, n: nat) returns (chosen: seq<Pair>)
    requires Proper(order)
    ensures chosen == Greedy(order, n)
  {
    chosen := [];
    var degree: map<NodeId, nat> := map[];
    var i := 0;
    while i < |order|
      invariant 0 <= i <= |order|
      invariant chosen == Greedy(order[..i], n)
      invariant Counts(degree, chosen)
    {
      var p := order[i];
      GreedyAt(order, n, i);
      if Count(degree, p.a) < n && Count(degree, p.b) < n {
        CountsMore(degree, chosen, p);
        chosen := chosen + [p];
        degree := degree[p.a := Count(degree, p.a) + 1];
        degree := degree[p.b := Count(degree, p.b) + 1];
      }
      i := i + 1;
    }
    assert order[..i] == order;
  }

  ghost predicate Counts(degree: map<NodeId, nat>, chosen: seq<Pair>) {
    forall x :: Count(degree, x) == Degree(chosen, x)
  }

  lemma {:induction false} CountsMore(degree: map<NodeId, nat>, chosen: seq<Pair>, p: Pair)
    requires Counts(degree, chosen) && p.a != p.b
    ensures Counts(degree[p.a := Count(degree, p.a) + 1][p.b := Count(degree, p.b) + 1], chosen + [p])
  {
    var after := degree[p.a := Count(degree, p.a) + 1][p.b := Count(degree, p.b) + 1];
    forall x ensures Count(after, x) == Degree(chosen + [p], x) { DegreeAppend(chosen, p, x); }
  }

  function Count(degree: map<NodeId, nat>, x: NodeId): nat {
    if x in degree then degree[x] else 0
  }
}
