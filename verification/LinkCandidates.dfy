/** From link rules to the declared candidate universe, and the budget checked before and after. */
module LinkCandidates {
  import opened Ordering
  import opened Wrappers
  import opened LinkTopology

  datatype Topology = VisibleCandidates | NearestVisible | NearestN(n: nat) | ExplicitPairs(pairs: seq<(string, string)>)

  datatype Endpoint = Endpoint(segment: string, nodeIds: seq<NodeId>, role: string, medium: Option<string>)

  datatype Rule = Rule(id: string, enabled: bool, kind: string, left: Endpoint, right: Endpoint, topology: Topology)

  datatype Candidate = Candidate(pair: Pair, ruleId: string, kind: string, roles: (string, string), medium: Option<string>,
                                 priority: nat, segments: (string, string))

  datatype GenError = MixedMedia | DynamicTopology | NoRanking | Unresolved | OutsideSelectors | DuplicatePair | OwnedTwice

  /** What candidate generation reads of the session. */
  datatype Session = Session(keys: Keys, locals: map<NodeKey, NodeId>, ranks: Option<Ranks>)

  // Pairs of one rule

  /** `_cross_product_pairs`, as the set every topology starts from. */
  function CrossPairs(left: seq<NodeId>, right: seq<NodeId>): set<Pair> {
    set a, b | a in left && b in right && a != b :: MakePair(a, b)
  }

  lemma {:induction false} CrossPairsProper(left: seq<NodeId>, right: seq<NodeId>)
    ensures forall p :: p in CrossPairs(left, right) ==>
              p.a != p.b && ((p.a in left && p.b in right) || (p.b in left && p.a in right))
  {}

  function Lookup(locals: map<NodeKey, NodeId>, segment: string, local: string): Option<NodeId> {
    var key := NodeKey(segment, local);
    if key in locals then Some(locals[key]) else None
  }

  /** One item of `_explicit_runtime_pairs`: tried as authored, then with the sides swapped. */
  function ResolveItem(s: Session, rule: Rule, item: (string, string)): Result<Pair, GenError> {
    var a, b := Lookup(s.locals, rule.left.segment, item.0), Lookup(s.locals, rule.right.segment, item.1);
    var swapped := a.None? || b.None?;
    var normal := !swapped && a.value in rule.left.nodeIds && b.value in rule.right.nodeIds;
    var a', b' := if swapped then Lookup(s.locals, rule.right.segment, item.0) else a,
                  if swapped then Lookup(s.locals, rule.left.segment, item.1) else b;
    if a'.None? || b'.None? then Err(Unresolved)
    else if normal || (a'.value in rule.right.nodeIds && b'.value in rule.left.nodeIds) then Ok(MakePair(a'.value, b'.value))
    else Err(OutsideSelectors)
  }

  ghost predicate JoinsSides(rule: Rule, p: Pair) {
    (p.a in rule.left.nodeIds && p.b in rule.right.nodeIds) || (p.b in rule.left.nodeIds && p.a in rule.right.nodeIds)
  }

  lemma {:induction false} ExplicitJoinsSides(s: Session, rule: Rule, item: (string, string))
    requires ResolveItem(s, rule, item).Ok?
    ensures JoinsSides(rule, ResolveItem(s, rule, item).value)
  {}

  /** The pairs a rule declares before its topology is applied, if it can declare them. */
  ghost predicate Declares(s: Session, rule: Rule) {
    rule.topology.ExplicitPairs? ==> forall i :: 0 <= i < |rule.topology.pairs| ==> ResolveItem(s, rule, rule.topology.pairs[i]).Ok?
  }

  ghost function DeclaredPairs(s: Session, rule: Rule): set<Pair>
    requires Declares(s, rule)
  {
    if rule.topology.ExplicitPairs? then
      set i | 0 <= i < |rule.topology.pairs| :: ResolveItem(s, rule, rule.topology.pairs[i]).value
    else CrossPairs(rule.left.nodeIds, rule.right.nodeIds)
  }

  /** Everything generation needs of one rule. */
  ghost predicate Generable(s: Session, rule: Rule) {
    && !(rule.left.medium.Some? && rule.right.medium.Some? && rule.left.medium != rule.right.medium)
    && Declares(s, rule)
    && !rule.topology.NearestVisible?
    && (rule.topology.NearestN? ==> s.ranks.Some? && DeclaredPairs(s, rule) <= s.ranks.value.Keys)
  }

  /** Nearest-N as a function of the set of pairs alone. */
  ghost function Nearest(keys: Keys, ranks: Ranks, pairs: set<Pair>, n: nat): seq<Pair> {
    Sort(ResultOrder(keys), Greedy(Ranked(keys, ranks, pairs), n))
  }

  /** A set of pairs from nearest to farthest. */
  ghost function Ranked(keys: Keys, ranks: Ranks, pairs: set<Pair>): (order: seq<Pair>)
    ensures Elements(order) == pairs
  {
    RankOrderTotal(keys, ranks);
    Sorted(RankOrder(keys, ranks), pairs)
  }

  lemma {:induction false} RankedInOrder(keys: Keys, ranks: Ranks, pairs: set<Pair>)
    ensures Increasing(RankOrder(keys, ranks), Ranked(keys, ranks, pairs)) && Distinct(Ranked(keys, ranks, pairs))
  {
    RankOrderTotal(keys, ranks);
    IncreasingIsDistinct(RankOrder(keys, ranks), Ranked(keys, ranks, pairs));
  }

  /** The pairs of a rule, as a set. */
  ghost function RulePairs(s: Session, rule: Rule): set<Pair>
    requires Generable(s, rule)
  {
    if rule.topology.NearestN? then Elements(Nearest(s.keys, s.ranks.value, DeclaredPairs(s, rule), rule.topology.n))
    else DeclaredPairs(s, rule)
  }

  /** `result` is the rule's pair list; a pair's priority is its position. */
  ghost predicate IsStatic(s: Session, rule: Rule, result: seq<Pair>)
    requires Generable(s, rule)
  {
    && Distinct(result) && Elements(result) == RulePairs(s, rule)
    && if rule.topology.NearestN? then result == Nearest(s.keys, s.ranks.value, DeclaredPairs(s, rule), rule.topology.n)
       else Ascending(KeyOrder(s.keys), result)
  }

  lemma {:induction false} NearestIs(keys: Keys, ranks: Ranks, items: seq<Pair>, n: nat)
    requires Distinct(items)
    ensures Sort(ResultOrder(keys), Greedy(Sort(RankOrder(keys, ranks), items), n)) == Nearest(keys, ranks, Elements(items), n)
  {
    RankOrderTotal(keys, ranks);
    SortedFromItems(RankOrder(keys, ranks), items);
  }

  lemma {:induction false} SortedFromItems(lt: (Pair, Pair) -> bool, items: seq<Pair>)
    requires StrictTotal(lt) && Distinct(items)
    ensures Sort(lt, items) == Sorted(lt, Elements(items))
  {
    TotalIsWeak(lt);
    SortIncreasing(lt, items);
    SortedIs(lt, Elements(items), Sort(lt, items));
  }

  lemma {:induction false} NearestDistinct(keys: Keys, ranks: Ranks, pairs: set<Pair>, n: nat)
    ensures Distinct(Nearest(keys, ranks, pairs, n))
    ensures Elements(Nearest(keys, ranks, pairs, n)) <= pairs
    ensures |Nearest(keys, ranks, pairs, n)| == |Greedy(Ranked(keys, ranks, pairs), n)|
  {
    var order := Ranked(keys, ranks, pairs);
    RankedInOrder(keys, ranks, pairs);
    GreedyFrom(order, n);
    var chosen := Greedy(order, n);
    DistinctPermutation(chosen, Sort(ResultOrder(keys), chosen));
    SameElements(chosen, Sort(ResultOrder(keys), chosen));
    forall p | p in Elements(chosen) ensures p in pairs { assert p in order; assert p in Elements(order); }
  }

  /** The selected pairs at a node that come before p in the ranking. */
  ghost function CloserAt(lt: (Pair, Pair) -> bool, selected: set<Pair>, p: Pair, x: NodeId): set<Pair> {
    set q | q in selected && Touches(q, x) && lt(q, p)
  }

  ghost function LinksAt(selected: set<Pair>, x: NodeId): set<Pair> {
    set q | q in selected && Touches(q, x)
  }

  lemma {:induction false} DegreeIsSize(chosen: seq<Pair>, x: NodeId)
    requires Distinct(chosen)
    ensures Degree(chosen, x) == |LinksAt(Elements(chosen), x)|
  {
    if chosen == [] {
      assert LinksAt(Elements(chosen), x) == {};
    } else {
      var front, p := chosen[..|chosen| - 1], chosen[|chosen| - 1];
      DegreeIsSize(front, x);
      assert chosen == front + [p];
      LinksAppend(front, p, x);
      DegreeAppend(front, p, x);
    }
  }

  lemma {:induction false} LinksAppend(front: seq<Pair>, p: Pair, x: NodeId)
    requires p !in front
    ensures |LinksAt(Elements(front + [p]), x)| == |LinksAt(Elements(front), x)| + if Touches(p, x) then 1 else 0
  {
    var before, after := LinksAt(Elements(front), x), LinksAt(Elements(front + [p]), x);
    assert Elements(front + [p]) == Elements(front) + {p};
    if Touches(p, x) {
      assert after == before + {p};
    } else {
      assert after == before;
    }
  }

  /** What was selected before position i is what is selected and ranked before the pair there. */
  lemma {:induction false} SelectedBefore(lt: (Pair, Pair) -> bool, order: seq<Pair>, n: nat, i: nat, q: Pair)
    requires StrictTotal(lt) && Increasing(lt, order) && i < |order|
    ensures q in Greedy(order[..i], n) <==> q in Greedy(order, n) && lt(q, order[i])
  {
    assert order[..|order|] == order;
    GreedyPrefix(order, n, i, |order|);
    GreedyFrom(order[..i], n);
    if q in Greedy(order, n) && q !in Greedy(order[..i], n) {
      var k := LaterTakings(order, n, i, |order|, q);
      assert k == i || lt(order[i], order[k]);
    }
  }

  lemma {:induction false} CloserIsDegree(lt: (Pair, Pair) -> bool, order: seq<Pair>, n: nat, i: nat, x: NodeId)
    requires StrictTotal(lt) && Increasing(lt, order) && Distinct(order) && i < |order|
    ensures |CloserAt(lt, Elements(Greedy(order, n)), order[i], x)| == Degree(Greedy(order[..i], n), x)
  {
    GreedyFrom(order[..i], n);
    DegreeIsSize(Greedy(order[..i], n), x);
    forall q ensures q in Greedy(order[..i], n) <==> q in Greedy(order, n) && lt(q, order[i]) { SelectedBefore(lt, order, n, i, q); }
    assert CloserAt(lt, Elements(Greedy(order, n)), order[i], x) == LinksAt(Elements(Greedy(order[..i], n)), x);
  }

  /** Nearest-N, said of sets: a pair is selected exactly when both of its ends have fewer than n closer selected pairs. */
  lemma {:induction false} NearestSelects(keys: Keys, ranks: Ranks, pairs: set<Pair>, n: nat, p: Pair)
    requires p in pairs
    ensures var selected, lt := Elements(Nearest(keys, ranks, pairs, n)), RankOrder(keys, ranks);
            && (p in selected <==> |CloserAt(lt, selected, p, p.a)| < n && |CloserAt(lt, selected, p, p.b)| < n)
            && (p !in selected ==> |CloserAt(lt, selected, p, p.a)| == n || |CloserAt(lt, selected, p, p.b)| == n)
  {
    var order, lt := Ranked(keys, ranks, pairs), RankOrder(keys, ranks);
    RankedInOrder(keys, ranks, pairs);
    RankOrderTotal(keys, ranks);
    assert p in Elements(order);
    var i :| 0 <= i < |order| && order[i] == p;
    GreedyTakes(order, n, i);
    CloserIsDegree(lt, order, n, i, p.a);
    CloserIsDegree(lt, order, n, i, p.b);
    SameElements(Greedy(order, n), Nearest(keys, ranks, pairs, n));
  }

  /** No node has more than n links, however the two endpoint sets overlap. */
  lemma {:induction false} NearestDegree(keys: Keys, ranks: Ranks, pairs: set<Pair>, n: nat, x: NodeId)
    ensures |LinksAt(Elements(Nearest(keys, ranks, pairs, n)), x)| <= n
  {
    var order := Ranked(keys, ranks, pairs);
    RankedInOrder(keys, ranks, pairs);
    GreedyFrom(order, n);
    GreedyDegree(order, n, x);
    DegreeIsSize(Greedy(order, n), x);
    SameElements(Greedy(order, n), Nearest(keys, ranks, pairs, n));
  }

  lemma {:induction false} IncreasingIsDistinct(lt: (Pair, Pair) -> bool, s: seq<Pair>)
    requires StrictTotal(lt) && Increasing(lt, s)
    ensures Distinct(s)
  {
    TotalIsWeak(lt);
    IncreasingDistinct(lt, s);
  }

  /** Some enumeration of a set, as iterating over it gives. */
  method Enumerate(pairs: set<Pair>) returns (items: seq<Pair>)
    ensures Distinct(items) && Elements(items) == pairs
  {
    items := [];
    var left := pairs;
    while left != {}
      invariant left <= pairs && Distinct(items) && Elements(items) == pairs - left
      decreases |left|
    {
      var p :| p in left;
      assert p !in Elements(items) && Elements(items + [p]) == Elements(items) + {p};
      items := items + [p];
      left := left - {p};
    }
  }

  lemma {:induction false} AllRanked(items: seq<Pair>, pairs: set<Pair>, ranks: Ranks)
    requires Elements(items) == pairs
    ensures (forall i :: 0 <= i < |items| ==> items[i] in ranks) <==> pairs <= ranks.Keys
  {
    if forall i :: 0 <= i < |items| ==> items[i] in ranks {
      forall p | p in pairs ensures p in ranks { assert p in Elements(items); }
    }
    if pairs <= ranks.Keys {
      forall i | 0 <= i < |items| ensures items[i] in ranks { assert items[i] in Elements(items); }
    }
  }

  /** `_apply_static_topology` on the rule's own declared pairs. */
  method ApplyStaticTopology(s: Session, rule: Rule, pairs: set<Pair>) returns (r: Result<seq<Pair>, GenError>)
    requires Declares(s, rule) && pairs == DeclaredPairs(s, rule)
    requires !(rule.left.medium.Some? && rule.right.medium.Some? && rule.left.medium != rule.right.medium)
    ensures r.Ok? <==> Generable(s, rule)
    ensures r.Ok? ==> IsStatic(s, rule, r.value)
    ensures rule.topology.NearestVisible? ==> r == Err(DynamicTopology)
  {
    var items := Enumerate(pairs);
    var unique := Sort(KeyOrder(s.keys), items);
    KeyOrderWeak(s.keys);
    SortAscending(KeyOrder(s.keys), items);
    DistinctPermutation(items, unique);
    match rule.topology
    case VisibleCandidates => r := Ok(unique);
    case ExplicitPairs(_) => r := Ok(unique);
    case NearestVisible => r := Err(DynamicTopology);
    case NearestN(n) =>
      if s.ranks.None? { return Err(NoRanking); }
      CrossPairsProper(rule.left.nodeIds, rule.right.nodeIds);
      r := NearestPairs(s.keys, s.ranks.value, unique, n);
      NearestDistinct(s.keys, s.ranks.value, pairs, n);
  }

  /** Whatever the topology, every pair of a rule joins its two sides. */
  lemma {:induction false} PairsJoinSides(s: Session, rule: Rule, p: Pair)
    requires Generable(s, rule) && p in RulePairs(s, rule)
    ensures p in DeclaredPairs(s, rule) && JoinsSides(rule, p)
  {
    if rule.topology.NearestN? {
      var order := Ranked(s.keys, s.ranks.value, DeclaredPairs(s, rule));
      var chosen := Greedy(order, rule.topology.n);
      SameElements(Sort(ResultOrder(s.keys), chosen), chosen);
      GreedyFrom(order, rule.topology.n);
      assert p in Elements(chosen);
      assert p in Elements(order);
    }
    if rule.topology.ExplicitPairs? {
      var i :| 0 <= i < |rule.topology.pairs| && ResolveItem(s, rule, rule.topology.pairs[i]).value == p;
      ExplicitJoinsSides(s, rule, rule.topology.pairs[i]);
    }
  }

  /** The nearest_n branch. */
  method NearestPairs(keys: Keys, ranks: Ranks, unique: seq<Pair>, n: nat) returns (r: Result<seq<Pair>, GenError>)
    requires Distinct(unique) && forall p :: p in Elements(unique) ==> p.a != p.b
    ensures r.Ok? <==> Elements(unique) <= ranks.Keys
    ensures r.Ok? ==> r.value == Nearest(keys, ranks, Elements(unique), n)
  {
    AllRanked(unique, Elements(unique), ranks);
    if !(forall i :: 0 <= i < |unique| ==> unique[i] in ranks) { return Err(NoRanking); }
    var order := Sort(RankOrder(keys, ranks), unique);
    SameElements(order, unique);
    forall i | 0 <= i < |order| ensures order[i].a != order[i].b { assert order[i] in Elements(order); }
    var chosen := SelectNearest(order, n);
    NearestIs(keys, ranks, unique, n);
    r := Ok(Sort(ResultOrder(keys), chosen));
  }

  // Determinism

  /** x stands before y. */
  ghost predicate Before(s: seq<Pair>, x: Pair, y: Pair) {
    exists i, j :: 0 <= i < j < |s| && s[i] == x && s[j] == y
  }

  lemma {:induction false} InsertBeforeTied(lt: (Pair, Pair) -> bool, x: Pair, y: Pair, s: seq<Pair>)
    requires y in s && !lt(y, x)
    ensures Before(Insert(lt, x, s), x, y)
  {
    var k :| 0 <= k < |s| && s[k] == y;
    if !lt(s[0], x) {
      var r := [x] + s;
      assert r[0] == x && r[k + 1] == y;
    } else {
      assert s[1..][k - 1] == y;
      InsertBeforeTied(lt, x, y, s[1..]);
      var rest := Insert(lt, x, s[1..]);
      var i, j :| 0 <= i < j < |rest| && rest[i] == x && rest[j] == y;
      var r := [s[0]] + rest;
      assert r[i + 1] == x && r[j + 1] == y;
    }
  }

  lemma {:induction false} BeforeOneWay(s: seq<Pair>, x: Pair, y: Pair)
    requires Distinct(s) && Before(s, x, y)
    ensures !Before(s, y, x)
  {}

  /** visible_candidates and explicit_pairs sort by rank keys alone, so their priorities depend on nothing but the
      set of pairs exactly when no two of its pairs share both keys. nearest_n breaks those ties by the pair itself. */
  lemma {:induction false} KeyOrderDetermined(keys: Keys, pairs: set<Pair>)
    ensures (forall items, others :: Distinct(items) && Distinct(others) && Elements(items) == pairs && Elements(others) == pairs ==>
               Sort(KeyOrder(keys), items) == Sort(KeyOrder(keys), others))
            <==> (forall p, q :: p in pairs && q in pairs && p != q ==> KeyOrder(keys)(p, q) || KeyOrder(keys)(q, p))
  {
    var lt := KeyOrder(keys);
    KeyOrderWeak(keys);
    if forall p, q :: p in pairs && q in pairs && p != q ==> lt(p, q) || lt(q, p) {
      forall items, others | Distinct(items) && Distinct(others) && Elements(items) == pairs && Elements(others) == pairs
        ensures Sort(lt, items) == Sort(lt, others)
      {
        SeparatedSort(lt, items, others, pairs);
      }
    } else {
      var p, q :| p in pairs && q in pairs && p != q && !lt(p, q) && !lt(q, p);
      var items, others := TiedSort(lt, pairs, p, q);
    }
  }

  // A session whose priorities depend on the order its pairs are enumerated in

  /** A legal site or node name. */
  predicate IsIdentifier(s: string) {
    s != [] && Alphanumeric(s[0]) && forall i :: 0 <= i < |s| ==> Alphanumeric(s[i]) || s[i] == '-' || s[i] == '_'
  }

  predicate Alphanumeric(c: char) {
    'a' <= c <= 'z' || '0' <= c <= '9'
  }

  /** `_normalize_token` of a legal name: runs of underscores become one dash, outer dashes go. */
  function Normalized(s: string): string {
    TrimRight(TrimLeft(Dashed(s)))
  }

  function Dashed(s: string): string {
    if s == [] then []
    else if s[0] != '_' then [s[0]] + Dashed(s[1..])
    else if |s| > 1 && s[1] == '_' then Dashed(s[1..])
    else ['-'] + Dashed(s[1..])
  }

  function TrimLeft(s: string): string {
    if s != [] && s[0] == '-' then TrimLeft(s[1..]) else s
  }

  function TrimRight(s: string): string {
    if s != [] && s[|s| - 1] == '-' then TrimRight(s[..|s| - 1]) else s
  }

  /** A ground node's runtime id, which must be unique, and its local id, which its rank key has. */
  function RuntimeId(site: string, node: string): string { Normalized(site) + "-" + Normalized(node) }

  function LocalId(site: string, node: string): string { site + "-" + node }

  lemma {:induction false} DashedIs(s: string)
    requires '_' !in s
    ensures Dashed(s) == s
  {
    if s != [] {
      DashedIs(s[1..]);
      assert s == [s[0]] + s[1..];
    }
  }

  /** A node with legal names gets this runtime id. */
  predicate Names(site: string, node: string, id: NodeId) {
    IsIdentifier(site) && IsIdentifier(node) && RuntimeId(site, node) == id
  }

  lemma {:induction false} FirstNode()
    ensures Names("a-", "b-c", "a-b-c")
  {
    DashedIs("a-");
    DashedIs("b-c");
    assert TrimRight("a-") == TrimRight("a") by { assert "a-"[..1] == "a"; }
  }

  lemma {:induction false} SecondNode()
    ensures Names("a--b", "c", "a--b-c")
  {
    DashedIs("a--b");
    DashedIs("c");
  }

  lemma {:induction false} TiedStay(lt: (Pair, Pair) -> bool, p: Pair, q: Pair)
    requires !lt(p, q) && !lt(q, p)
    ensures Sort(lt, [p, q]) == [p, q]
  {
    assert [p, q][1..] == [q];
    assert Sort(lt, [q]) == Insert(lt, q, []) == [q];
  }

  const FIRST: NodeId := "a-b-c"
  const SECOND: NodeId := "a--b-c"
  const SATELLITE: NodeId := "leo-x"

  /** The rank keys of the two ground nodes and of a satellite. */
  function TiedKeys(): Keys {
    map[FIRST := NodeKey("ground", LocalId("a-", "b-c")), SECOND := NodeKey("ground", LocalId("a--b", "c")),
        SATELLITE := NodeKey("leo", "x")]
  }

  lemma {:induction false} TiedPairs()
    ensures MakePair(FIRST, SATELLITE) == Pair(FIRST, SATELLITE) && MakePair(SECOND, SATELLITE) == Pair(SECOND, SATELLITE)
    ensures forall p, q :: p in {Pair(FIRST, SATELLITE), Pair(SECOND, SATELLITE)} && q in {Pair(FIRST, SATELLITE), Pair(SECOND, SATELLITE)}
              ==> !KeyOrder(TiedKeys())(p, q)
  {
    assert LocalId("a-", "b-c") == LocalId("a--b", "c");
    NodeKeyTotal();
    assert FIRST[0] == SECOND[0] == 'a' && SATELLITE[0] == 'l';
    assert FIRST[1] == SECOND[1] && FIRST[2] != SECOND[2];
  }

  /** Node b-c of site a- and node c of site a--b are two nodes with one rank key. In one ground segment, the links of
      both to a satellite get their priorities in the order they are enumerated in. */
  lemma {:induction false} PrioritiesFollowEnumeration()
    ensures Names("a-", "b-c", FIRST) && Names("a--b", "c", SECOND) && FIRST != SECOND
    ensures var p, q := MakePair(FIRST, SATELLITE), MakePair(SECOND, SATELLITE);
            && CrossPairs([FIRST, SECOND], [SATELLITE]) == {p, q}
            && Sort(KeyOrder(TiedKeys()), [p, q]) != Sort(KeyOrder(TiedKeys()), [q, p])
  {
    FirstNode();
    SecondNode();
    TiedPairs();
    var p, q := MakePair(FIRST, SATELLITE), MakePair(SECOND, SATELLITE);
    assert FIRST[2] != SECOND[2];
    TiedStay(KeyOrder(TiedKeys()), p, q);
    TiedStay(KeyOrder(TiedKeys()), q, p);
    assert [p, q][0] != [q, p][0];
    CrossTwo(FIRST, SECOND, SATELLITE);
  }

  lemma {:induction false} CrossTwo(x: NodeId, y: NodeId, z: NodeId)
    requires x != z && y != z
    ensures CrossPairs([x, y], [z]) == {MakePair(x, z), MakePair(y, z)}
  {
    forall p ensures p in CrossPairs([x, y], [z]) <==> p == MakePair(x, z) || p == MakePair(y, z) {
      if p == MakePair(x, z) { assert x in [x, y] && z in [z]; }
      if p == MakePair(y, z) { assert y in [x, y] && z in [z]; }
    }
  }

  lemma {:induction false} SeparatedSort(lt: (Pair, Pair) -> bool, items: seq<Pair>, others: seq<Pair>, pairs: set<Pair>)
    requires StrictWeak(lt) && Distinct(items) && Distinct(others) && Elements(items) == pairs && Elements(others) == pairs
    requires forall p, q :: p in pairs && q in pairs && p != q ==> lt(p, q) || lt(q, p)
    ensures Sort(lt, items) == Sort(lt, others)
  {
    assert forall p :: p in items ==> p in Elements(items);
    assert forall p :: p in others ==> p in Elements(others);
    SortIncreasing(lt, items);
    SortIncreasing(lt, others);
    IncreasingUnique(lt, Sort(lt, items), Sort(lt, others));
  }

  lemma {:induction false} TiedSort(lt: (Pair, Pair) -> bool, pairs: set<Pair>, p: Pair, q: Pair) returns (items: seq<Pair>, others: seq<Pair>)
    requires p in pairs && q in pairs && p != q && !lt(p, q) && !lt(q, p)
    ensures Distinct(items) && Distinct(others) && Elements(items) == pairs && Elements(others) == pairs
    ensures Sort(lt, items) != Sort(lt, others)
  {
    var rest := RestOf(pairs, p, q);
    items := TiedList(lt, pairs, p, q, rest);
    others := TiedList(lt, pairs, q, p, rest);
    DistinctPermutation(items, Sort(lt, items));
    BeforeOneWay(Sort(lt, items), p, q);
  }

  lemma {:induction false} TiedList(lt: (Pair, Pair) -> bool, pairs: set<Pair>, p: Pair, q: Pair, rest: seq<Pair>) returns (items: seq<Pair>)
    requires p in pairs && q in pairs && p != q && !lt(q, p) && Distinct(rest) && Elements(rest) == pairs - {p, q}
    ensures Distinct(items) && Elements(items) == pairs && Before(Sort(lt, items), p, q)
  {
    items := [p, q] + rest;
    TiedItems(pairs, p, q, rest);
    TiedFirst(lt, p, q, rest);
  }

  ghost function RestOf(pairs: set<Pair>, p: Pair, q: Pair): (rest: seq<Pair>)
    ensures Distinct(rest) && Elements(rest) == pairs - {p, q}
  {
    PairTotal();
    IncreasingIsDistinct(PairLt, Sorted(PairLt, pairs - {p, q}));
    Sorted(PairLt, pairs - {p, q})
  }

  lemma {:induction false} TiedItems(pairs: set<Pair>, p: Pair, q: Pair, rest: seq<Pair>)
    requires p in pairs && q in pairs && p != q && Distinct(rest) && Elements(rest) == pairs - {p, q}
    ensures Distinct([p, q] + rest) && Elements([p, q] + rest) == pairs
  {
    assert p !in Elements(rest) && q !in Elements(rest);
    assert Elements([p, q] + rest) == {p, q} + Elements(rest);
  }

  lemma {:induction false} TiedFirst(lt: (Pair, Pair) -> bool, p: Pair, q: Pair, rest: seq<Pair>)
    requires !lt(q, p)
    ensures Before(Sort(lt, [p, q] + rest), p, q)
  {
    var items := [p, q] + rest;
    assert items[1..] == [q] + rest && ([q] + rest)[1..] == rest;
    var inner := Insert(lt, q, Sort(lt, rest));
    assert Sort(lt, items) == Insert(lt, p, inner);
    assert q in multiset(inner);
    InsertBeforeTied(lt, p, q, inner);
  }

  // Generation over all rules

  /** The rule's candidates: priority is position. */
  function CandidatesOf(rule: Rule, pairs: seq<Pair>): (cs: seq<Candidate>)
    ensures |cs| == |pairs|
    ensures forall k :: 0 <= k < |pairs| ==> cs[k].pair == pairs[k] && cs[k].ruleId == rule.id && cs[k].priority == k
  {
    seq(|pairs|, k requires 0 <= k < |pairs| =>
      Candidate(pairs[k], rule.id, rule.kind, (rule.left.role, rule.right.role),
                if rule.left.medium.Some? then rule.left.medium else rule.right.medium,
                k, (rule.left.segment, rule.right.segment)))
  }

  function Flatten(rules: seq<Rule>, lists: seq<seq<Pair>>): seq<Candidate>
    requires |lists| == |rules|
  {
    if rules == [] then []
    else Flatten(rules[..|rules| - 1], lists[..|lists| - 1]) + CandidatesOf(rules[|rules| - 1], lists[|lists| - 1])
  }

  ghost predicate DistinctIds(rules: seq<Rule>) {
    forall i, j :: 0 <= i < j < |rules| ==> rules[i].id != rules[j].id
  }

  ghost predicate AllGenerable(s: Session, rules: seq<Rule>) {
    forall i :: 0 <= i < |rules| && rules[i].enabled ==> Generable(s, rules[i])
  }

  /** No pair is declared by two enabled rules. */
  ghost predicate OwnershipUnique(s: Session, rules: seq<Rule>)
    requires AllGenerable(s, rules)
  {
    forall i, j :: 0 <= i < j < |rules| && rules[i].enabled && rules[j].enabled ==> RulePairs(s, rules[i]) !! RulePairs(s, rules[j])
  }

  /** The pair list of each rule; a disabled rule has none. */
  ghost predicate ListsFor(s: Session, rules: seq<Rule>, lists: seq<seq<Pair>>) {
    && |lists| == |rules|
    && forall i :: 0 <= i < |rules| ==>
         if rules[i].enabled then Generable(s, rules[i]) && IsStatic(s, rules[i], lists[i]) else lists[i] == []
  }

  ghost predicate Owns(owners: map<Pair, string>, rules: seq<Rule>, lists: seq<seq<Pair>>)
    requires |lists| == |rules|
  {
    && (forall i, p :: 0 <= i < |lists| && p in lists[i] ==> p in owners && owners[p] == rules[i].id)
    && (forall p :: p in owners ==> exists i :: 0 <= i < |lists| && p in lists[i])
  }

  /** One rule's pairs claimed for it: refused exactly when another rule already owns one of them. */
  method ClaimPairs(rule: Rule, pairs: seq<Pair>, owners: map<Pair, string>, seen: set<(string, Pair)>)
    returns (ok: bool, after: map<Pair, string>, seenAfter: set<(string, Pair)>, candidates: seq<Candidate>)
    requires Distinct(pairs) && forall p :: (rule.id, p) !in seen
    ensures ok <==> forall p :: p in pairs ==> p !in owners
    ensures ok ==> forall p :: p in after <==> p in owners || p in pairs
    ensures ok ==> forall p :: p in after ==> after[p] == if p in pairs then rule.id else owners[p]
    ensures ok ==> forall key :: key in seenAfter ==> key in seen || key.0 == rule.id
    ensures ok ==> candidates == CandidatesOf(rule, pairs)
  {
    after, seenAfter, candidates := owners, seen, [];
    var whole := CandidatesOf(rule, pairs);
    var i := 0;
    while i < |pairs|
      invariant 0 <= i <= |pairs| && candidates == whole[..i]
      invariant forall p :: p in pairs[..i] ==> p !in owners
      invariant forall p :: p in after <==> p in owners || p in pairs[..i]
      invariant forall p :: p in after ==> after[p] == if p in pairs[..i] then rule.id else owners[p]
      invariant forall key :: key in seenAfter <==> key in seen || (key.0 == rule.id && key.1 in pairs[..i])
    {
      var p := pairs[i];
      assert p !in pairs[..i];
      assert pairs[..i + 1] == pairs[..i] + [p];
      if (rule.id, p) in seenAfter {
        // "produced duplicate pair": a rule's own list has no repeats.
        assert false;
      }
      seenAfter := seenAfter + {(rule.id, p)};
      if p in after { return false, after, seenAfter, candidates; }
      after := after[p := rule.id];
      candidates := candidates + [whole[i]];
      i := i + 1;
    }
    assert pairs[..i] == pairs;
    ok := true;
  }

  /** `_explicit_runtime_pairs` or `_cross_product_pairs`. */
  method RawPairs(s: Session, rule: Rule) returns (r: Result<set<Pair>, GenError>)
    ensures r.Ok? <==> Declares(s, rule)
    ensures r.Ok? ==> r.value == DeclaredPairs(s, rule)
  {
    if !rule.topology.ExplicitPairs? { return Ok(CrossPairs(rule.left.nodeIds, rule.right.nodeIds)); }
    var items, pairs := rule.topology.pairs, {};
    var i := 0;
    while i < |items|
      invariant 0 <= i <= |items| && forall k :: 0 <= k < i ==> ResolveItem(s, rule, items[k]).Ok?
      invariant pairs == set k | 0 <= k < i :: ResolveItem(s, rule, items[k]).value
    {
      var item := ResolveItem(s, rule, items[i]);
      if item.Err? { return Err(item.error); }
      pairs := pairs + {item.value};
      i := i + 1;
    }
    r := Ok(pairs);
  }

  /** One enabled rule up to its pair list. */
  method RuleList(s: Session, rule: Rule) returns (r: Result<seq<Pair>, GenError>)
    ensures r.Ok? <==> Generable(s, rule)
    ensures r.Ok? ==> IsStatic(s, rule, r.value)
  {
    if rule.left.medium.Some? && rule.right.medium.Some? && rule.left.medium != rule.right.medium { return Err(MixedMedia); }
    var raw := RawPairs(s, rule);
    if raw.Err? { return Err(raw.error); }
    r := ApplyStaticTopology(s, rule, raw.value);
  }

  lemma {:induction false} OwnedElsewhere(s: Session, rules: seq<Rule>, lists: seq<seq<Pair>>, owners: map<Pair, string>, n: nat, list: seq<Pair>, p: Pair)
    requires n < |rules| && rules[n].enabled && Generable(s, rules[n]) && IsStatic(s, rules[n], list)
    requires ListsFor(s, rules[..n], lists) && Owns(owners, rules[..n], lists)
    requires p in list && p in owners
    ensures AllGenerable(s, rules) ==> !OwnershipUnique(s, rules)
  {
    var i :| 0 <= i < |lists| && p in lists[i];
    assert rules[..n][i] == rules[i] && rules[i].enabled;
    assert p in Elements(lists[i]) && p in Elements(list);
    assert p in RulePairs(s, rules[i]) && p in RulePairs(s, rules[n]);
  }

  lemma {:induction false} Extended(s: Session, rules: seq<Rule>, lists: seq<seq<Pair>>, n: nat, list: seq<Pair>)
    requires n < |rules| && ListsFor(s, rules[..n], lists)
    requires if rules[n].enabled then Generable(s, rules[n]) && IsStatic(s, rules[n], list) else list == []
    ensures ListsFor(s, rules[..n + 1], lists + [list])
    ensures Flatten(rules[..n + 1], lists + [list]) == Flatten(rules[..n], lists) + CandidatesOf(rules[n], list)
  {
    assert rules[..n + 1] == rules[..n] + [rules[n]];
    assert rules[..n + 1][..n] == rules[..n] && (lists + [list])[..n] == lists;
  }

  lemma {:induction false} OwnsMore(rules: seq<Rule>, lists: seq<seq<Pair>>, n: nat, list: seq<Pair>, owners: map<Pair, string>, after: map<Pair, string>)
    requires n < |rules| && |lists| == n && Owns(owners, rules[..n], lists)
    requires forall p :: p in list ==> p !in owners
    requires forall p :: p in after <==> p in owners || p in list
    requires forall p :: p in after ==> after[p] == if p in list then rules[n].id else owners[p]
    ensures Owns(after, rules[..n + 1], lists + [list])
  {
    var more := lists + [list];
    forall i, p | 0 <= i < |more| && p in more[i] ensures p in after && after[p] == rules[..n + 1][i].id {
      if i < n { assert more[i] == lists[i] && rules[..n + 1][i] == rules[..n][i]; }
    }
    forall p | p in after ensures exists i :: 0 <= i < |more| && p in more[i] {
      if p in owners {
        var i :| 0 <= i < |lists| && p in lists[i];
        assert p in more[i];
      } else {
        assert p in more[n];
      }
    }
  }

  lemma {:induction false} NotBoth(owners: map<Pair, string>, rules: seq<Rule>, lists: seq<seq<Pair>>, i: nat, j: nat, p: Pair)
    requires |lists| == |rules| && Owns(owners, rules, lists) && i < j < |rules| && rules[i].id != rules[j].id
    ensures !(p in lists[i] && p in lists[j])
  {
    if p in lists[i] { assert p in owners && owners[p] == rules[i].id; }
    if p in lists[j] { assert p in owners && owners[p] == rules[j].id; }
  }

  lemma {:induction false} OwnedIsUnique(s: Session, rules: seq<Rule>, lists: seq<seq<Pair>>, owners: map<Pair, string>)
    requires DistinctIds(rules) && ListsFor(s, rules, lists) && Owns(owners, rules, lists)
    ensures AllGenerable(s, rules) && OwnershipUnique(s, rules)
  {
    forall i, j | 0 <= i < j < |rules| && rules[i].enabled && rules[j].enabled
      ensures RulePairs(s, rules[i]) !! RulePairs(s, rules[j])
    {
      forall p | p in RulePairs(s, rules[i]) ensures p !in RulePairs(s, rules[j]) {
        assert p in Elements(lists[i]);
        NotBoth(owners, rules, lists, i, j, p);
        assert p !in Elements(lists[j]);
      }
    }
  }

  /** `generate_declared_link_candidates`: it succeeds exactly when every enabled rule can be generated and no pair
      is declared twice, and then lists each rule's pairs in rule order with priorities 0, 1, 2, ... */
  method Generate(s: Session, rules: seq<Rule>) returns (r: Result<seq<Candidate>, GenError>, ghost lists: seq<seq<Pair>>)
    requires DistinctIds(rules)
    ensures r.Ok? <==> AllGenerable(s, rules) && OwnershipUnique(s, rules)
    ensures r.Ok? ==> ListsFor(s, rules, lists) && r.value == Flatten(rules, lists)
  {
    var candidates: seq<Candidate>, owners: map<Pair, string>, seen: set<(string, Pair)> := [], map[], {};
    lists := [];
    var n := 0;
    while n < |rules|
      invariant 0 <= n <= |rules| && ListsFor(s, rules[..n], lists) && candidates == Flatten(rules[..n], lists)
      invariant Owns(owners, rules[..n], lists)
      invariant forall key :: key in seen ==> exists i :: 0 <= i < n && rules[i].id == key.0
    {
      var rule := rules[n];
      ghost var list := [];
      if rule.enabled {
        var made := RuleList(s, rule);
        if made.Err? { return Err(made.error), lists; }
        var ok, after, seenAfter, claimed := ClaimPairs(rule, made.value, owners, seen);
        if !ok {
          ghost var p :| p in made.value && p in owners;
          OwnedElsewhere(s, rules, lists, owners, n, made.value, p);
          return Err(OwnedTwice), lists;
        }
        list := made.value;
        OwnsMore(rules, lists, n, list, owners, after);
        owners, seen, candidates := after, seenAfter, candidates + claimed;
      } else {
        OwnsMore(rules, lists, n, list, owners, owners);
      }
      Extended(s, rules, lists, n, list);
      lists := lists + [list];
      n := n + 1;
    }
    assert rules[..n] == rules;
    OwnedIsUnique(s, rules, lists, owners);
    r := Ok(candidates);
  }
}
