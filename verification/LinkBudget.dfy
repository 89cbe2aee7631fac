/** The candidate budget: a static bound checked before any pair exists, and the count checked afterwards. */
module LinkBudget {
  import opened Ordering
  import opened Wrappers
  import opened LinkTopology
  import opened LinkCandidates

  datatype Limits = Limits(perRule: nat, perTick: nat)

  function Max(a: nat, b: nat): nat {
    if a < b then b else a
  }

  /** The mode-aware upper bound; a dynamic topology has none and is refused at generation. */
  function StaticBound(rule: Rule): Option<nat> {
    match rule.topology
    case VisibleCandidates => Some(|rule.left.nodeIds| * |rule.right.nodeIds|)
    case NearestN(n) => Some(Max(|rule.left.nodeIds|, |rule.right.nodeIds|) * (if n == 0 then 1 else n))
    case ExplicitPairs(pairs) => Some(|pairs|)
    case NearestVisible => None
  }

  function BoundOf(rule: Rule): nat {
    if rule.enabled && StaticBound(rule).Some? then StaticBound(rule).value else 0
  }

  function Aggregate(rules: seq<Rule>): nat {
    if rules == [] then 0 else Aggregate(rules[..|rules| - 1]) + BoundOf(rules[|rules| - 1])
  }

  predicate WithinBudget(rules: seq<Rule>, limits: Limits) {
    (forall i :: 0 <= i < |rules| ==> BoundOf(rules[i]) <= limits.perRule) && Aggregate(rules) <= limits.perTick
  }

  /** `_enforce_declared_candidate_bounds`. Without limits a session of several segments must not have rules. */
  method EnforceDeclaredBounds(limits: Option<Limits>, segmentCount: nat, rules: seq<Rule>) returns (ok: bool)
    ensures ok <==> if limits.None? then !(segmentCount > 1 && rules != []) else WithinBudget(rules, limits.value)
  {
    if limits.None? { return !(segmentCount > 1 && rules != []); }
    var aggregate := 0;
    var i := 0;
    while i < |rules|
      invariant 0 <= i <= |rules| && aggregate == Aggregate(rules[..i])
      invariant forall k :: 0 <= k < i ==> BoundOf(rules[k]) <= limits.value.perRule
    {
      assert rules[..i + 1][..i] == rules[..i];
      if rules[i].enabled {
        var bound := StaticBound(rules[i]);
        if bound.Some? {
          aggregate := aggregate + bound.value;
          if bound.value > limits.value.perRule { return false; }
        }
      }
      i := i + 1;
    }
    assert rules[..i] == rules;
    ok := aggregate <= limits.value.perTick;
  }

  function CountRule(candidates: seq<Candidate>, id: string): nat {
    if candidates == [] then 0
    else CountRule(candidates[..|candidates| - 1], id) + if candidates[|candidates| - 1].ruleId == id then 1 else 0
  }

  ghost predicate WithinLimits(candidates: seq<Candidate>, limits: Limits) {
    (forall id :: CountRule(candidates, id) <= limits.perRule) && |candidates| <= limits.perTick
  }

  /** `_enforce_candidate_limits`: counts what was produced. */
  method EnforceCandidateLimits(candidates: seq<Candidate>, limits: Option<Limits>) returns (ok: bool)
    ensures ok <==> limits.None? || WithinLimits(candidates, limits.value)
  {
    if limits.None? { return true; }
    var counts: map<string, nat> := map[];
    var i := 0;
    while i < |candidates|
      invariant 0 <= i <= |candidates|
      invariant forall id :: (if id in counts then counts[id] else 0) == CountRule(candidates[..i], id)
    {
      assert candidates[..i + 1][..i] == candidates[..i];
      var id := candidates[i].ruleId;
      counts := counts[id := (if id in counts then counts[id] else 0) + 1];
      i := i + 1;
    }
    assert candidates[..i] == candidates;
    var oversized := exists id :: id in counts && counts[id] > limits.value.perRule;
    if !oversized {
      forall id ensures CountRule(candidates, id) <= limits.value.perRule {
        assert (if id in counts then counts[id] else 0) == CountRule(candidates, id);
      }
    }
    ok := !oversized && |candidates| <= limits.value.perTick;
  }

  // The bound dominates

  lemma {:induction false} RowBound(a: NodeId, right: seq<NodeId>)
    ensures |CrossPairs([a], right)| <= |right|
  {
    if right == [] {
      assert CrossPairs([a], right) == {};
    } else {
      var front, b := right[..|right| - 1], right[|right| - 1];
      RowBound(a, front);
      var whole, less := CrossPairs([a], right), CrossPairs([a], front);
      assert forall x :: x in right <==> x in front || x == b;
      assert whole <= less + {MakePair(a, b)};
      SubsetSize(whole, less + {MakePair(a, b)});
    }
  }

  lemma {:induction false} CrossSplit(front: seq<NodeId>, a: NodeId, right: seq<NodeId>)
    ensures CrossPairs(front + [a], right) <= CrossPairs(front, right) + CrossPairs([a], right)
  {
    forall p | p in CrossPairs(front + [a], right) ensures p in CrossPairs(front, right) + CrossPairs([a], right) {
      var x, y :| x in front + [a] && y in right && x != y && p == MakePair(x, y);
      if x in front { assert p in CrossPairs(front, right); } else { assert x in [a]; assert p in CrossPairs([a], right); }
    }
  }

  lemma {:induction false} CrossStep(front: seq<NodeId>, a: NodeId, right: seq<NodeId>)
    ensures |CrossPairs(front + [a], right)| <= |CrossPairs(front, right)| + |right|
  {
    RowBound(a, right);
    CrossSplit(front, a, right);
    SubsetSize(CrossPairs(front + [a], right), CrossPairs(front, right) + CrossPairs([a], right));
    UnionSize(CrossPairs(front, right), CrossPairs([a], right));
  }

  lemma {:induction false} OneMoreRow(n: nat, m: nat)
    ensures (n + 1) * m == n * m + m
  {}

  /** Deduplicated cross product: at most one pair per combination, whatever the sides share. */
  lemma {:induction false} CrossBound(left: seq<NodeId>, right: seq<NodeId>)
    ensures |CrossPairs(left, right)| <= |left| * |right|
  {
    if left == [] {
      assert CrossPairs(left, right) == {};
    } else {
      var front, a := left[..|left| - 1], left[|left| - 1];
      assert left == front + [a];
      CrossBound(front, right);
      CrossStep(front, a, right);
      OneMoreRow(|front|, |right|);
    }
  }

  lemma {:induction false} UnionSize(a: set<Pair>, b: set<Pair>)
    ensures |a + b| <= |a| + |b|
  {
    assert a + b == a + (b - a);
    assert |a + (b - a)| == |a| + |b - a|;
    SubsetSize(b - a, b);
  }

  lemma {:induction false} ExplicitBound(s: Session, rule: Rule, n: nat)
    requires rule.topology.ExplicitPairs? && Declares(s, rule) && n <= |rule.topology.pairs|
    ensures |set i | 0 <= i < n :: ResolveItem(s, rule, rule.topology.pairs[i]).value| <= n
  {
    var upto := set i | 0 <= i < n :: ResolveItem(s, rule, rule.topology.pairs[i]).value;
    if n == 0 {
      assert upto == {};
    } else {
      ExplicitBound(s, rule, n - 1);
      var less := set i | 0 <= i < n - 1 :: ResolveItem(s, rule, rule.topology.pairs[i]).value;
      var last := ResolveItem(s, rule, rule.topology.pairs[n - 1]).value;
      assert upto <= less + {last};
      SubsetSize(upto, less + {last});
    }
  }

  lemma {:induction false} NearestBound(s: Session, rule: Rule)
    requires rule.topology.NearestN? && Generable(s, rule)
    ensures |Nearest(s.keys, s.ranks.value, DeclaredPairs(s, rule), rule.topology.n)| <= |rule.left.nodeIds| * rule.topology.n
  {
    var order := Ranked(s.keys, s.ranks.value, DeclaredPairs(s, rule));
    CrossPairsProper(rule.left.nodeIds, rule.right.nodeIds);
    forall p | p in order ensures p.a in rule.left.nodeIds || p.b in rule.left.nodeIds { assert p in Elements(order); }
    GreedyBound(rule.left.nodeIds, order, rule.topology.n);
    NearestDistinct(s.keys, s.ranks.value, DeclaredPairs(s, rule), rule.topology.n);
  }

  lemma {:induction false} ProductMonotone(a: nat, b: nat, n: nat)
    requires a <= b
    ensures a * n <= b * n && (n == 0 ==> a * n <= b * 1)
  {
    assert b * n == a * n + (b - a) * n;
  }

  /** Whatever a rule produces stays under its static bound. */
  lemma {:induction false} BoundDominates(s: Session, rule: Rule, list: seq<Pair>)
    requires Generable(s, rule) && IsStatic(s, rule, list)
    ensures StaticBound(rule).Some? && |list| <= StaticBound(rule).value
  {
    DistinctSize(list);
    match rule.topology
    case VisibleCandidates => CrossBound(rule.left.nodeIds, rule.right.nodeIds);
    case ExplicitPairs(pairs) => ExplicitBound(s, rule, |pairs|);
    case NearestN(n) =>
      NearestBound(s, rule);
      ProductMonotone(|rule.left.nodeIds|, Max(|rule.left.nodeIds|, |rule.right.nodeIds|), n);
  }

  lemma {:induction false} CountAppend(a: seq<Candidate>, b: seq<Candidate>, id: string)
    ensures CountRule(a + b, id) == CountRule(a, id) + CountRule(b, id)
    decreases |b|
  {
    if b == [] {
      assert a + b == a;
    } else {
      CountAppend(a, b[..|b| - 1], id);
      assert (a + b)[..|a + b| - 1] == a + b[..|b| - 1];
    }
  }

  lemma {:induction false} CountOwn(candidates: seq<Candidate>, id: string, other: string)
    requires forall k :: 0 <= k < |candidates| ==> candidates[k].ruleId == id
    ensures CountRule(candidates, other) == if id == other then |candidates| else 0
  {
    if candidates != [] { CountOwn(candidates[..|candidates| - 1], id, other); }
  }

  /** Rule ids are unique, so a rule's count is the length of its own list. */
  lemma {:induction false} CountFlatten(s: Session, rules: seq<Rule>, lists: seq<seq<Pair>>, limit: nat, id: string)
    requires DistinctIds(rules) && |lists| == |rules|
    requires forall i :: 0 <= i < |rules| ==> |lists[i]| <= limit
    ensures CountRule(Flatten(rules, lists), id) <= limit
    ensures (forall i :: 0 <= i < |rules| ==> rules[i].id != id) ==> CountRule(Flatten(rules, lists), id) == 0
  {
    if rules != [] {
      var front, lfront := rules[..|rules| - 1], lists[..|lists| - 1];
      var last := CandidatesOf(rules[|rules| - 1], lists[|lists| - 1]);
      CountFlatten(s, front, lfront, limit, id);
      CountAppend(Flatten(front, lfront), last, id);
      CountOwn(last, rules[|rules| - 1].id, id);
    }
  }

  lemma {:induction false} TotalFlatten(s: Session, rules: seq<Rule>, lists: seq<seq<Pair>>)
    requires |lists| == |rules| && forall i :: 0 <= i < |rules| ==> |lists[i]| <= BoundOf(rules[i])
    ensures |Flatten(rules, lists)| <= Aggregate(rules)
  {
    if rules != [] { TotalFlatten(s, rules[..|rules| - 1], lists[..|lists| - 1]); }
  }

  /** Once the static check has passed, the check after generation can never refuse. */
  lemma {:induction false} BudgetSuffices(s: Session, rules: seq<Rule>, lists: seq<seq<Pair>>, limits: Limits)
    requires DistinctIds(rules) && ListsFor(s, rules, lists) && WithinBudget(rules, limits)
    ensures WithinLimits(Flatten(rules, lists), limits)
  {
    forall i | 0 <= i < |rules| ensures |lists[i]| <= BoundOf(rules[i]) {
      if rules[i].enabled { BoundDominates(s, rules[i], lists[i]); }
    }
    TotalFlatten(s, rules, lists);
    forall id ensures CountRule(Flatten(rules, lists), id) <= limits.perRule {
      CountFlatten(s, rules, lists, limits.perRule, id);
    }
  }
}
