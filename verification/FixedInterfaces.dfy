/** First-fit allocation of fixed interfaces to link candidates. */
module FixedInterfaces {
  import opened Ordering
  import opened Wrappers

  type NodeId = string

  datatype Block = Block(terminalId: string, role: string, medium: string)

  /** A terminal selector carries exactly one operator. */
  datatype Selector =
    | All(children: seq<Selector>)
    | Any(children: seq<Selector>)
    | Not(child: Selector)
    | Role(role: string)
    | Medium(medium: string)
    | Mount(mount: string)

  datatype Wan = Wan(name: string, terminalId: string)

  datatype Node = Node(id: NodeId, blocks: seq<Block>, wans: seq<Wan>)

  datatype Side = Side(nodeIds: seq<NodeId>, selector: Selector)

  datatype Rule = Rule(id: string, access: bool, left: Side, right: Side)

  predicate Matches(b: Block, s: Selector) {
    match s
    case All(children) => forall i :: 0 <= i < |children| ==> Matches(b, children[i])
    case Any(children) => exists i :: 0 <= i < |children| && Matches(b, children[i])
    case Not(child) => !Matches(b, child)
    case Role(role) => b.role == role
    case Medium(medium) => b.medium == medium
    case Mount(mount) => b.terminalId == mount
  }

  /** The block of a terminal; a later entry with the same id replaces an earlier one. */
  function BlockOf(blocks: seq<Block>, id: string): Option<Block> {
    if blocks == [] then None
    else if blocks[|blocks| - 1].terminalId == id then Some(blocks[|blocks| - 1])
    else BlockOf(blocks[..|blocks| - 1], id)
  }

  predicate SideAccepts(side: Side, node: NodeId, b: Block) {
    node in side.nodeIds && Matches(b, side.selector)
  }

  predicate Backed(node: Node, rule: Rule, w: Wan) {
    var b := BlockOf(node.blocks, w.terminalId);
    b.Some? && (SideAccepts(rule.left, node.id, b.value) || SideAccepts(rule.right, node.id, b.value))
  }

  predicate IsIsl(name: string) {
    |name| >= 3 && name[..3] == "isl"
  }

  /** `_eligible_fixed_interfaces`, in manifest order. */
  function Eligible(node: Node, rule: Rule): seq<string> {
    EligibleIn(node, rule, node.wans)
  }

  function EligibleIn(node: Node, rule: Rule, wans: seq<Wan>): seq<string> {
    if wans == [] then []
    else
      var front, w := EligibleIn(node, rule, wans[..|wans| - 1]), wans[|wans| - 1];
      if Backed(node, rule, w) && (rule.access || IsIsl(w.name)) then front + [w.name] else front
  }

  /** Eligible means: a manifest interface backed by a terminal that matches a side containing the node, and
      for a fixed rule one of the ISL interfaces. */
  lemma {:induction false} EligibleMeans(node: Node, rule: Rule, wans: seq<Wan>, name: string)
    ensures name in EligibleIn(node, rule, wans) <==>
            exists i :: 0 <= i < |wans| && wans[i].name == name && Backed(node, rule, wans[i]) && (rule.access || IsIsl(name))
  {
    if wans != [] {
      var front, w := wans[..|wans| - 1], wans[|wans| - 1];
      EligibleMeans(node, rule, front, name);
      if i :| 0 <= i < |wans| && wans[i].name == name && Backed(node, rule, wans[i]) && (rule.access || IsIsl(name)) {
        if i < |front| { assert front[i] == wans[i]; }
      }
      if name in EligibleIn(node, rule, front) {
        var i :| 0 <= i < |front| && front[i].name == name && Backed(node, rule, front[i]) && (rule.access || IsIsl(name));
        assert wans[i] == front[i];
      }
    }
  }

  // First fit

  /** One claim: a node needs an interface out of its eligible list. */
  datatype Request = Request(node: NodeId, eligible: seq<string>)

  function FirstFree(eligible: seq<string>, used: set<string>): (r: Option<string>)
    ensures r.None? <==> Elements(eligible) <= used
    ensures r.Some? ==> r.value in eligible && r.value !in used
  {
    if eligible == [] then None
    else if eligible[0] !in used then assert eligible[0] in Elements(eligible); Some(eligible[0])
    else
      assert Elements(eligible) == {eligible[0]} + Elements(eligible[1..]) by {
        assert eligible == [eligible[0]] + eligible[1..];
      }
      FirstFree(eligible[1..], used)
  }

  /** What the first k claims took from x. */
  function UsedBy(rs: seq<Request>, names: seq<string>, k: nat, x: NodeId): set<string>
    requires k <= |rs| && k <= |names|
  {
    if k == 0 then {} else UsedBy(rs, names, k - 1, x) + if rs[k - 1].node == x then {names[k - 1]} else {}
  }

  /** First fit over the first k claims. */
  function Assign(rs: seq<Request>, k: nat): (r: Option<seq<string>>)
    requires k <= |rs|
    ensures r.Some? ==> |r.value| == k
  {
    if k == 0 then Some([])
    else
      var before := Assign(rs, k - 1);
      if before.None? then None else Extend(rs, k - 1, before.value)
  }

  function Extend(rs: seq<Request>, k: nat, names: seq<string>): (r: Option<seq<string>>)
    requires k < |rs| && |names| == k
    ensures r.Some? ==> |r.value| == k + 1
  {
    var free := FirstFree(rs[k].eligible, UsedBy(rs, names, k, rs[k].node));
    if free.None? then None else Some(names + [free.value])
  }

  /** Each of the first k claims got one of its own interfaces that was still free. */
  ghost predicate Fits(rs: seq<Request>, names: seq<string>, k: nat) {
    k <= |rs| && k <= |names| && forall j :: 0 <= j < k ==> FitsAt(rs, names, j)
  }

  ghost predicate FitsAt(rs: seq<Request>, names: seq<string>, j: nat)
    requires j < |rs| && j < |names|
  {
    names[j] in rs[j].eligible && names[j] !in UsedBy(rs, names, j, rs[j].node)
  }

  lemma {:induction false} UsedPrefix(rs: seq<Request>, names: seq<string>, more: seq<string>, k: nat, x: NodeId)
    requires k <= |rs| && k <= |names|
    ensures UsedBy(rs, names + more, k, x) == UsedBy(rs, names, k, x)
  {
    if k > 0 { UsedPrefix(rs, names, more, k - 1, x); }
  }

  lemma {:induction false} ExtendFits(rs: seq<Request>, names: seq<string>, k: nat)
    requires k < |rs| && |names| == k && Fits(rs, names, k) && Extend(rs, k, names).Some?
    ensures Fits(rs, Extend(rs, k, names).value, k + 1)
  {
    var after := Extend(rs, k, names).value;
    forall j | 0 <= j < k + 1 ensures FitsAt(rs, after, j) {
      UsedPrefix(rs, names, [after[k]], j, rs[j].node);
      if j < k { assert FitsAt(rs, names, j); }
    }
  }

  lemma {:induction false} AssignFits(rs: seq<Request>, k: nat)
    requires k <= |rs| && Assign(rs, k).Some?
    ensures Fits(rs, Assign(rs, k).value, k)
  {
    if k > 0 {
      AssignFits(rs, k - 1);
      ExtendFits(rs, Assign(rs, k - 1).value, k - 1);
    }
  }

  lemma {:induction false} UsedContains(rs: seq<Request>, names: seq<string>, k: nat, i: nat)
    requires i < k <= |rs| && k <= |names|
    ensures names[i] in UsedBy(rs, names, k, rs[i].node)
  {
    if i < k - 1 { UsedContains(rs, names, k - 1, i); }
  }

  /** No interface of a node is ever given out twice, and each claim gets one of its own eligible interfaces. */
  lemma {:induction false} AssignSafe(rs: seq<Request>)
    requires Assign(rs, |rs|).Some?
    ensures var names := Assign(rs, |rs|).value;
            && (forall i :: 0 <= i < |rs| ==> names[i] in rs[i].eligible)
            && (forall i, j :: 0 <= i < j < |rs| && rs[i].node == rs[j].node ==> names[i] != names[j])
  {
    var names := Assign(rs, |rs|).value;
    AssignFits(rs, |rs|);
    forall i | 0 <= i < |rs| ensures names[i] in rs[i].eligible { assert FitsAt(rs, names, i); }
    forall i, j | 0 <= i < j < |rs| && rs[i].node == rs[j].node ensures names[i] != names[j] {
      UsedContains(rs, names, j, i);
      assert FitsAt(rs, names, j);
    }
  }

  // When first fit refuses

  /** On each node, two eligible sets are equal or have nothing in common. */
  ghost predicate Partitioned(rs: seq<Request>) {
    forall i, j :: 0 <= i < |rs| && 0 <= j < |rs| && rs[i].node == rs[j].node ==>
      Elements(rs[i].eligible) == Elements(rs[j].eligible) || Elements(rs[i].eligible) !! Elements(rs[j].eligible)
  }

  /** How many of the first k claims on x draw from the set. */
  function Demand(rs: seq<Request>, k: nat, x: NodeId, from: set<string>): nat
    requires k <= |rs|
  {
    if k == 0 then 0
    else Demand(rs, k - 1, x, from) + if rs[k - 1].node == x && Elements(rs[k - 1].eligible) == from then 1 else 0
  }

  ghost predicate Oversubscribed(rs: seq<Request>, k: nat)
    requires k <= |rs|
  {
    exists i :: 0 <= i < k && Demand(rs, k, rs[i].node, Elements(rs[i].eligible)) > |Elements(rs[i].eligible)|
  }

  /** Every eligible set of x's claims is the given one or has nothing in common with it. */
  ghost predicate Separate(rs: seq<Request>, x: NodeId, from: set<string>) {
    forall i :: 0 <= i < |rs| && rs[i].node == x ==> Elements(rs[i].eligible) == from || Elements(rs[i].eligible) !! from
  }

  lemma {:induction false} FitsBefore(rs: seq<Request>, names: seq<string>, k: nat)
    requires k > 0 && Fits(rs, names, k)
    ensures Fits(rs, names, k - 1) && FitsAt(rs, names, k - 1)
  {}

  /** So far, what a set has given out is exactly what was asked of it. */
  lemma {:induction false} GivenIsDemand(rs: seq<Request>, names: seq<string>, k: nat, x: NodeId, from: set<string>)
    requires Separate(rs, x, from) && Fits(rs, names, k)
    ensures |UsedBy(rs, names, k, x) * from| == Demand(rs, k, x, from)
    decreases k
  {
    if k == 0 {
      assert UsedBy(rs, names, 0, x) * from == {};
    } else {
      FitsBefore(rs, names, k);
      GivenIsDemand(rs, names, k - 1, x, from);
      GivenStep(rs, names, k, x, from);
    }
  }

  lemma {:induction false} GivenStep(rs: seq<Request>, names: seq<string>, k: nat, x: NodeId, from: set<string>)
    requires Separate(rs, x, from) && 0 < k <= |rs| && k <= |names| && FitsAt(rs, names, k - 1)
    requires |UsedBy(rs, names, k - 1, x) * from| == Demand(rs, k - 1, x, from)
    ensures |UsedBy(rs, names, k, x) * from| == Demand(rs, k, x, from)
  {
    if rs[k - 1].node == x {
      OneMoreGiven(UsedBy(rs, names, k - 1, x), names[k - 1], Elements(rs[k - 1].eligible), from);
    }
  }

  lemma {:induction false} OneMoreGiven(used: set<string>, name: string, eligible: set<string>, from: set<string>)
    requires name in eligible && name !in used && (eligible == from || eligible !! from)
    ensures |(used + {name}) * from| == |used * from| + if eligible == from then 1 else 0
  {
    if eligible == from {
      assert (used + {name}) * from == used * from + {name};
    } else {
      assert name !in from;
      assert (used + {name}) * from == used * from;
    }
  }

  /** With partitioned eligible sets, allocation fails exactly when some set is asked for more than it holds. */
  lemma {:induction false} RefusesExactly(rs: seq<Request>, k: nat)
    requires Partitioned(rs) && k <= |rs|
    ensures Assign(rs, k).None? <==> Oversubscribed(rs, k)
    decreases k
  {
    if k == 0 {
      assert !Oversubscribed(rs, 0);
    } else {
      RefusesExactly(rs, k - 1);
      RefusesStep(rs, k);
    }
  }

  lemma {:induction false} RefusesStep(rs: seq<Request>, k: nat)
    requires Partitioned(rs) && 0 < k <= |rs| && (Assign(rs, k - 1).None? <==> Oversubscribed(rs, k - 1))
    ensures Assign(rs, k).None? <==> Oversubscribed(rs, k)
  {
    if Assign(rs, k - 1).None? {
      StaysOversubscribed(rs, k - 1);
    } else {
      StepRefuses(rs, k - 1);
    }
  }

  lemma {:induction false} StaysOversubscribed(rs: seq<Request>, k: nat)
    requires k < |rs| && Oversubscribed(rs, k)
    ensures Oversubscribed(rs, k + 1)
  {
    var i :| 0 <= i < k && Demand(rs, k, rs[i].node, Elements(rs[i].eligible)) > |Elements(rs[i].eligible)|;
    assert Demand(rs, k + 1, rs[i].node, Elements(rs[i].eligible)) > |Elements(rs[i].eligible)|;
  }

  lemma {:induction false} SubsetIffSize(used: set<string>, from: set<string>)
    ensures from <= used <==> |used * from| >= |from|
  {
    SubsetSize(used * from, from);
    if |used * from| == |from| {
      assert from == (used * from) + (from - used);
      assert |from| == |used * from| + |from - used|;
      assert from - used == {};
    }
    if from <= used { assert used * from == from; }
  }

  lemma {:induction false} StepRefuses(rs: seq<Request>, k: nat)
    requires Partitioned(rs) && k < |rs| && Assign(rs, k).Some? && !Oversubscribed(rs, k)
    ensures Assign(rs, k + 1).None? <==> Oversubscribed(rs, k + 1)
  {
    var x, from := rs[k].node, Elements(rs[k].eligible);
    var names := Assign(rs, k).value;
    AssignFits(rs, k);
    GivenIsDemand(rs, names, k, x, from);
    SubsetIffSize(UsedBy(rs, names, k, x), from);
    assert Assign(rs, k + 1).None? <==> from <= UsedBy(rs, names, k, x);
    assert Demand(rs, k + 1, x, from) == Demand(rs, k, x, from) + 1;
    if Oversubscribed(rs, k + 1) { OnlyNewDemand(rs, k); }
  }

  lemma {:induction false} OnlyNewDemand(rs: seq<Request>, k: nat)
    requires k < |rs| && !Oversubscribed(rs, k) && Oversubscribed(rs, k + 1)
    ensures Demand(rs, k + 1, rs[k].node, Elements(rs[k].eligible)) > |Elements(rs[k].eligible)|
  {
    var i :| 0 <= i < k + 1 && Demand(rs, k + 1, rs[i].node, Elements(rs[i].eligible)) > |Elements(rs[i].eligible)|;
    if i < k {
      assert Demand(rs, k, rs[i].node, Elements(rs[i].eligible)) <= |Elements(rs[i].eligible)|;
    }
  }

  // The allocator

  function TakenOn(used: map<NodeId, set<string>>, x: NodeId): set<string> {
    if x in used then used[x] else {}
  }

  ghost predicate Records(used: map<NodeId, set<string>>, rs: seq<Request>, names: seq<string>, k: nat)
    requires k <= |rs| && k <= |names|
  {
    forall x :: TakenOn(used, x) == UsedBy(rs, names, k, x)
  }

  lemma {:induction false} RecordsMore(used: map<NodeId, set<string>>, rs: seq<Request>, names: seq<string>, name: string)
    requires |names| < |rs| && Records(used, rs, names, |names|)
    ensures var x := rs[|names|].node;
            Records(used[x := TakenOn(used, x) + {name}], rs, names + [name], |names| + 1)
  {
    var k, x := |names|, rs[|names|].node;
    var after := used[x := TakenOn(used, x) + {name}];
    forall y ensures TakenOn(after, y) == UsedBy(rs, names + [name], k + 1, y) {
      UsedPrefix(rs, names, [name], k, y);
      assert TakenOn(used, y) == UsedBy(rs, names, k, y);
    }
  }

  /** The scan of `_fixed_iface`. */
  method FindFree(eligible: seq<string>, taken: set<string>) returns (r: Option<string>)
    ensures r == FirstFree(eligible, taken)
  {
    var i := 0;
    while i < |eligible|
      invariant 0 <= i <= |eligible| && FirstFree(eligible, taken) == FirstFree(eligible[i..], taken)
    {
      if eligible[i] !in taken { return Some(eligible[i]); }
      assert eligible[i..][1..] == eligible[i + 1..];
      i := i + 1;
    }
    r := None;
  }

  /** The claims of all fixed candidates, in candidate order. */
  method AllocateAll(rs: seq<Request>) returns (r: Option<seq<string>>)
    ensures r == Assign(rs, |rs|)
  {
    var used: map<NodeId, set<string>> := map[];
    var names: seq<string> := [];
    while |names| < |rs|
      invariant |names| <= |rs| && Assign(rs, |names|) == Some(names) && Records(used, rs, names, |names|)
      decreases |rs| - |names|
    {
      var k, x := |names|, rs[|names|].node;
      var taken := TakenOn(used, x);
      var free := FindFree(rs[k].eligible, taken);
      if free.None? {
        assert Assign(rs, k + 1).None?;
        LaterStaysNone(rs, k + 1, |rs|);
        return None;
      }
      RecordsMore(used, rs, names, free.value);
      used := used[x := taken + {free.value}];
      names := names + [free.value];
    }
    r := Some(names);
  }

  lemma {:induction false} LaterStaysNone(rs: seq<Request>, j: nat, k: nat)
    requires j <= k <= |rs| && Assign(rs, j).None?
    ensures Assign(rs, k).None?
    decreases k - j
  {
    if j < k { LaterStaysNone(rs, j, k - 1); }
  }

  // Candidates and the later capacity check

  /** A fixed candidate's two claims, first end first. */
  function Claims(nodes: map<NodeId, Node>, rules: map<string, Rule>, links: seq<(string, NodeId, NodeId)>): (rs: seq<Request>)
    requires forall i :: 0 <= i < |links| ==> links[i].0 in rules && links[i].1 in nodes && links[i].2 in nodes
    ensures |rs| == 2 * |links|
    ensures forall i :: 0 <= i < |links| ==>
              && rs[2 * i] == Request(links[i].1, Eligible(nodes[links[i].1], rules[links[i].0]))
              && rs[2 * i + 1] == Request(links[i].2, Eligible(nodes[links[i].2], rules[links[i].0]))
  {
    if links == [] then []
    else
      var l := links[|links| - 1];
      Claims(nodes, rules, links[..|links| - 1])
      + [Request(l.1, Eligible(nodes[l.1], rules[l.0])), Request(l.2, Eligible(nodes[l.2], rules[l.0]))]
  }

  /** Interfaces the capacity check counts as fixed-link capable. */
  function Capable(node: Node): set<string> {
    set i | 0 <= i < |node.wans| && IsIsl(node.wans[i].name) :: node.wans[i].name
  }

  /** Whatever was allocated to a fixed candidate, `_validate_fixed_interface_capacity` accepts it: the claimed
      interface is an ISL interface of that node, backed by a terminal matching the rule on a side with the node. */
  lemma {:induction false} CapacityNeverRefuses(nodes: map<NodeId, Node>, rules: map<string, Rule>, links: seq<(string, NodeId, NodeId)>, i: nat)
    requires forall k :: 0 <= k < |links| ==> links[k].0 in rules && links[k].1 in nodes && links[k].2 in nodes
    requires forall k :: 0 <= k < |links| ==> !rules[links[k].0].access
    requires Assign(Claims(nodes, rules, links), 2 * |links|).Some? && i < |links|
    ensures var names := Assign(Claims(nodes, rules, links), 2 * |links|).value;
            && names[2 * i] in Capable(nodes[links[i].1]) && names[2 * i + 1] in Capable(nodes[links[i].2])
            && (exists w :: w in nodes[links[i].1].wans && w.name == names[2 * i] && Backed(nodes[links[i].1], rules[links[i].0], w))
            && (exists w :: w in nodes[links[i].2].wans && w.name == names[2 * i + 1] && Backed(nodes[links[i].2], rules[links[i].0], w))
  {
    var rs := Claims(nodes, rules, links);
    var names := Assign(rs, |rs|).value;
    AssignSafe(rs);
    EligibleCapable(nodes[links[i].1], rules[links[i].0], names[2 * i]);
    EligibleCapable(nodes[links[i].2], rules[links[i].0], names[2 * i + 1]);
  }

  lemma {:induction false} EligibleCapable(node: Node, rule: Rule, name: string)
    requires name in Eligible(node, rule) && !rule.access
    ensures name in Capable(node) && exists w :: w in node.wans && w.name == name && Backed(node, rule, w)
  {
    EligibleMeans(node, rule, node.wans, name);
    var i :| 0 <= i < |node.wans| && node.wans[i].name == name && Backed(node, rule, node.wans[i]);
    assert node.wans[i] in node.wans;
  }
}
