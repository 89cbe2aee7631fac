/** Loopback numbering: explicit pool assignments in order, then the resolver's own IPv4 defaults. */
module Loopbacks {
  import opened Ordering
  import opened Wrappers
  import opened AddressPools

  datatype Loopback = Loopback(v4: Option<nat>, v6: Option<nat>)

  datatype Node = Node(id: string, routed: bool, satellite: bool, bound: bool, lo0: Option<Loopback>)

  /** An authored assignment: which nodes it selects and the pools it owns. */
  datatype Assignment = Assignment(applies: string -> bool, v4: Option<Pool>, v6: Option<Pool>, length: Option<nat>)

  datatype AddressError = NoNodesMatched | PoolRefused(reason: PoolError) | DefaultsExhausted | Unnumbered

  const DEFAULT_POOL := Pool(V4, 0x6440_0000, 10)

  function Address(n: Node, f: Family): Option<nat> {
    if n.lo0.None? then None else if f.V4? then n.lo0.value.v4 else n.lo0.value.v6
  }

  function PoolFor(a: Assignment, f: Family): Option<Pool> {
    if f.V4? then a.v4 else a.v6
  }

  ghost predicate ValidAssignment(a: Assignment) {
    && (a.v4.Some? ==> ValidPool(a.v4.value) && a.v4.value.family.V4?)
    && (a.v6.Some? ==> ValidPool(a.v6.value) && a.v6.value.family.V6?)
  }

  /** No two nodes share a loopback of this family. */
  ghost predicate Unshared(nodes: seq<Node>, f: Family) {
    forall i, j :: 0 <= i < j < |nodes| && Address(nodes[i], f).Some? ==> Address(nodes[i], f) != Address(nodes[j], f)
  }

  /** Addresses of one family on the nodes outside `skip`. */
  function Held(nodes: seq<Node>, f: Family, skip: string -> bool): set<nat> {
    set i | 0 <= i < |nodes| && !skip(nodes[i].id) && Address(nodes[i], f).Some? :: Address(nodes[i], f).value
  }

  /** Numbering changes nothing but loopbacks. */
  ghost predicate OnlyLoopbacks(before: seq<Node>, after: seq<Node>) {
    |before| == |after| && forall i :: 0 <= i < |before| ==> after[i] == before[i].(lo0 := after[i].lo0)
  }

  function Rank(nodes: seq<Node>, p: Node -> bool, k: nat): nat
    requires k <= |nodes|
  {
    if k == 0 then 0 else Rank(nodes, p, k - 1) + if p(nodes[k - 1]) then 1 else 0
  }

  function Count(nodes: seq<Node>, p: Node -> bool): nat {
    Rank(nodes, p, |nodes|)
  }

  lemma {:induction false} RankGrows(nodes: seq<Node>, p: Node -> bool, i: nat, j: nat)
    requires i < j <= |nodes|
    ensures Rank(nodes, p, i) + (if p(nodes[i]) then 1 else 0) <= Rank(nodes, p, j)
    decreases j - i
  {
    if i + 1 < j { RankGrows(nodes, p, i, j - 1); }
  }

  /** Fresh addresses, distinct and clear of what the others keep, leave no two nodes sharing one. */
  lemma {:induction false} GrantKeepsUnshared(before: seq<Node>, after: seq<Node>, f: Family, granted: Node -> bool, kept: set<nat>)
    requires |before| == |after| && Unshared(before, f)
    requires forall i :: 0 <= i < |before| && !granted(before[i]) ==>
               && Address(after[i], f) == Address(before[i], f)
               && (Address(before[i], f).Some? ==> Address(before[i], f).value in kept)
    requires forall i :: 0 <= i < |before| && granted(before[i]) ==> Address(after[i], f).Some? && Address(after[i], f).value !in kept
    requires forall i, j :: 0 <= i < j < |before| && granted(before[i]) && granted(before[j]) ==> Address(after[i], f) != Address(after[j], f)
    ensures Unshared(after, f)
  {
    forall i, j | 0 <= i < j < |after| && Address(after[i], f).Some? ensures Address(after[i], f) != Address(after[j], f) {
      if granted(before[i]) != granted(before[j]) {
        assert Address(before[i], f).Some? ==> true;
        assert Address(before[j], f).Some? ==> true;
      }
    }
  }

  // ---- explicit assignments ----

  function Selects(a: Assignment): Node -> bool {
    (n: Node) => a.applies(n.id)
  }

  /** The addresses an assignment hands out in a family, in node order; none when it does not pool that family. */
  ghost function Grant(nodes: seq<Node>, a: Assignment, f: Family): Result<Option<seq<nat>>, PoolError>
    requires ValidAssignment(a)
  {
    if PoolFor(a, f).None? then Ok(None)
    else match Allocation(PoolFor(a, f).value, a.length, Count(nodes, Selects(a)), Held(nodes, f, a.applies))
      case Ok(got) => Ok(Some(got))
      case Err(e) => Err(e)
  }

  /** `after` is `nodes` with every selected node's pooled families taken from the pool, in order. */
  ghost predicate Granted(nodes: seq<Node>, a: Assignment, f: Family, after: seq<Node>)
    requires ValidAssignment(a) && |after| == |nodes|
  {
    var g := Grant(nodes, a, f);
    g.Ok? && forall i :: 0 <= i < |nodes| ==> Address(after[i], f) == NewAddress(nodes, a, f, g.value, i)
  }

  function At(got: Option<seq<nat>>, k: nat): Option<nat> {
    if got.Some? && k < |got.value| then Some(got.value[k]) else None
  }

  /** What node i holds once the k-th selected node has the k-th address. */
  function NewAddress(nodes: seq<Node>, a: Assignment, f: Family, got: Option<seq<nat>>, i: nat): Option<nat>
    requires i < |nodes|
  {
    if a.applies(nodes[i].id) && got.Some? then At(got, Rank(nodes, Selects(a), i)) else Address(nodes[i], f)
  }

  ghost predicate Assigned(nodes: seq<Node>, a: Assignment, after: seq<Node>)
    requires ValidAssignment(a)
  {
    && OnlyLoopbacks(nodes, after) && Granted(nodes, a, V4, after) && Granted(nodes, a, V6, after)
    && forall i :: 0 <= i < |nodes| && (!a.applies(nodes[i].id) || (a.v4.None? && a.v6.None?)) ==> after[i] == nodes[i]
  }

  /** A selected node's new address: in the pool, off the other nodes, and not another selected node's. */
  lemma {:induction false} GrantIsFresh(nodes: seq<Node>, a: Assignment, f: Family, after: seq<Node>, i: nat)
    requires ValidAssignment(a) && |after| == |nodes| && Granted(nodes, a, f, after)
    requires i < |nodes| && a.applies(nodes[i].id) && PoolFor(a, f).Some?
    ensures Address(after[i], f).Some? && Address(after[i], f).value !in Held(nodes, f, a.applies)
    ensures InPool(PoolFor(a, f).value, Address(after[i], f).value)
    ensures forall j :: i < j < |nodes| && a.applies(nodes[j].id) ==> Address(after[i], f) != Address(after[j], f)
  {
    var p, sel := PoolFor(a, f).value, Selects(a);
    var reserved := Held(nodes, f, a.applies);
    var got := Grant(nodes, a, f).value.value;
    assert got == FreeSlots(p, a.length.value, reserved)[..Count(nodes, sel)];
    AllocationIsGood(p, a.length.value, reserved, Count(nodes, sel));
    assert sel(nodes[i]);
    RankGrows(nodes, sel, i, |nodes|);
    assert got[Rank(nodes, sel, i)] in got;
    forall j | i < j < |nodes| && a.applies(nodes[j].id) ensures Address(after[i], f) != Address(after[j], f) {
      assert sel(nodes[j]);
      RankGrows(nodes, sel, i, j);
      RankGrows(nodes, sel, j, |nodes|);
    }
  }

  ghost predicate InPool(p: Pool, x: nat) {
    p.prefix <= Bits(p.family) && p.base <= x < p.base + Size(p)
  }

  /** An assignment never makes two nodes share a loopback. */
  lemma {:induction false} AssignedKeepsUnshared(nodes: seq<Node>, a: Assignment, f: Family, after: seq<Node>)
    requires ValidAssignment(a) && |after| == |nodes| && Granted(nodes, a, f, after) && Unshared(nodes, f)
    ensures Unshared(after, f)
  {
    if PoolFor(a, f).Some? {
      forall i | 0 <= i < |nodes| && Selects(a)(nodes[i])
        ensures Address(after[i], f).Some? && Address(after[i], f).value !in Held(nodes, f, a.applies)
        ensures forall j :: i < j < |nodes| && Selects(a)(nodes[j]) ==> Address(after[i], f) != Address(after[j], f)
      {
        GrantIsFresh(nodes, a, f, after, i);
      }
      GrantKeepsUnshared(nodes, after, f, Selects(a), Held(nodes, f, a.applies));
    }
  }

  function Merge(n: Node, a: Assignment, v4: Option<nat>, v6: Option<nat>): Node {
    if n.lo0.None? then n.(lo0 := Some(Loopback(v4, v6)))
    else n.(lo0 := Some(Loopback(if a.v4.Some? then v4 else n.lo0.value.v4, if a.v6.Some? then v6 else n.lo0.value.v6)))
  }

  /** Walks one family's pool, when the assignment has one. */
  method GrantFamily(nodes: seq<Node>, a: Assignment, f: Family, count: nat) returns (r: Result<Option<seq<nat>>, PoolError>)
    requires ValidAssignment(a) && count == Count(nodes, Selects(a))
    ensures r == Grant(nodes, a, f)
  {
    if PoolFor(a, f).None? { return Ok(None); }
    var got := AllocatePool(PoolFor(a, f).value, a.length, count, Held(nodes, f, a.applies));
    if got.Err? { return Err(got.error); }
    r := Ok(Some(got.value));
  }

  method CountNodes(nodes: seq<Node>, p: Node -> bool) returns (count: nat)
    ensures count == Count(nodes, p)
    ensures count == 0 <==> forall i :: 0 <= i < |nodes| ==> !p(nodes[i])
  {
    count := 0;
    for i := 0 to |nodes|
      invariant count == Rank(nodes, p, i)
      invariant count == 0 <==> forall k :: 0 <= k < i ==> !p(nodes[k])
    {
      if p(nodes[i]) { count := count + 1; }
    }
  }

  ghost function AssignError(nodes: seq<Node>, a: Assignment): Option<AddressError>
    requires ValidAssignment(a)
  {
    if forall i :: 0 <= i < |nodes| ==> !a.applies(nodes[i].id) then Some(NoNodesMatched)
    else if Grant(nodes, a, V4).Err? then Some(PoolRefused(Grant(nodes, a, V4).error))
    else if Grant(nodes, a, V6).Err? then Some(PoolRefused(Grant(nodes, a, V6).error))
    else None
  }

  /** One round of the assignment loop. */
  method Assign(nodes: seq<Node>, a: Assignment) returns (r: Result<seq<Node>, AddressError>)
    requires ValidAssignment(a)
    ensures AssignError(nodes, a).Some? ==> r == Err(AssignError(nodes, a).value)
    ensures AssignError(nodes, a).None? ==> r.Ok? && Assigned(nodes, a, r.value)
  {
    var count := CountNodes(nodes, Selects(a));
    assert forall i :: 0 <= i < |nodes| ==> Selects(a)(nodes[i]) == a.applies(nodes[i].id);
    if count == 0 { return Err(NoNodesMatched); }
    var g4 := GrantFamily(nodes, a, V4, count);
    if g4.Err? { return Err(PoolRefused(g4.error)); }
    var g6 := GrantFamily(nodes, a, V6, count);
    if g6.Err? { return Err(PoolRefused(g6.error)); }
    var after := Rebuild(nodes, a, g4.value, g6.value);
    forall i | 0 <= i < |nodes|
      ensures after[i] == nodes[i].(lo0 := after[i].lo0)
      ensures Address(after[i], V4) == NewAddress(nodes, a, V4, g4.value, i)
      ensures Address(after[i], V6) == NewAddress(nodes, a, V6, g6.value, i)
      ensures (!a.applies(nodes[i].id) || (a.v4.None? && a.v6.None?)) ==> after[i] == nodes[i]
    {
      RenumberedAddresses(nodes, a, g4.value, g6.value, i);
    }
    r := Ok(after);
  }

  /** A selected node takes the addresses of the families the assignment pools and keeps the others. */
  function Renumbered(nodes: seq<Node>, a: Assignment, g4: Option<seq<nat>>, g6: Option<seq<nat>>, i: nat): Node
    requires i < |nodes|
  {
    var k := Rank(nodes, Selects(a), i);
    if a.applies(nodes[i].id) && (a.v4.Some? || a.v6.Some?) then Merge(nodes[i], a, At(g4, k), At(g6, k)) else nodes[i]
  }

  lemma {:induction false} RenumberedAddresses(nodes: seq<Node>, a: Assignment, g4: Option<seq<nat>>, g6: Option<seq<nat>>, i: nat)
    requires i < |nodes| && a.v4.Some? == g4.Some? && a.v6.Some? == g6.Some?
    ensures var n := Renumbered(nodes, a, g4, g6, i);
            && n == nodes[i].(lo0 := n.lo0)
            && Address(n, V4) == NewAddress(nodes, a, V4, g4, i)
            && Address(n, V6) == NewAddress(nodes, a, V6, g6, i)
  {}

  method Rebuild(nodes: seq<Node>, a: Assignment, g4: Option<seq<nat>>, g6: Option<seq<nat>>) returns (after: seq<Node>)
    ensures |after| == |nodes| && forall i :: 0 <= i < |nodes| ==> after[i] == Renumbered(nodes, a, g4, g6, i)
  {
    after := [];
    var next := 0;
    for i := 0 to |nodes|
      invariant |after| == i && next == Rank(nodes, Selects(a), i)
      invariant forall k :: 0 <= k < i ==> after[k] == Renumbered(nodes, a, g4, g6, k)
    {
      if !a.applies(nodes[i].id) || (a.v4.None? && a.v6.None?) {
        after := after + [nodes[i]];
      } else {
        after := after + [Merge(nodes[i], a, At(g4, next), At(g6, next))];
      }
      if Selects(a)(nodes[i]) { next := next + 1; }
    }
  }

  // ---- the resolver's own pool ----

  /** The host addresses of the resolver's pool that no node holds, in order. */
  function DefaultSlots(nodes: seq<Node>): seq<nat> {
    FreeSlots(DEFAULT_POOL, 32, Held(nodes, V4, (id: string) => false))
  }

  /** How many addresses the generator has yielded before this position of the pool. */
  ghost function Yielded(reserved: set<nat>, offset: nat): nat {
    |FreeUpTo(DEFAULT_POOL, 32, reserved, offset)|
  }

  /** One step of the generator: the next host address outside `reserved`, or the end of the pool. */
  method NextHost(reserved: set<nat>, offset: nat) returns (address: Option<nat>, next: nat)
    requires offset <= Available(DEFAULT_POOL, 32)
    ensures next <= Available(DEFAULT_POOL, 32)
    ensures var slots, k := FreeSlots(DEFAULT_POOL, 32, reserved), Yielded(reserved, offset);
            if address.Some? then k < |slots| && address.value == slots[k] && Yielded(reserved, next) == k + 1
            else k == |slots|
  {
    next := offset;
    while next < Available(DEFAULT_POOL, 32)
      invariant offset <= next <= Available(DEFAULT_POOL, 32)
      invariant FreeUpTo(DEFAULT_POOL, 32, reserved, next) == FreeUpTo(DEFAULT_POOL, 32, reserved, offset)
    {
      var x := Slot(DEFAULT_POOL, 32, next);
      next := next + 1;
      if x !in reserved {
        FreePrefix(DEFAULT_POOL, 32, reserved, next, Available(DEFAULT_POOL, 32));
        return Some(x), next;
      }
    }
    address := None;
  }

  /** The generator cannot have yielded more than the pool has free. */
  lemma {:induction false} YieldedBound(reserved: set<nat>, offset: nat)
    requires offset <= Available(DEFAULT_POOL, 32)
    ensures Yielded(reserved, offset) <= |FreeSlots(DEFAULT_POOL, 32, reserved)|
  {
    FreePrefix(DEFAULT_POOL, 32, reserved, offset, Available(DEFAULT_POOL, 32));
  }

  predicate NeedsDefault(n: Node) {
    n.routed && n.satellite && Address(n, V4).None?
  }

  function WithIpv4(n: Node, x: nat): Node {
    n.(lo0 := Some(Loopback(Some(x), Address(n, V6))))
  }

  /** `after` is `nodes` with the k-th routed satellite lacking IPv4 given the k-th free host address. */
  ghost predicate DefaultsFilled(nodes: seq<Node>, after: seq<Node>) {
    && |after| == |nodes| && Count(nodes, NeedsDefault) <= |DefaultSlots(nodes)|
    && forall i :: 0 <= i < |nodes| ==> after[i] == FilledAt(nodes, DefaultSlots(nodes), i)
  }

  function FilledAt(nodes: seq<Node>, slots: seq<nat>, i: nat): Node
    requires i < |nodes|
  {
    var k := Rank(nodes, NeedsDefault, i);
    if NeedsDefault(nodes[i]) && k < |slots| then WithIpv4(nodes[i], slots[k]) else nodes[i]
  }

  ghost predicate FilledSoFar(nodes: seq<Node>, slots: seq<nat>, after: seq<Node>) {
    |after| <= |nodes| && forall k :: 0 <= k < |after| ==> after[k] == FilledAt(nodes, slots, k)
  }

  lemma {:induction false} FilledOneMore(nodes: seq<Node>, slots: seq<nat>, after: seq<Node>, next: Node)
    requires FilledSoFar(nodes, slots, after) && |after| < |nodes| && next == FilledAt(nodes, slots, |after|)
    ensures FilledSoFar(nodes, slots, after + [next])
  {}

  /** The generator stands at `offset` and has yielded k addresses. */
  ghost predicate Walked(reserved: set<nat>, offset: nat, k: nat) {
    offset <= Available(DEFAULT_POOL, 32) && Yielded(reserved, offset) == k
  }

  /** One node that needs an address. */
  method FillNext(nodes: seq<Node>, i: nat, reserved: set<nat>, offset: nat) returns (r: Option<Node>, next: nat)
    requires i < |nodes| && NeedsDefault(nodes[i]) && Walked(reserved, offset, Rank(nodes, NeedsDefault, i))
    ensures r.None? ==> Count(nodes, NeedsDefault) > |FreeSlots(DEFAULT_POOL, 32, reserved)|
    ensures r.Some? ==> r.value == FilledAt(nodes, FreeSlots(DEFAULT_POOL, 32, reserved), i)
    ensures r.Some? ==> Walked(reserved, next, Rank(nodes, NeedsDefault, i + 1))
  {
    var address;
    address, next := NextHost(reserved, offset);
    if address.None? {
      RankGrows(nodes, NeedsDefault, i, |nodes|);
      return None, next;
    }
    r := Some(WithIpv4(nodes[i], address.value));
  }

  method FillDefaults(nodes: seq<Node>) returns (r: Result<seq<Node>, AddressError>)
    ensures if Count(nodes, NeedsDefault) <= |DefaultSlots(nodes)| then r.Ok? && DefaultsFilled(nodes, r.value)
            else r == Err(DefaultsExhausted)
  {
    var reserved := Held(nodes, V4, (id: string) => false);
    ghost var slots := DefaultSlots(nodes);
    var after: seq<Node> := [];
    var offset: nat := 0;
    for i := 0 to |nodes|
      invariant |after| == i && Walked(reserved, offset, Rank(nodes, NeedsDefault, i))
      invariant FilledSoFar(nodes, slots, after)
    {
      if !NeedsDefault(nodes[i]) {
        FilledOneMore(nodes, slots, after, nodes[i]);
        after := after + [nodes[i]];
      } else {
        var filled, next := FillNext(nodes, i, reserved, offset);
        if filled.None? { return Err(DefaultsExhausted); }
        offset := next;
        FilledOneMore(nodes, slots, after, filled.value);
        after := after + [filled.value];
      }
    }
    YieldedBound(reserved, offset);
    r := Ok(after);
  }

  /** A filled node's address: off every other node, and not another filled node's. */
  lemma {:induction false} DefaultIsFresh(nodes: seq<Node>, after: seq<Node>, i: nat)
    requires DefaultsFilled(nodes, after) && i < |nodes| && NeedsDefault(nodes[i])
    ensures after[i].lo0.Some? && Address(after[i], V4).Some? && Address(after[i], V6) == Address(nodes[i], V6)
    ensures Address(after[i], V4).value !in Held(nodes, V4, (id: string) => false)
    ensures forall j :: i < j < |nodes| && NeedsDefault(nodes[j]) ==> Address(after[i], V4) != Address(after[j], V4)
  {
    var slots, reserved := DefaultSlots(nodes), Held(nodes, V4, (id: string) => false);
    FreeAre(DEFAULT_POOL, 32, reserved, Available(DEFAULT_POOL, 32));
    RankGrows(nodes, NeedsDefault, i, |nodes|);
    assert slots[Rank(nodes, NeedsDefault, i)] in slots;
    forall j | i < j < |nodes| && NeedsDefault(nodes[j]) ensures Address(after[i], V4) != Address(after[j], V4) {
      RankGrows(nodes, NeedsDefault, i, j);
      RankGrows(nodes, NeedsDefault, j, |nodes|);
    }
  }

  /** What the defaults do: only add IPv4, where a routed satellite has none. */
  ghost predicate AddsDefaults(nodes: seq<Node>, after: seq<Node>) {
    && OnlyLoopbacks(nodes, after)
    && forall i :: 0 <= i < |nodes| ==>
         && Address(after[i], V6) == Address(nodes[i], V6)
         && (if NeedsDefault(nodes[i]) then Address(after[i], V4).Some? else after[i] == nodes[i])
  }

  lemma {:induction false} DefaultsKeepUnshared(nodes: seq<Node>, after: seq<Node>)
    requires DefaultsFilled(nodes, after)
    ensures AddsDefaults(nodes, after)
    ensures Unshared(nodes, V4) ==> Unshared(after, V4)
    ensures Unshared(nodes, V6) ==> Unshared(after, V6)
  {
    forall i | 0 <= i < |nodes| && NeedsDefault(nodes[i])
      ensures after[i].lo0.Some? && Address(after[i], V4).Some? && Address(after[i], V6) == Address(nodes[i], V6)
      ensures Address(after[i], V4).value !in Held(nodes, V4, (id: string) => false)
      ensures forall j :: i < j < |nodes| && NeedsDefault(nodes[j]) ==> Address(after[i], V4) != Address(after[j], V4)
    {
      DefaultIsFresh(nodes, after, i);
    }
    if Unshared(nodes, V4) {
      GrantKeepsUnshared(nodes, after, V4, NeedsDefault, Held(nodes, V4, (id: string) => false));
    }
  }

  // ---- placed nodes, numbered while their segments are allocated ----

  ghost predicate DistinctIds(nodes: seq<Node>) {
    forall i, j :: 0 <= i < j < |nodes| ==> nodes[i].id != nodes[j].id
  }

  predicate IsBound(n: Node) {
    n.bound
  }

  /** Ids of the placed nodes among the first k. */
  ghost function BoundIds(nodes: seq<Node>, k: nat): set<string>
    requires k <= |nodes|
  {
    set i | 0 <= i < k && nodes[i].bound :: nodes[i].id
  }

  function IdOrder(): (Node, Node) -> bool {
    By((n: Node) => n.id, StringLt)
  }

  /** Placed nodes take the resolver's free host addresses in id order; nothing else changes. */
  ghost predicate PlacedNumbered(nodes: seq<Node>, after: seq<Node>) {
    && OnlyLoopbacks(nodes, after)
    && (forall i :: 0 <= i < |nodes| && !nodes[i].bound ==> after[i] == nodes[i])
    && (forall i :: 0 <= i < |nodes| && nodes[i].bound ==> exists x :: after[i].lo0 == Some(Loopback(Some(x), None)) && x in DefaultSlots(nodes))
    && (forall i, j :: 0 <= i < |nodes| && 0 <= j < |nodes| && nodes[i].bound && nodes[j].bound && StringLt(nodes[i].id, nodes[j].id)
         ==> Address(after[i], V4).Some? && Address(after[j], V4).Some? && Address(after[i], V4).value < Address(after[j], V4).value)
  }

  lemma {:induction false} RankIsSize(nodes: seq<Node>, k: nat)
    requires DistinctIds(nodes) && k <= |nodes|
    ensures Rank(nodes, IsBound, k) == |BoundIds(nodes, k)|
  {
    if k > 0 {
      RankIsSize(nodes, k - 1);
      var before, after, id := BoundIds(nodes, k - 1), BoundIds(nodes, k), nodes[k - 1].id;
      if nodes[k - 1].bound {
        assert id !in before;
        assert after == before + {id};
      } else {
        assert after == before;
      }
    }
  }

  /** Sorting by id keeps the nodes and orders their ids. */
  lemma {:induction false} IdsSorted(nodes: seq<Node>)
    requires DistinctIds(nodes)
    ensures var order := Sort(IdOrder(), nodes);
            && Increasing(IdOrder(), order) && Elements(order) == Elements(nodes) && DistinctIds(order)
            && BoundIds(order, |order|) == BoundIds(nodes, |nodes|)
  {
    StringTotal();
    TotalIsWeak(StringLt);
    ByWeak((n: Node) => n.id, StringLt);
    forall x, y | x in nodes && y in nodes && x != y ensures IdOrder()(x, y) || IdOrder()(y, x) {
      var i :| 0 <= i < |nodes| && nodes[i] == x;
      var j :| 0 <= j < |nodes| && nodes[j] == y;
      assert x.id != y.id;
    }
    SortIncreasing(IdOrder(), nodes);
    var order := Sort(IdOrder(), nodes);
    assert forall i, j :: 0 <= i < j < |order| ==> IdOrder()(order[i], order[j]);
    assert forall x :: x in order <==> x in nodes by {
      assert forall x :: x in Elements(order) <==> x in order;
      assert forall x :: x in Elements(nodes) <==> x in nodes;
    }
    forall id ensures id in BoundIds(order, |order|) <==> id in BoundIds(nodes, |nodes|) {
      SameBound(order, nodes, id);
      SameBound(nodes, order, id);
    }
  }

  lemma {:induction false} SameBound(a: seq<Node>, b: seq<Node>, id: string)
    requires forall x :: x in a ==> x in b
    ensures id in BoundIds(a, |a|) ==> id in BoundIds(b, |b|)
  {
    if id in BoundIds(a, |a|) {
      var i :| 0 <= i < |a| && a[i].bound && a[i].id == id;
      assert a[i] in a;
      var j :| 0 <= j < |b| && b[j] == a[i];
    }
  }

  /** Addresses handed out along the id order: the m-th placed node's is the m-th free slot. */
  ghost predicate Handed(order: seq<Node>, k: nat, given: map<string, nat>, slots: seq<nat>)
    requires k <= |order|
  {
    && Rank(order, IsBound, k) <= |slots|
    && forall m :: 0 <= m < k && order[m].bound ==>
         && Rank(order, IsBound, m) < |slots| && order[m].id in given && given[order[m].id] == slots[Rank(order, IsBound, m)]
  }

  lemma {:induction false} HandedIsPlaced(nodes: seq<Node>, order: seq<Node>, given: map<string, nat>, after: seq<Node>)
    requires DistinctIds(nodes) && order == Sort(IdOrder(), nodes)
    requires Handed(order, |order|, given, DefaultSlots(nodes))
    requires |after| == |nodes| && forall i :: 0 <= i < |nodes| ==> after[i] == PlacedAt(nodes[i], given)
    ensures PlacedNumbered(nodes, after)
  {
    IdsSorted(nodes);
    FreeAscending(DEFAULT_POOL, 32, Held(nodes, V4, (id: string) => false), Available(DEFAULT_POOL, 32));
    HandedAlong(nodes, order, given, DefaultSlots(nodes));
  }

  /** Along the id order each placed node has a slot of its own, and they ascend with the ids. */
  lemma {:induction false} HandedAlong(nodes: seq<Node>, order: seq<Node>, given: map<string, nat>, slots: seq<nat>)
    requires Increasing(IdOrder(), order) && Elements(order) == Elements(nodes) && Handed(order, |order|, given, slots)
    requires forall i, j :: 0 <= i < j < |slots| ==> slots[i] < slots[j]
    ensures forall i :: 0 <= i < |nodes| && nodes[i].bound ==> nodes[i].id in given && given[nodes[i].id] in slots
    ensures forall i, j :: 0 <= i < |nodes| && 0 <= j < |nodes| && nodes[i].bound && nodes[j].bound && StringLt(nodes[i].id, nodes[j].id)
              ==> given[nodes[i].id] < given[nodes[j].id]
  {
    forall i | 0 <= i < |nodes| && nodes[i].bound
      ensures nodes[i].id in given && given[nodes[i].id] in slots
    {
      var m := PositionOf(nodes, order, i);
      HandedSlot(order, given, slots, m);
    }
    forall i, j | 0 <= i < |nodes| && 0 <= j < |nodes| && nodes[i].bound && nodes[j].bound && StringLt(nodes[i].id, nodes[j].id)
      ensures given[nodes[i].id] < given[nodes[j].id]
    {
      var m := PositionOf(nodes, order, i);
      var n := PositionOf(nodes, order, j);
      HandedInOrder(order, given, slots, m, n);
    }
  }

  lemma {:induction false} HandedSlot(order: seq<Node>, given: map<string, nat>, slots: seq<nat>, m: nat)
    requires Handed(order, |order|, given, slots) && m < |order| && order[m].bound
    ensures order[m].id in given && given[order[m].id] in slots
  {}

  lemma {:induction false} HandedInOrder(order: seq<Node>, given: map<string, nat>, slots: seq<nat>, m: nat, n: nat)
    requires Increasing(IdOrder(), order) && Handed(order, |order|, given, slots)
    requires m < |order| && n < |order| && order[m].bound && order[n].bound && StringLt(order[m].id, order[n].id)
    requires forall i, j :: 0 <= i < j < |slots| ==> slots[i] < slots[j]
    ensures given[order[m].id] < given[order[n].id]
  {
    OrderedBefore(order, m, n);
    RankGrows(order, IsBound, m, n);
  }

  lemma {:induction false} OrderedBefore(order: seq<Node>, m: nat, n: nat)
    requires Increasing(IdOrder(), order) && m < |order| && n < |order| && StringLt(order[m].id, order[n].id)
    ensures m < n
  {
    if n <= m {
      StringIrreflexive(order[m].id);
      if n < m {
        assert IdOrder()(order[n], order[m]);
        StringTransitive(order[m].id, order[n].id, order[m].id);
      }
    }
  }

  lemma {:induction false} PositionOf(nodes: seq<Node>, order: seq<Node>, i: nat) returns (m: nat)
    requires i < |nodes| && Elements(order) == Elements(nodes)
    ensures m < |order| && order[m] == nodes[i]
  {
    assert nodes[i] in Elements(order);
    m :| 0 <= m < |order| && order[m] == nodes[i];
  }

  function PlacedAt(n: Node, given: map<string, nat>): Node {
    if n.bound && n.id in given then n.(lo0 := Some(Loopback(Some(given[n.id]), None))) else n
  }

  /** The loopback half of `_allocate_segment_addressing`. */
  method NumberPlaced(nodes: seq<Node>) returns (r: Result<seq<Node>, AddressError>)
    requires DistinctIds(nodes)
    ensures if |BoundIds(nodes, |nodes|)| <= |DefaultSlots(nodes)| then r.Ok? && PlacedNumbered(nodes, r.value)
            else r == Err(DefaultsExhausted)
  {
    var reserved := Held(nodes, V4, (id: string) => false);
    var order := Sort(IdOrder(), nodes);
    IdsSorted(nodes);
    RankIsSize(order, |order|);
    var given := HandOut(order, reserved);
    if given.None? { return Err(DefaultsExhausted); }
    var after := seq(|nodes|, i requires 0 <= i < |nodes| => PlacedAt(nodes[i], given.value));
    HandedIsPlaced(nodes, order, given.value, after);
    r := Ok(after);
  }

  /** One placed node. */
  method HandNext(order: seq<Node>, k: nat, reserved: set<nat>, offset: nat) returns (address: Option<nat>, next: nat)
    requires k < |order| && order[k].bound && Walked(reserved, offset, Rank(order, IsBound, k))
    ensures address.None? ==> Count(order, IsBound) > |FreeSlots(DEFAULT_POOL, 32, reserved)|
    ensures address.Some? ==>
              var slots, m := FreeSlots(DEFAULT_POOL, 32, reserved), Rank(order, IsBound, k);
              m < |slots| && address.value == slots[m] && Walked(reserved, next, Rank(order, IsBound, k + 1))
  {
    address, next := NextHost(reserved, offset);
    if address.None? { RankGrows(order, IsBound, k, |order|); }
  }

  lemma {:induction false} HandedNext(order: seq<Node>, k: nat, given: map<string, nat>, slots: seq<nat>, after: map<string, nat>)
    requires DistinctIds(order) && k < |order| && Handed(order, k, given, slots)
    requires if order[k].bound
             then Rank(order, IsBound, k) < |slots| && after == given[order[k].id := slots[Rank(order, IsBound, k)]]
             else after == given
    ensures Handed(order, k + 1, after, slots)
  {}

  /** The loop over the nodes in id order; no result when the pool runs out. */
  method HandOut(order: seq<Node>, reserved: set<nat>) returns (r: Option<map<string, nat>>)
    requires DistinctIds(order)
    ensures if Count(order, IsBound) <= |FreeSlots(DEFAULT_POOL, 32, reserved)|
            then r.Some? && Handed(order, |order|, r.value, FreeSlots(DEFAULT_POOL, 32, reserved))
            else r.None?
  {
    var given: map<string, nat> := map[];
    var offset: nat := 0;
    ghost var slots := FreeSlots(DEFAULT_POOL, 32, reserved);
    for k := 0 to |order|
      invariant Walked(reserved, offset, Rank(order, IsBound, k)) && Handed(order, k, given, slots)
    {
      ghost var before := given;
      if order[k].bound {
        var address, next := HandNext(order, k, reserved, offset);
        if address.None? { return None; }
        offset := next;
        given := given[order[k].id := address.value];
      }
      HandedNext(order, k, before, slots, given);
    }
    r := Some(given);
  }

  lemma {:induction false} PlacedKeepsUnshared(nodes: seq<Node>, after: seq<Node>)
    requires DistinctIds(nodes) && PlacedNumbered(nodes, after)
    ensures Unshared(nodes, V4) ==> Unshared(after, V4)
    ensures Unshared(nodes, V6) ==> Unshared(after, V6)
  {
    var reserved := Held(nodes, V4, (id: string) => false);
    FreeAre(DEFAULT_POOL, 32, reserved, Available(DEFAULT_POOL, 32));
    StringTotal();
    forall i, j | 0 <= i < j < |nodes| && IsBound(nodes[i]) && IsBound(nodes[j]) ensures Address(after[i], V4) != Address(after[j], V4) {
      assert StringLt(nodes[i].id, nodes[j].id) || StringLt(nodes[j].id, nodes[i].id);
    }
    forall i | 0 <= i < |nodes| ensures Address(after[i], V6).Some? ==> Address(after[i], V6) == Address(nodes[i], V6) {}
    if Unshared(nodes, V4) { GrantKeepsUnshared(nodes, after, V4, IsBound, reserved); }
  }

  // ---- the whole pass ----

  /** The nodes after the first k assignments, or the first refusal. */
  ghost predicate Rounds(nodes: seq<Node>, work: seq<Assignment>, states: seq<seq<Node>>)
    requires forall k :: 0 <= k < |work| ==> ValidAssignment(work[k])
  {
    && 1 <= |states| <= |work| + 1 && states[0] == nodes
    && forall k :: 0 <= k < |states| - 1 ==> AssignError(states[k], work[k]).None? && Assigned(states[k], work[k], states[k + 1])
  }

  /** The pool of the last of the first k assignments that pools this family and selects this node. */
  function LastPool(work: seq<Assignment>, k: nat, f: Family, id: string): Option<Pool>
    requires k <= |work|
  {
    if k == 0 then None
    else if work[k - 1].applies(id) && PoolFor(work[k - 1], f).Some? then PoolFor(work[k - 1], f)
    else LastPool(work, k - 1, f, id)
  }

  /** The address a node has is from the last assignment that owned it; without one it is the original. */
  ghost predicate Owned(nodes: seq<Node>, work: seq<Assignment>, k: nat, f: Family, after: seq<Node>)
    requires k <= |work| && |after| == |nodes|
  {
    forall i :: 0 <= i < |nodes| ==>
      match LastPool(work, k, f, nodes[i].id)
      case Some(p) => Address(after[i], f).Some? && InPool(p, Address(after[i], f).value)
      case None => Address(after[i], f) == Address(nodes[i], f)
  }

  lemma {:induction false} RoundOwned(nodes: seq<Node>, work: seq<Assignment>, k: nat, f: Family, before: seq<Node>, after: seq<Node>)
    requires 0 < k <= |work| && ValidAssignment(work[k - 1])
    requires OnlyLoopbacks(nodes, before) && OnlyLoopbacks(before, after)
    requires Granted(before, work[k - 1], f, after) && Owned(nodes, work, k - 1, f, before)
    ensures Owned(nodes, work, k, f, after)
  {
    var a := work[k - 1];
    forall i | 0 <= i < |nodes| && a.applies(nodes[i].id) && PoolFor(a, f).Some?
      ensures Address(after[i], f).Some? && InPool(PoolFor(a, f).value, Address(after[i], f).value)
    {
      GrantIsFresh(before, a, f, after, i);
    }
  }

  /** After any number of assignments: nothing shared, every address from its last owner. */
  lemma {:induction false} RoundsHold(nodes: seq<Node>, work: seq<Assignment>, states: seq<seq<Node>>, k: nat, f: Family)
    requires forall m :: 0 <= m < |work| ==> ValidAssignment(work[m])
    requires Rounds(nodes, work, states) && k < |states|
    ensures OnlyLoopbacks(nodes, states[k]) && Owned(nodes, work, k, f, states[k])
    ensures Unshared(nodes, f) ==> Unshared(states[k], f)
  {
    if k > 0 {
      RoundsHold(nodes, work, states, k - 1, f);
      assert Assigned(states[k - 1], work[k - 1], states[k]);
      assert Granted(states[k - 1], work[k - 1], f, states[k]);
      RoundOwned(nodes, work, k, f, states[k - 1], states[k]);
      if Unshared(nodes, f) { AssignedKeepsUnshared(states[k - 1], work[k - 1], f, states[k]); }
    }
  }

  /** What a resolved session's loopbacks promise. */
  ghost predicate Numbered(nodes: seq<Node>, work: seq<Assignment>, after: seq<Node>) {
    && OnlyLoopbacks(nodes, after)
    && (Unshared(nodes, V4) ==> Unshared(after, V4))
    && (Unshared(nodes, V6) ==> Unshared(after, V6))
    && Owned(nodes, work, |work|, V6, after)
    && (forall i :: 0 <= i < |nodes| ==> OwnedOrDefault(nodes[i], LastPool(work, |work|, V4, nodes[i].id), after[i]))
    && (forall i :: 0 <= i < |nodes| && nodes[i].routed ==> after[i].lo0.Some?)
  }

  /** IPv4 is from the last owner, else the original, else a default for a routed satellite. */
  ghost predicate OwnedOrDefault(n: Node, owner: Option<Pool>, after: Node) {
    match owner
    case Some(p) => Address(after, V4).Some? && InPool(p, Address(after, V4).value)
    case None => if NeedsDefault(n) then Address(after, V4).Some? else Address(after, V4) == Address(n, V4)
  }

  /** A router still without interfaces once the defaults are in. */
  ghost predicate Stranded(nodes: seq<Node>) {
    exists i :: 0 <= i < |nodes| && nodes[i].routed && !nodes[i].satellite && nodes[i].lo0.None?
  }

  /** Where the pass stops: the first assignment that refuses, the defaults, or an unnumbered router. */
  ghost function Refusal(nodes: seq<Node>, work: seq<Assignment>, states: seq<seq<Node>>): Option<AddressError>
    requires forall m :: 0 <= m < |work| ==> ValidAssignment(work[m])
    requires Rounds(nodes, work, states)
  {
    var last := states[|states| - 1];
    if |states| <= |work| then AssignError(last, work[|states| - 1])
    else if Count(last, NeedsDefault) > |DefaultSlots(last)| then Some(DefaultsExhausted)
    else if Stranded(last) then Some(Unnumbered)
    else None
  }

  /** The loop over the authored assignments. */
  method RunAssignments(nodes: seq<Node>, work: seq<Assignment>) returns (r: Result<seq<Node>, AddressError>, ghost states: seq<seq<Node>>)
    requires forall k :: 0 <= k < |work| ==> ValidAssignment(work[k])
    ensures Rounds(nodes, work, states)
    ensures r.Ok? ==> |states| == |work| + 1 && states[|work|] == r.value
    ensures r.Err? ==> |states| <= |work| && AssignError(states[|states| - 1], work[|states| - 1]) == Some(r.error)
  {
    var current := nodes;
    states := [nodes];
    for k := 0 to |work|
      invariant |states| == k + 1 && Rounds(nodes, work, states) && states[k] == current
    {
      var step := Assign(current, work[k]);
      if step.Err? { return Err(step.error), states; }
      current := step.value;
      states := states + [current];
    }
    r := Ok(current);
  }

  lemma {:induction false} FinishOwned(nodes: seq<Node>, work: seq<Assignment>, last: seq<Node>, after: seq<Node>)
    requires OnlyLoopbacks(nodes, last) && AddsDefaults(last, after)
    requires Owned(nodes, work, |work|, V4, last) && Owned(nodes, work, |work|, V6, last)
    ensures OnlyLoopbacks(nodes, after) && Owned(nodes, work, |work|, V6, after)
    ensures forall i :: 0 <= i < |nodes| ==> OwnedOrDefault(nodes[i], LastPool(work, |work|, V4, nodes[i].id), after[i])
  {
    forall i | 0 <= i < |nodes| ensures OwnedOrDefault(nodes[i], LastPool(work, |work|, V4, nodes[i].id), after[i]) {
      assert after[i] == last[i].(lo0 := after[i].lo0);
      assert Address(last[i], V4).Some? ==> after[i] == last[i];
    }
  }

  lemma {:induction false} FinishNumbering(nodes: seq<Node>, work: seq<Assignment>, states: seq<seq<Node>>, after: seq<Node>)
    requires forall m :: 0 <= m < |work| ==> ValidAssignment(work[m])
    requires Rounds(nodes, work, states) && |states| == |work| + 1 && DefaultsFilled(states[|work|], after)
    ensures AddsDefaults(states[|work|], after)
    ensures (forall i :: 0 <= i < |after| && after[i].routed ==> after[i].lo0.Some?) ==> Numbered(nodes, work, after)
  {
    RoundsHold(nodes, work, states, |work|, V4);
    RoundsHold(nodes, work, states, |work|, V6);
    DefaultsKeepUnshared(states[|work|], after);
    FinishOwned(nodes, work, states[|work|], after);
  }

  /** The final check: every routed node has interfaces. */
  method AllNumbered(last: seq<Node>, after: seq<Node>) returns (ok: bool)
    requires AddsDefaults(last, after)
    ensures ok <==> forall i :: 0 <= i < |after| && after[i].routed ==> after[i].lo0.Some?
    ensures ok <==> !Stranded(last)
  {
    for i := 0 to |after|
      invariant forall k :: 0 <= k < i && after[k].routed ==> after[k].lo0.Some?
      invariant forall k :: 0 <= k < i && last[k].routed && !last[k].satellite ==> last[k].lo0.Some?
    {
      assert after[i] == last[i].(lo0 := after[i].lo0);
      if after[i].routed && after[i].lo0.None? { return false; }
    }
    ok := true;
  }

  /** `_apply_addressing`: a numbered session, or the refusal the assignments call for. */
  method ApplyAddressing(nodes: seq<Node>, work: seq<Assignment>) returns (r: Result<seq<Node>, AddressError>, ghost states: seq<seq<Node>>)
    requires forall k :: 0 <= k < |work| ==> ValidAssignment(work[k])
    ensures Rounds(nodes, work, states)
    ensures r.Ok? ==> Numbered(nodes, work, r.value)
    ensures var refused := Refusal(nodes, work, states);
            if refused.Some? then r == Err(refused.value) else r.Ok?
  {
    var ran;
    ran, states := RunAssignments(nodes, work);
    if ran.Err? { return Err(ran.error), states; }
    var filled := FillDefaults(ran.value);
    if filled.Err? { return Err(filled.error), states; }
    FinishNumbering(nodes, work, states, filled.value);
    var ok := AllNumbered(ran.value, filled.value);
    r := if ok then filled else Err(Unnumbered);
  }

  /** IPv6 is from the last owner; without one a placed node has none and any other keeps its own. */
  ghost predicate OwnedIpv6(n: Node, owner: Option<Pool>, after: Node) {
    if owner.Some? then Address(after, V6).Some? && InPool(owner.value, Address(after, V6).value)
    else Address(after, V6) == if n.bound then None else Address(n, V6)
  }

  /** IPv4 is from the last owner; without one a placed node keeps the free address of the default pool it was given,
      a routed satellite has one, and any other node keeps its own. */
  ghost predicate OwnedIpv4(nodes: seq<Node>, n: Node, owner: Option<Pool>, after: Node) {
    if owner.Some? then Address(after, V4).Some? && InPool(owner.value, Address(after, V4).value)
    else if n.bound then Address(after, V4).Some? && Address(after, V4).value in DefaultSlots(nodes)
    else if NeedsDefault(n) then Address(after, V4).Some?
    else Address(after, V4) == Address(n, V4)
  }

  lemma {:induction false} PlacedThenOwned(nodes: seq<Node>, placed: seq<Node>, owner: Option<Pool>, i: nat, after: Node)
    requires PlacedNumbered(nodes, placed) && i < |nodes| && OwnedOrDefault(placed[i], owner, after)
    ensures OwnedIpv4(nodes, nodes[i], owner, after)
  {
    if nodes[i].bound {
      var x :| placed[i].lo0 == Some(Loopback(Some(x), None)) && x in DefaultSlots(nodes);
    }
  }

  /** Both passes together: no two nodes of the result share a loopback, whatever the assignments. */
  method ResolveLoopbacks(nodes: seq<Node>, work: seq<Assignment>) returns (r: Result<seq<Node>, AddressError>)
    requires DistinctIds(nodes) && Unshared(nodes, V4) && Unshared(nodes, V6)
    requires forall k :: 0 <= k < |work| ==> ValidAssignment(work[k])
    ensures r.Ok? ==> OnlyLoopbacks(nodes, r.value) && Unshared(r.value, V4) && Unshared(r.value, V6)
    ensures r.Ok? ==> forall i :: 0 <= i < |nodes| && nodes[i].routed ==> r.value[i].lo0.Some?
    ensures r.Ok? ==> forall i :: 0 <= i < |nodes| ==> OwnedIpv6(nodes[i], LastPool(work, |work|, V6, nodes[i].id), r.value[i])
    ensures r.Ok? ==> forall i :: 0 <= i < |nodes| ==> OwnedIpv4(nodes, nodes[i], LastPool(work, |work|, V4, nodes[i].id), r.value[i])
  {
    var placed := NumberPlaced(nodes);
    if placed.Err? { return Err(placed.error); }
    PlacedKeepsUnshared(nodes, placed.value);
    ghost var states;
    r, states := ApplyAddressing(placed.value, work);
    if r.Ok? {
      forall i | 0 <= i < |nodes| ensures OwnedIpv4(nodes, nodes[i], LastPool(work, |work|, V4, nodes[i].id), r.value[i]) {
        PlacedThenOwned(nodes, placed.value, LastPool(work, |work|, V4, nodes[i].id), i, r.value[i]);
      }
    }
  }
}
