/** Host attachments: which router on its own segment a host uses as its gateway. */
module HostAttachments {
  import opened Ordering
  import opened Wrappers
  import opened AddressPools
  import opened Segments

  datatype Attachment = Attachment(port: string, v4: nat, gateway4: nat, v6: Option<nat>, gateway6: Option<nat>, gateway: string)

  datatype HostError = NoSegment | NoRouter | GatewayWithoutIpv6

  /** A router's address on one Ethernet interface, with the network it names. */
  datatype RouterPort = RouterPort(id: string, network: nat, port: Port)

  /** The /24 network of an address. */
  function NetworkOf(v4: nat): nat {
    v4 - v4 % 256
  }

  /** An allocated address names its segment's subnet. */
  lemma {:induction false} NetworkIsSubnet(nodes: seq<Node>, plan: Plan, key: Key, x: string)
    requires Sound(nodes, plan) && HasPort(plan, key, x)
    ensures NetworkOf(plan.ports[key][x].v4) == plan.sub4[key]
  {
    PortRange(nodes, plan, key, x);
    assert AmongFirst(SUBNETS4, 24, |plan.sub4|, plan.sub4[key]);
    SubnetAligned(|plan.sub4|, plan.sub4[key]);
    AlignedNetwork(plan.sub4[key], plan.ports[key][x].v4);
  }

  lemma {:induction false} SubnetAligned(n: nat, x: nat)
    requires AmongFirst(SUBNETS4, 24, n, x)
    ensures x % 256 == 0
  {
    var k :| 0 <= k < n && x == Slot(SUBNETS4, 24, k);
    assert Stride(SUBNETS4, 24) == 256 by { PoolsValid(); }
    assert x == 256 * (0xac1000 + k);
  }

  lemma {:induction false} AlignedNetwork(base: nat, x: nat)
    requires base % 256 == 0 && base <= x < base + 256
    ensures NetworkOf(x) == base
  {}

  /** Equal networks mean the same segment. */
  lemma {:induction false} NetworkNamesSegment(plan: Plan, a: Key, b: Key)
    requires Apart(SUBNETS4, 24, plan.sub4) && a in plan.sub4 && b in plan.sub4 && plan.sub4[a] == plan.sub4[b]
    ensures a == b
  {
    if a != b { SubnetGap(plan.sub4, SUBNETS4, 24, a, b); }
  }

  ghost predicate RouterOn(nodes: seq<Node>, routers: set<string>, key: Key, id: string) {
    id in routers && exists i :: 0 <= i < |nodes| && nodes[i].id == id && Joins(nodes[i], key)
  }

  /** The router with the lowest id on a segment. */
  ghost predicate IsGateway(nodes: seq<Node>, routers: set<string>, key: Key, id: string) {
    RouterOn(nodes, routers, key, id) && forall other :: RouterOn(nodes, routers, key, other) ==> !StringLt(other, id)
  }

  ghost predicate IsRouterPort(nodes: seq<Node>, plan: Plan, routers: set<string>, key: Key, e: RouterPort) {
    RouterOn(nodes, routers, key, e.id) && HasPort(plan, key, e.id) && e.port == plan.ports[key][e.id] && e.network == plan.sub4[key]
  }

  ghost predicate FromSegment(nodes: seq<Node>, plan: Plan, routers: set<string>, e: RouterPort) {
    exists key :: IsRouterPort(nodes, plan, routers, key, e)
  }

  ghost predicate PortsCollected(nodes: seq<Node>, plan: Plan, routers: set<string>, k: nat, found: seq<RouterPort>)
    requires k <= |nodes|
  {
    && (forall e :: e in found ==> FromSegment(nodes, plan, routers, e))
    && (forall i, j :: 0 <= i < k && IsInterface(nodes, i, j) && nodes[i].id in routers ==> HasEntry(found, nodes[i].id, plan, nodes[i].bindings[j].key))
  }

  ghost predicate HasEntry(found: seq<RouterPort>, id: string, plan: Plan, key: Key) {
    key in plan.sub4 && exists e :: e in found && e.id == id && e.network == plan.sub4[key]
  }

  /** The ports of one router. */
  method NodePorts(nodes: seq<Node>, plan: Plan, routers: set<string>, i: nat) returns (found: seq<RouterPort>)
    requires DistinctIds(nodes) && Sound(nodes, plan) && i < |nodes| && nodes[i].id in routers
    ensures forall e :: e in found ==> FromSegment(nodes, plan, routers, e)
    ensures forall j :: IsInterface(nodes, i, j) ==> HasEntry(found, nodes[i].id, plan, nodes[i].bindings[j].key)
  {
    var id, bindings := nodes[i].id, nodes[i].bindings;
    found := [];
    for j := 0 to |bindings|
      invariant BindingsCollected(nodes, plan, routers, i, j, found)
    {
      var key := bindings[j].key;
      JoinedHasPort(nodes, plan, i, j);
      var e := RouterPort(id, NetworkOf(plan.ports[key][id].v4), plan.ports[key][id]);
      PortListed(nodes, plan, routers, i, j, e);
      OneMoreBinding(nodes, plan, routers, i, j, found, e);
      found := found + [e];
    }
  }

  /** The first j interfaces of one router. */
  ghost predicate BindingsCollected(nodes: seq<Node>, plan: Plan, routers: set<string>, i: nat, j: nat, found: seq<RouterPort>)
    requires i < |nodes| && j <= |nodes[i].bindings|
  {
    && (forall e :: e in found ==> FromSegment(nodes, plan, routers, e))
    && (forall m :: 0 <= m < j ==> HasEntry(found, nodes[i].id, plan, nodes[i].bindings[m].key))
  }

  lemma {:induction false} OneMoreBinding(nodes: seq<Node>, plan: Plan, routers: set<string>, i: nat, j: nat, found: seq<RouterPort>, e: RouterPort)
    requires i < |nodes| && j < |nodes[i].bindings| && BindingsCollected(nodes, plan, routers, i, j, found)
    requires FromSegment(nodes, plan, routers, e) && e.id == nodes[i].id
    requires nodes[i].bindings[j].key in plan.sub4 && e.network == plan.sub4[nodes[i].bindings[j].key]
    ensures BindingsCollected(nodes, plan, routers, i, j + 1, found + [e])
  {
    forall m | 0 <= m < j + 1 ensures HasEntry(found + [e], nodes[i].id, plan, nodes[i].bindings[m].key) {
      if m < j {
        EntryStays(found, e, nodes[i].id, plan, nodes[i].bindings[m].key);
      } else {
        assert e in found + [e];
      }
    }
  }

  lemma {:induction false} PortListed(nodes: seq<Node>, plan: Plan, routers: set<string>, i: nat, j: nat, e: RouterPort)
    requires Sound(nodes, plan) && IsInterface(nodes, i, j) && nodes[i].id in routers
    requires HasPort(plan, nodes[i].bindings[j].key, nodes[i].id)
    requires var p := plan.ports[nodes[i].bindings[j].key][nodes[i].id]; e == RouterPort(nodes[i].id, NetworkOf(p.v4), p)
    ensures FromSegment(nodes, plan, routers, e) && e.network == plan.sub4[nodes[i].bindings[j].key]
  {
    var key := nodes[i].bindings[j].key;
    NetworkIsSubnet(nodes, plan, key, nodes[i].id);
    assert Joins(nodes[i], key);
    assert IsRouterPort(nodes, plan, routers, key, e);
  }

  lemma {:induction false} EntryStays(found: seq<RouterPort>, e: RouterPort, id: string, plan: Plan, key: Key)
    requires HasEntry(found, id, plan, key)
    ensures HasEntry(found + [e], id, plan, key)
  {
    var x :| x in found && x.id == id && x.network == plan.sub4[key];
    assert x in found + [e];
  }

  /** Every address a router holds on a segment, by router id. */
  method RouterPorts(nodes: seq<Node>, plan: Plan, routers: set<string>) returns (sorted: seq<RouterPort>)
    requires DistinctIds(nodes) && Sound(nodes, plan)
    ensures PortsCollected(nodes, plan, routers, |nodes|, sorted)
    ensures forall i, j :: 0 <= i < j < |sorted| ==> !StringLt(sorted[j].id, sorted[i].id)
  {
    var found: seq<RouterPort> := [];
    for i := 0 to |nodes|
      invariant PortsCollected(nodes, plan, routers, i, found)
    {
      if nodes[i].id in routers {
        var more := NodePorts(nodes, plan, routers, i);
        EntriesStay(nodes, plan, routers, i, found, more);
        found := found + more;
      }
    }
    sorted := Sort(By((e: RouterPort) => e.id, StringLt), found);
    SortedPorts(found, sorted);
  }

  lemma {:induction false} EntriesStay(nodes: seq<Node>, plan: Plan, routers: set<string>, i: nat, found: seq<RouterPort>, more: seq<RouterPort>)
    requires i < |nodes| && PortsCollected(nodes, plan, routers, i, found)
    requires forall e :: e in more ==> FromSegment(nodes, plan, routers, e)
    requires forall j :: IsInterface(nodes, i, j) ==> HasEntry(more, nodes[i].id, plan, nodes[i].bindings[j].key)
    ensures PortsCollected(nodes, plan, routers, i + 1, found + more)
  {
    forall m, j | 0 <= m < i + 1 && IsInterface(nodes, m, j) && nodes[m].id in routers
      ensures HasEntry(found + more, nodes[m].id, plan, nodes[m].bindings[j].key)
    {
      var key := nodes[m].bindings[j].key;
      var e :| e in (if m < i then found else more) && e.id == nodes[m].id && e.network == plan.sub4[key];
      assert e in found + more;
    }
  }

  lemma {:induction false} SortedPorts(found: seq<RouterPort>, sorted: seq<RouterPort>)
    requires sorted == Sort(By((e: RouterPort) => e.id, StringLt), found)
    ensures forall e :: e in sorted <==> e in found
    ensures forall i, j :: 0 <= i < j < |sorted| ==> !StringLt(sorted[j].id, sorted[i].id)
  {
    var lt := By((e: RouterPort) => e.id, StringLt);
    StringTotal();
    TotalIsWeak(StringLt);
    ByWeak((e: RouterPort) => e.id, StringLt);
    SortAscending(lt, found);
    assert forall e :: e in sorted <==> e in Elements(sorted);
    assert forall e :: e in found <==> e in Elements(found);
    forall i, j | 0 <= i < j < |sorted| ensures !StringLt(sorted[j].id, sorted[i].id) {
      assert !lt(sorted[j], sorted[i]);
    }
  }

  /** The first listed port on a network, if any. */
  method FirstOn(ports: seq<RouterPort>, network: nat) returns (k: Option<nat>)
    ensures k.Some? ==> k.value < |ports| && ports[k.value].network == network
    ensures k.Some? ==> forall i :: 0 <= i < k.value ==> ports[i].network != network
    ensures k.None? ==> forall i :: 0 <= i < |ports| ==> ports[i].network != network
  {
    for i := 0 to |ports|
      invariant forall m :: 0 <= m < i ==> ports[m].network != network
    {
      if ports[i].network == network { return Some(i); }
    }
    k := None;
  }

  /** A router on the segment has an entry carrying that segment's network. */
  lemma {:induction false} RouterListed(nodes: seq<Node>, plan: Plan, routers: set<string>, ports: seq<RouterPort>, key: Key, id: string) returns (k: nat)
    requires PortsCollected(nodes, plan, routers, |nodes|, ports) && key in plan.sub4 && RouterOn(nodes, routers, key, id)
    ensures k < |ports| && ports[k].id == id && ports[k].network == plan.sub4[key]
  {
    var i :| 0 <= i < |nodes| && nodes[i].id == id && Joins(nodes[i], key);
    var j :| 0 <= j < |nodes[i].bindings| && nodes[i].bindings[j].key == key;
    assert IsInterface(nodes, i, j);
    assert HasEntry(ports, id, plan, key);
    var e :| e in ports && e.id == id && e.network == plan.sub4[key];
    k :| 0 <= k < |ports| && ports[k] == e;
  }

  /** The first listed port on a segment's network belongs to the segment's gateway. */
  lemma {:induction false} FirstIsGateway(nodes: seq<Node>, plan: Plan, routers: set<string>, ports: seq<RouterPort>, key: Key, k: nat)
    requires Sound(nodes, plan) && PortsCollected(nodes, plan, routers, |nodes|, ports) && key in plan.sub4
    requires forall i, j :: 0 <= i < j < |ports| ==> !StringLt(ports[j].id, ports[i].id)
    requires k < |ports| && ports[k].network == plan.sub4[key] && forall i :: 0 <= i < k ==> ports[i].network != plan.sub4[key]
    ensures IsGateway(nodes, routers, key, ports[k].id)
    ensures HasPort(plan, key, ports[k].id) && ports[k].port == plan.ports[key][ports[k].id]
  {
    var e := ports[k];
    assert FromSegment(nodes, plan, routers, e);
    var own :| IsRouterPort(nodes, plan, routers, own, e);
    NetworkNamesSegment(plan, own, key);
    forall other | RouterOn(nodes, routers, key, other) ensures !StringLt(other, e.id) {
      var m := RouterListed(nodes, plan, routers, ports, key, other);
      StringIrreflexive(e.id);
      assert m >= k;
    }
  }

  /** The interface whose name sorts first. */
  ghost predicate IsFirstPort(n: Node, b: Binding) {
    b in n.bindings && forall other :: other in n.bindings ==> !StringLt(other.port, b.port)
  }

  method FirstPort(n: Node) returns (b: Option<Binding>)
    ensures b.None? <==> n.bindings == []
    ensures b.Some? ==> IsFirstPort(n, b.value)
  {
    if n.bindings == [] { return None; }
    var best := n.bindings[0];
    StringIrreflexive(best.port);
    for j := 1 to |n.bindings|
      invariant best in n.bindings && Least(n.bindings, j, best.port)
    {
      LeastStep(n.bindings, j, best.port);
      if StringLt(n.bindings[j].port, best.port) { best := n.bindings[j]; }
    }
    b := Some(best);
  }

  ghost predicate Least(bindings: seq<Binding>, k: nat, name: string)
    requires k <= |bindings|
  {
    forall m :: 0 <= m < k ==> !StringLt(bindings[m].port, name)
  }

  lemma {:induction false} LeastStep(bindings: seq<Binding>, k: nat, best: string)
    requires k < |bindings| && Least(bindings, k, best)
    ensures Least(bindings, k + 1, if StringLt(bindings[k].port, best) then bindings[k].port else best)
  {
    var next := bindings[k].port;
    if StringLt(next, best) {
      StringIrreflexive(next);
      forall m | 0 <= m < k ensures !StringLt(bindings[m].port, next) {
        if StringLt(bindings[m].port, next) { StringTransitive(bindings[m].port, next, best); }
      }
    }
  }

  /** What a host's attachment says. */
  ghost predicate Attached(nodes: seq<Node>, plan: Plan, routers: set<string>, n: Node, key: Key, a: Attachment) {
    && IsFirstPort(n, Binding(a.port, key)) && HasPort(plan, key, n.id) && HasPort(plan, key, a.gateway)
    && IsGateway(nodes, routers, key, a.gateway)
    && a.v4 == plan.ports[key][n.id].v4 && a.gateway4 == plan.ports[key][a.gateway].v4
    && a.v6 == plan.ports[key][n.id].v6 && a.gateway6 == plan.ports[key][a.gateway].v6
    && (a.v6.Some? <==> IsIpv6(nodes, key)) && (a.gateway6.Some? <==> a.v6.Some?)
  }

  /** On one segment either every member has IPv6 or none has. */
  lemma {:induction false} SegmentIpv6(nodes: seq<Node>, plan: Plan, key: Key, x: string)
    requires Sound(nodes, plan) && HasPort(plan, key, x)
    ensures plan.ports[key][x].v6.Some? <==> IsIpv6(nodes, key)
  {
    PortRange(nodes, plan, key, x);
  }

  /** The attachment of one host: its error conditions, and that a gateway without IPv6 cannot be met. */
  method Attach(nodes: seq<Node>, plan: Plan, routers: set<string>, ports: seq<RouterPort>, i: nat, ground: bool)
    returns (r: Result<Option<Attachment>, HostError>, ghost key: Option<Key>)
    requires DistinctIds(nodes) && Sound(nodes, plan) && i < |nodes|
    requires PortsCollected(nodes, plan, routers, |nodes|, ports)
    requires forall a, b :: 0 <= a < b < |ports| ==> !StringLt(ports[b].id, ports[a].id)
    ensures nodes[i].bindings == [] ==> r == if ground then Err(NoSegment) else Ok(None)
    ensures nodes[i].bindings != [] ==> key.Some? && exists port :: IsFirstPort(nodes[i], Binding(port, key.value))
    ensures nodes[i].bindings != [] && r.Err? ==> r.error == NoRouter && forall id :: !RouterOn(nodes, routers, key.value, id)
    ensures nodes[i].bindings != [] && r.Ok? ==> r.value.Some? && Attached(nodes, plan, routers, nodes[i], key.value, r.value.value)
  {
    var first := FirstPort(nodes[i]);
    key := None;
    if first.None? { return if ground then Err(NoSegment) else Ok(None), None; }
    var b := first.value;
    key := Some(b.key);
    assert b == Binding(b.port, b.key);
    HostOnSegment(nodes, plan, i, b);
    var host := plan.ports[b.key][nodes[i].id];
    NetworkIsSubnet(nodes, plan, b.key, nodes[i].id);
    var k := FirstOn(ports, NetworkOf(host.v4));
    if k.None? {
      forall id ensures !RouterOn(nodes, routers, b.key, id) {
        if RouterOn(nodes, routers, b.key, id) { var m := RouterListed(nodes, plan, routers, ports, b.key, id); }
      }
      return Err(NoRouter), key;
    }
    var gateway := ports[k.value];
    FirstIsGateway(nodes, plan, routers, ports, b.key, k.value);
    SegmentIpv6(nodes, plan, b.key, nodes[i].id);
    SegmentIpv6(nodes, plan, b.key, gateway.id);
    if host.v6.Some? && gateway.port.v6.None? {
      assert false;
    }
    r := Ok(Some(Attachment(b.port, host.v4, gateway.port.v4, host.v6, gateway.port.v6, gateway.id)));
  }

  lemma {:induction false} HostOnSegment(nodes: seq<Node>, plan: Plan, i: nat, b: Binding)
    requires Sound(nodes, plan) && i < |nodes| && b in nodes[i].bindings
    ensures HasPort(plan, b.key, nodes[i].id)
  {
    var j :| 0 <= j < |nodes[i].bindings| && nodes[i].bindings[j] == b;
    JoinedHasPort(nodes, plan, i, j);
  }

  /** Whether a node's result is the one its segment calls for. */
  ghost predicate Derived(nodes: seq<Node>, plan: Plan, routers: set<string>, ground: set<string>, n: Node, a: Option<Attachment>) {
    if n.routed then a.None?
    else if n.bindings == [] then a.None? && n.id !in ground
    else a.Some? && exists key :: Attached(nodes, plan, routers, n, key, a.value)
  }

  /** A host that cannot be attached: no segment on the ground, or no router on its segment. */
  ghost predicate Stranded(nodes: seq<Node>, routers: set<string>, ground: set<string>, n: Node, e: HostError) {
    && !n.routed
    && if n.bindings == [] then n.id in ground && e == NoSegment
       else e == NoRouter && exists b :: IsFirstPort(n, b) && forall id :: !RouterOn(nodes, routers, b.key, id)
  }

  /** `_derive_host_attachments`. */
  method DeriveAttachments(nodes: seq<Node>, plan: Plan, routers: set<string>, ground: set<string>)
    returns (r: Result<seq<Option<Attachment>>, HostError>)
    requires DistinctIds(nodes) && Sound(nodes, plan)
    ensures r.Ok? ==> |r.value| == |nodes| && forall i :: 0 <= i < |nodes| ==> Derived(nodes, plan, routers, ground, nodes[i], r.value[i])
    ensures r.Err? ==> exists i :: 0 <= i < |nodes| && Stranded(nodes, routers, ground, nodes[i], r.error)
  {
    var ports := RouterPorts(nodes, plan, routers);
    var out: seq<Option<Attachment>> := [];
    for i := 0 to |nodes|
      invariant |out| == i && forall k :: 0 <= k < i ==> Derived(nodes, plan, routers, ground, nodes[k], out[k])
    {
      var one := DeriveOne(nodes, plan, routers, ports, ground, i);
      if one.Err? { return Err(one.error); }
      out := out + [one.value];
    }
    r := Ok(out);
  }

  /** One node of the loop. */
  method DeriveOne(nodes: seq<Node>, plan: Plan, routers: set<string>, ports: seq<RouterPort>, ground: set<string>, i: nat)
    returns (r: Result<Option<Attachment>, HostError>)
    requires DistinctIds(nodes) && Sound(nodes, plan) && i < |nodes|
    requires PortsCollected(nodes, plan, routers, |nodes|, ports)
    requires forall a, b :: 0 <= a < b < |ports| ==> !StringLt(ports[b].id, ports[a].id)
    ensures r.Ok? ==> Derived(nodes, plan, routers, ground, nodes[i], r.value)
    ensures r.Err? ==> Stranded(nodes, routers, ground, nodes[i], r.error)
  {
    if nodes[i].routed { return Ok(None); }
    ghost var key;
    r, key := Attach(nodes, plan, routers, ports, i, nodes[i].id in ground);
  }
}
