/** Ethernet segments: subnets by sorted key, member addresses by role and id, symbolic origination. */
module Segments {
  import opened Ordering
  import opened Wrappers
  import opened AddressPools

  /** A segment's allocation key: the scope that owns it and its id there. */
  datatype Key = Key(site: string, segment: string)

  datatype Binding = Binding(port: string, key: Key)

  datatype Target = DefaultRoute | Named(segment: string)

  datatype Node = Node(id: string, routed: bool, bindings: seq<Binding>, origin4: seq<Target>, origin6: seq<Target>)

  /** A member's addresses on one segment. */
  datatype Port = Port(v4: nat, v6: Option<nat>)

  const SUBNETS4 := Pool(V4, 0xac10_0000, 12)
  const SUBNETS6 := Pool(V6, 0xfd00_da7a_0000_0000_0000_0000_0000_0000, 32)
  const HOSTS4: nat := 254

  predicate KeyLt(a: Key, b: Key) {
    StringLt(a.site, b.site) || (a.site == b.site && StringLt(a.segment, b.segment))
  }

  lemma {:induction false} KeyTotal()
    ensures StrictTotal(KeyLt)
  {
    StringTotal();
  }

  lemma {:induction false} KeysDistinct(keys: seq<Key>)
    requires Increasing(KeyLt, keys)
    ensures Distinct(keys)
  {
    KeyTotal();
    TotalIsWeak(KeyLt);
    IncreasingDistinct(KeyLt, keys);
  }

  // ---- keys ----

  predicate Joins(n: Node, key: Key) {
    exists j :: 0 <= j < |n.bindings| && n.bindings[j].key == key
  }

  ghost predicate IsKey(nodes: seq<Node>, key: Key) {
    exists i :: 0 <= i < |nodes| && Joins(nodes[i], key)
  }

  /** Every key some node joins, each once, in key order. */
  method SegmentKeys(nodes: seq<Node>) returns (keys: seq<Key>)
    ensures Increasing(KeyLt, keys)
    ensures forall key :: key in keys <==> IsKey(nodes, key)
  {
    var found: seq<Key> := [];
    for i := 0 to |nodes|
      invariant Distinct(found)
      invariant forall key :: key in found <==> exists m :: 0 <= m < i && Joins(nodes[m], key)
    {
      found := AddKeys(nodes[i], found);
    }
    KeyTotal();
    TotalIsWeak(KeyLt);
    SortIncreasing(KeyLt, found);
    keys := Sort(KeyLt, found);
    assert forall key :: key in keys <==> key in Elements(keys);
    assert forall key :: key in found <==> key in Elements(found);
  }

  method AddKeys(n: Node, found: seq<Key>) returns (more: seq<Key>)
    requires Distinct(found)
    ensures Distinct(more)
    ensures forall key :: key in more <==> key in found || Joins(n, key)
  {
    more := found;
    for j := 0 to |n.bindings|
      invariant Distinct(more)
      invariant forall key :: key in more <==> key in found || exists m :: 0 <= m < j && n.bindings[m].key == key
    {
      if n.bindings[j].key !in more { more := more + [n.bindings[j].key]; }
    }
  }

  // ---- origination ----

  /** The key a node joins under a segment name: the last binding of that name. */
  function JoinedIn(n: Node, segment: string, k: nat): (r: Option<Key>)
    requires k <= |n.bindings|
    ensures r.Some? ==> r.value.segment == segment && Joins(n, r.value)
    ensures r.None? ==> forall j :: 0 <= j < k ==> n.bindings[j].key.segment != segment
  {
    if k == 0 then None
    else if n.bindings[k - 1].key.segment == segment then Some(n.bindings[k - 1].key)
    else JoinedIn(n, segment, k - 1)
  }

  function Joined(n: Node, segment: string): Option<Key> {
    JoinedIn(n, segment, |n.bindings|)
  }

  predicate Resolvable(n: Node, targets: seq<Target>) {
    forall t :: t in targets && t.Named? ==> Joined(n, t.segment).Some?
  }

  function EntryOf(n: Node, t: Target): Option<Key> {
    if t.DefaultRoute? then None else Joined(n, t.segment)
  }

  /** `_origination_entries`: refused exactly when a named segment is not joined. */
  method OriginationEntries(n: Node, targets: seq<Target>) returns (r: Option<seq<Option<Key>>>)
    ensures r.Some? <==> Resolvable(n, targets)
    ensures r.Some? ==> |r.value| == |targets| && forall i :: 0 <= i < |targets| ==> r.value[i] == EntryOf(n, targets[i])
  {
    var entries := [];
    for i := 0 to |targets|
      invariant |entries| == i && forall k :: 0 <= k < i ==> entries[k] == EntryOf(n, targets[k])
      invariant forall k :: 0 <= k < i && targets[k].Named? ==> Joined(n, targets[k].segment).Some?
    {
      match targets[i]
      case DefaultRoute => entries := entries + [None];
      case Named(name) =>
        var key := Joined(n, name);
        if key.None? { return None; }
        entries := entries + [key];
    }
    r := Some(entries);
  }

  ghost predicate OriginatedBy(n: Node, key: Key) {
    exists j :: 0 <= j < |n.origin6| && EntryOf(n, n.origin6[j]) == Some(key)
  }

  /** A key some member originates into IPv6. */
  ghost predicate IsIpv6(nodes: seq<Node>, key: Key) {
    exists i :: 0 <= i < |nodes| && OriginatedBy(nodes[i], key)
  }

  lemma {:induction false} Ipv6IsJoined(nodes: seq<Node>, key: Key)
    requires IsIpv6(nodes, key)
    ensures IsKey(nodes, key)
  {
    var i :| 0 <= i < |nodes| && OriginatedBy(nodes[i], key);
    assert Joins(nodes[i], key);
  }

  method KeysOf(entries: seq<Option<Key>>, found: set<Key>) returns (more: set<Key>)
    ensures forall key :: key in more <==> key in found || Some(key) in entries
  {
    more := found;
    for j := 0 to |entries|
      invariant forall key :: key in more <==> key in found || Some(key) in entries[..j]
    {
      if entries[j].Some? { more := more + {entries[j].value}; }
    }
  }

  /** The IPv6 keys, or a refusal exactly when some node names a segment it does not join. */
  method Ipv6Keys(nodes: seq<Node>) returns (r: Option<set<Key>>)
    ensures r.Some? <==> forall i :: 0 <= i < |nodes| ==> Resolvable(nodes[i], nodes[i].origin6)
    ensures r.Some? ==> forall key :: key in r.value <==> IsIpv6(nodes, key)
  {
    var found := {};
    for i := 0 to |nodes|
      invariant forall m :: 0 <= m < i ==> Resolvable(nodes[m], nodes[m].origin6)
      invariant forall key :: key in found <==> exists m :: 0 <= m < i && OriginatedBy(nodes[m], key)
    {
      var entries := OriginationEntries(nodes[i], nodes[i].origin6);
      if entries.None? { return None; }
      assert forall key :: Some(key) in entries.value <==> OriginatedBy(nodes[i], key);
      found := KeysOf(entries.value, found);
    }
    r := Some(found);
  }

  // ---- subnets ----

  /** How many of the first k keys are wanted. */
  function Before(keys: seq<Key>, wanted: set<Key>, k: nat): (r: nat)
    requires k <= |keys|
    ensures r <= k
  {
    if k == 0 then 0 else Before(keys, wanted, k - 1) + if keys[k - 1] in wanted then 1 else 0
  }

  lemma {:induction false} BeforeGrows(keys: seq<Key>, wanted: set<Key>, i: nat, j: nat)
    requires i < j <= |keys|
    ensures Before(keys, wanted, i) + (if keys[i] in wanted then 1 else 0) <= Before(keys, wanted, j)
    decreases j - i
  {
    if i + 1 < j { BeforeGrows(keys, wanted, i, j - 1); }
  }

  /** Wanted keys have consecutive subnets in key order, and only they have one. */
  ghost predicate SubnetsOf(p: Pool, length: nat, keys: seq<Key>, wanted: set<Key>, subnets: map<Key, nat>)
    requires p.prefix <= length <= Bits(p.family)
  {
    && (forall key :: key in subnets <==> key in keys && key in wanted)
    && forall i :: 0 <= i < |keys| && keys[i] in wanted ==>
         Before(keys, wanted, i) < Available(p, length) && subnets[keys[i]] == Slot(p, length, Before(keys, wanted, i))
  }

  method AllocateSubnets(p: Pool, length: nat, keys: seq<Key>, wanted: set<Key>) returns (r: Option<map<Key, nat>>)
    requires p.prefix <= length <= Bits(p.family) && Distinct(keys)
    ensures r.Some? <==> Before(keys, wanted, |keys|) <= Available(p, length)
    ensures r.Some? ==> SubnetsOf(p, length, keys, wanted, r.value)
  {
    var subnets: map<Key, nat> := map[];
    var next: nat := 0;
    for k := 0 to |keys|
      invariant next == Before(keys, wanted, k) <= Available(p, length)
      invariant forall key :: key in subnets <==> key in keys[..k] && key in wanted
      invariant forall i :: 0 <= i < k && keys[i] in wanted ==>
        Before(keys, wanted, i) < Available(p, length) && subnets[keys[i]] == Slot(p, length, Before(keys, wanted, i))
    {
      if keys[k] in wanted {
        if next == Available(p, length) {
          BeforeGrows(keys, wanted, k, |keys|);
          return None;
        }
        subnets := subnets[keys[k] := Slot(p, length, next)];
        next := next + 1;
      }
    }
    assert keys[..|keys|] == keys;
    r := Some(subnets);
  }

  /** Subnets are inside the pool, and those of different keys do not meet. */
  lemma {:induction false} SubnetsDisjoint(p: Pool, length: nat, keys: seq<Key>, wanted: set<Key>, subnets: map<Key, nat>, a: Key, b: Key)
    requires ValidPool(p) && p.prefix <= length <= Bits(p.family) && SubnetsOf(p, length, keys, wanted, subnets)
    requires Increasing(KeyLt, keys) && a in subnets && b in subnets && KeyLt(a, b)
    ensures p.base <= subnets[a] && subnets[a] + Stride(p, length) <= subnets[b] < p.base + Size(p)
  {
    var i, j := KeysAt(keys, a, b);
    var m, n := Before(keys, wanted, i), Before(keys, wanted, j);
    BeforeGrows(keys, wanted, i, j);
    SlotInside(p, length, m);
    SlotInside(p, length, n);
    SlotsIncrease(p, length, m, n);
  }

  lemma {:induction false} KeyAt(keys: seq<Key>, key: Key) returns (i: nat)
    requires key in keys
    ensures i < |keys| && keys[i] == key
  {
    i :| 0 <= i < |keys| && keys[i] == key;
  }

  lemma {:induction false} KeysAt(keys: seq<Key>, a: Key, b: Key) returns (i: nat, j: nat)
    requires Increasing(KeyLt, keys) && a in keys && b in keys && KeyLt(a, b)
    ensures i < j < |keys| && keys[i] == a && keys[j] == b
  {
    i := KeyAt(keys, a);
    j := KeyAt(keys, b);
    KeyTotal();
    IncreasingIndex(KeyLt, keys, i, j);
  }

  // ---- members ----

  /** A node once per binding to the key. */
  function Entries(n: Node, key: Key, j: nat): seq<Node>
    requires j <= |n.bindings|
  {
    if j == 0 then [] else Entries(n, key, j - 1) + if n.bindings[j - 1].key == key then [n] else []
  }

  /** The members of a segment, in node order. */
  function Members(nodes: seq<Node>, key: Key, k: nat): seq<Node>
    requires k <= |nodes|
  {
    if k == 0 then [] else Members(nodes, key, k - 1) + Entries(nodes[k - 1], key, |nodes[k - 1].bindings|)
  }

  lemma {:induction false} EntriesAre(n: Node, key: Key, j: nat)
    requires j <= |n.bindings|
    ensures forall x :: x in Entries(n, key, j) <==> x == n && exists m :: 0 <= m < j && n.bindings[m].key == key
  {
    if j > 0 { EntriesAre(n, key, j - 1); }
  }

  lemma {:induction false} MembersAre(nodes: seq<Node>, key: Key, k: nat)
    requires k <= |nodes|
    ensures forall x :: x in Members(nodes, key, k) <==> x in nodes[..k] && Joins(x, key)
  {
    if k > 0 {
      MembersAre(nodes, key, k - 1);
      EntriesAre(nodes[k - 1], key, |nodes[k - 1].bindings|);
      assert nodes[..k] == nodes[..k - 1] + [nodes[k - 1]];
    }
  }

  method CollectMembers(nodes: seq<Node>, key: Key) returns (members: seq<Node>)
    ensures members == Members(nodes, key, |nodes|)
  {
    members := [];
    for i := 0 to |nodes|
      invariant members == Members(nodes, key, i)
    {
      for j := 0 to |nodes[i].bindings|
        invariant members == Members(nodes, key, i) + Entries(nodes[i], key, j)
      {
        if nodes[i].bindings[j].key == key { members := members + [nodes[i]]; }
      }
    }
  }

  /** Routed environments before hosts, then by id. */
  predicate Precedes(a: Node, b: Node) {
    (a.routed && !b.routed) || (a.routed == b.routed && StringLt(a.id, b.id))
  }

  lemma {:induction false} PrecedesWeak()
    ensures StrictWeak(Precedes)
  {
    StringTotal();
  }

  function Shift(base: Option<nat>, offset: nat): Option<nat> {
    if base.Some? then Some(base.value + offset) else None
  }

  /** The port of a node found at position m of the list. */
  function PortAt(base4: nat, base6: Option<nat>, m: nat): Port {
    Port(base4 + 1 + m, Shift(base6, 1 + m))
  }

  /** Consecutive host addresses along the list; a node listed twice keeps the later one. */
  ghost predicate PortsAlong(members: seq<Node>, k: nat, base4: nat, base6: Option<nat>, ports: map<string, Port>)
    requires k <= |members|
  {
    && (forall m :: 0 <= m < k ==> members[m].id in ports && ports[members[m].id].v4 > base4 + m)
    && forall id :: id in ports ==> IsPortOf(members, k, base4, base6, id, ports[id])
  }

  ghost predicate IsPortOf(members: seq<Node>, k: nat, base4: nat, base6: Option<nat>, id: string, p: Port)
    requires k <= |members|
  {
    var m := p.v4 - base4 - 1;
    0 <= m < k && members[m].id == id && p == PortAt(base4, base6, m)
  }

  method NumberMembers(members: seq<Node>, base4: nat, base6: Option<nat>) returns (r: Option<map<string, Port>>)
    ensures r.Some? <==> |members| <= HOSTS4
    ensures r.Some? ==> PortsAlong(members, |members|, base4, base6, r.value)
  {
    var ports: map<string, Port> := map[];
    for k := 0 to |members|
      invariant k <= HOSTS4 && PortsAlong(members, k, base4, base6, ports)
    {
      if k == HOSTS4 { return None; }
      ports := ports[members[k].id := PortAt(base4, base6, k)];
    }
    r := Some(ports);
  }

  /** What the addresses of one segment mean, without the list they were dealt along. */
  ghost predicate Addressed(nodes: seq<Node>, key: Key, base4: nat, base6: Option<nat>, ports: map<string, Port>) {
    && (forall i :: 0 <= i < |nodes| && Joins(nodes[i], key) ==> nodes[i].id in ports)
    && (forall id :: id in ports ==> exists i :: 0 <= i < |nodes| && nodes[i].id == id && Joins(nodes[i], key))
    && (forall id :: id in ports ==> InSegment(base4, base6, |Members(nodes, key, |nodes|)|, ports[id]))
    && (forall i, j {:trigger Precedes(nodes[i], nodes[j])} ::
         0 <= i < |nodes| && 0 <= j < |nodes| && Joins(nodes[i], key) && Joins(nodes[j], key) && Precedes(nodes[i], nodes[j])
         ==> ports[nodes[i].id].v4 < ports[nodes[j].id].v4)
  }

  /** Both addresses carry the same host number, from 1 up to the number of entries. */
  ghost predicate InSegment(base4: nat, base6: Option<nat>, entries: nat, p: Port) {
    base4 < p.v4 <= base4 + entries && p.v6 == Shift(base6, p.v4 - base4)
  }

  ghost predicate DistinctIds(nodes: seq<Node>) {
    forall i, j :: 0 <= i < j < |nodes| ==> nodes[i].id != nodes[j].id
  }

  lemma {:induction false} SortedMembers(nodes: seq<Node>, key: Key)
    ensures var sorted := Sort(Precedes, Members(nodes, key, |nodes|));
            && Ascending(Precedes, sorted)
            && forall x :: x in sorted <==> x in nodes && Joins(x, key)
  {
    var members := Members(nodes, key, |nodes|);
    var sorted := Sort(Precedes, members);
    PrecedesWeak();
    SortAscending(Precedes, members);
    MembersAre(nodes, key, |nodes|);
    assert nodes[..|nodes|] == nodes;
    assert forall x :: x in sorted <==> x in Elements(sorted);
    assert forall x :: x in members <==> x in Elements(members);
  }

  /** The port of a joined node sits at one of its own entries. */
  lemma {:induction false} PortIndex(nodes: seq<Node>, key: Key, sorted: seq<Node>, base4: nat, base6: Option<nat>, ports: map<string, Port>, i: nat)
    returns (m: nat)
    requires DistinctIds(nodes) && i < |nodes| && Joins(nodes[i], key)
    requires forall x :: x in sorted <==> x in nodes && Joins(x, key)
    requires PortsAlong(sorted, |sorted|, base4, base6, ports)
    ensures nodes[i].id in ports && m < |sorted| && sorted[m] == nodes[i] && ports[nodes[i].id].v4 == base4 + 1 + m
  {
    assert nodes[i] in sorted;
    var k :| 0 <= k < |sorted| && sorted[k] == nodes[i];
    assert IsPortOf(sorted, |sorted|, base4, base6, nodes[i].id, ports[nodes[i].id]);
    m := ports[nodes[i].id].v4 - base4 - 1;
    assert sorted[m] in nodes;
  }

  lemma {:induction false} PortOrder(nodes: seq<Node>, key: Key, sorted: seq<Node>, base4: nat, base6: Option<nat>, ports: map<string, Port>, i: nat, j: nat)
    requires DistinctIds(nodes) && i < |nodes| && j < |nodes| && Joins(nodes[i], key) && Joins(nodes[j], key)
    requires forall x :: x in sorted <==> x in nodes && Joins(x, key)
    requires Ascending(Precedes, sorted) && PortsAlong(sorted, |sorted|, base4, base6, ports)
    requires Precedes(nodes[i], nodes[j])
    ensures nodes[i].id in ports && nodes[j].id in ports && ports[nodes[i].id].v4 < ports[nodes[j].id].v4
  {
    var m := PortIndex(nodes, key, sorted, base4, base6, ports, i);
    var n := PortIndex(nodes, key, sorted, base4, base6, ports, j);
    StringIrreflexive(nodes[i].id);
    assert m != n;
  }

  lemma {:induction false} PortOwner(nodes: seq<Node>, key: Key, sorted: seq<Node>, base4: nat, base6: Option<nat>, ports: map<string, Port>, id: string)
    requires forall x :: x in sorted <==> x in nodes && Joins(x, key)
    requires PortsAlong(sorted, |sorted|, base4, base6, ports) && id in ports
    ensures exists i :: 0 <= i < |nodes| && nodes[i].id == id && Joins(nodes[i], key)
    ensures InSegment(base4, base6, |sorted|, ports[id])
  {
    assert IsPortOf(sorted, |sorted|, base4, base6, id, ports[id]);
    var x := sorted[ports[id].v4 - base4 - 1];
    assert x in sorted;
  }

  lemma {:induction false} DealtIsAddressed(nodes: seq<Node>, key: Key, sorted: seq<Node>, base4: nat, base6: Option<nat>, ports: map<string, Port>)
    requires DistinctIds(nodes) && sorted == Sort(Precedes, Members(nodes, key, |nodes|))
    requires PortsAlong(sorted, |sorted|, base4, base6, ports)
    ensures Addressed(nodes, key, base4, base6, ports)
  {
    SortedMembers(nodes, key);
    forall i | 0 <= i < |nodes| && Joins(nodes[i], key) ensures nodes[i].id in ports {
      var m := PortIndex(nodes, key, sorted, base4, base6, ports, i);
    }
    forall i, j | 0 <= i < |nodes| && 0 <= j < |nodes| && Joins(nodes[i], key) && Joins(nodes[j], key) && Precedes(nodes[i], nodes[j])
      ensures ports[nodes[i].id].v4 < ports[nodes[j].id].v4
    {
      PortOrder(nodes, key, sorted, base4, base6, ports, i, j);
    }
    forall id | id in ports
      ensures exists i :: 0 <= i < |nodes| && nodes[i].id == id && Joins(nodes[i], key)
      ensures InSegment(base4, base6, |sorted|, ports[id])
    {
      PortOwner(nodes, key, sorted, base4, base6, ports, id);
    }
  }

  // ---- the whole allocation ----

  datatype Plan = Plan(sub4: map<Key, nat>, sub6: map<Key, nat>, ports: map<Key, map<string, Port>>)

  datatype SegmentError = NotJoined | SubnetsExhausted | TooManyMembers(key: Key)

  ghost function KeySet(nodes: seq<Node>): set<Key> {
    set i, j | 0 <= i < |nodes| && 0 <= j < |nodes[i].bindings| :: nodes[i].bindings[j].key
  }

  ghost predicate AllResolvable(nodes: seq<Node>) {
    forall i :: 0 <= i < |nodes| ==> Resolvable(nodes[i], nodes[i].origin4) && Resolvable(nodes[i], nodes[i].origin6)
  }

  function Base6(sub6: map<Key, nat>, key: Key): Option<nat> {
    if key in sub6 then Some(sub6[key]) else None
  }

  /** One of the first n subnets of the pool. */
  ghost predicate AmongFirst(p: Pool, length: nat, n: nat, x: nat)
    requires p.prefix <= length <= Bits(p.family)
  {
    n <= Available(p, length) && exists k :: 0 <= k < n && x == Slot(p, length, k)
  }

  /** Subnets of one family: the first of the pool, in key order, and apart from each other. */
  ghost predicate Apart(p: Pool, length: nat, subnets: map<Key, nat>)
    requires p.prefix <= length <= Bits(p.family)
  {
    && (forall key :: key in subnets ==> AmongFirst(p, length, |subnets|, subnets[key]))
    && (forall a, b {:trigger KeyLt(a, b)} :: a in subnets && b in subnets && KeyLt(a, b) ==> subnets[a] + Stride(p, length) <= subnets[b])
  }

  /** What the allocation promises. */
  ghost predicate Sound(nodes: seq<Node>, plan: Plan) {
    && (forall key {:trigger IsKey(nodes, key)} :: key in plan.sub4 <==> IsKey(nodes, key))
    && (forall key {:trigger IsIpv6(nodes, key)} :: key in plan.sub6 <==> IsIpv6(nodes, key))
    && Apart(SUBNETS4, 24, plan.sub4) && Apart(SUBNETS6, 64, plan.sub6)
    && (forall key {:trigger Served(nodes, plan, key)} :: key in plan.sub4 ==> Served(nodes, plan, key))
  }

  ghost predicate Served(nodes: seq<Node>, plan: Plan, key: Key) {
    && key in plan.sub4 && key in plan.ports
    && Serves(nodes, key, plan.sub4[key], Base6(plan.sub6, key), plan.ports[key])
  }

  /** One segment's members fit its subnet and are addressed in it. */
  ghost predicate Serves(nodes: seq<Node>, key: Key, base4: nat, base6: Option<nat>, ports: map<string, Port>) {
    |Members(nodes, key, |nodes|)| <= HOSTS4 && Addressed(nodes, key, base4, base6, ports)
  }

  ghost predicate HasPort(plan: Plan, key: Key, x: string) {
    key in plan.sub4 && key in plan.ports && x in plan.ports[key]
  }

  lemma {:induction false} PoolsValid()
    ensures ValidPool(SUBNETS4) && Stride(SUBNETS4, 24) == 256 && Available(SUBNETS4, 24) == 4096
    ensures ValidPool(SUBNETS6) && Stride(SUBNETS6, 64) == 0x1_0000_0000_0000_0000 && Available(SUBNETS6, 64) == IPV4_SPACE
  {
    assert Pow2(8) == 256;
    assert Pow2(12) == 4096;
    PowersDivide(20, 8);
    Ipv4Space();
    PowersDivide(64, 32);
    PowersDivide(96, 64);
    PowersDivide(128, 96);
  }

  ghost function WantedAmong(keys: seq<Key>, wanted: set<Key>, k: nat): set<Key>
    requires k <= |keys|
  {
    set i | 0 <= i < k && keys[i] in wanted :: keys[i]
  }

  lemma {:induction false} BeforeIsSize(keys: seq<Key>, wanted: set<Key>, k: nat)
    requires Distinct(keys) && k <= |keys|
    ensures |WantedAmong(keys, wanted, k)| == Before(keys, wanted, k)
  {
    if k > 0 {
      BeforeIsSize(keys, wanted, k - 1);
      var before := WantedAmong(keys, wanted, k - 1);
      assert WantedAmong(keys, wanted, k) == if keys[k - 1] in wanted then before + {keys[k - 1]} else before;
      assert keys[k - 1] !in before;
    }
  }

  lemma {:induction false} SubnetsApart(p: Pool, length: nat, keys: seq<Key>, wanted: set<Key>, subnets: map<Key, nat>)
    requires ValidPool(p) && p.prefix <= length <= Bits(p.family) && Increasing(KeyLt, keys)
    requires SubnetsOf(p, length, keys, wanted, subnets) && Before(keys, wanted, |keys|) <= Available(p, length)
    ensures Apart(p, length, subnets)
  {
    forall a, b | a in subnets && b in subnets && KeyLt(a, b) ensures subnets[a] + Stride(p, length) <= subnets[b] {
      SubnetsDisjoint(p, length, keys, wanted, subnets, a, b);
    }
    KeysDistinct(keys);
    BeforeIsSize(keys, wanted, |keys|);
    assert subnets.Keys == WantedAmong(keys, wanted, |keys|);
    assert |subnets| == |subnets.Keys|;
    forall key | key in subnets ensures AmongFirst(p, length, |subnets|, subnets[key]) {
      var i := KeyAt(keys, key);
      BeforeGrows(keys, wanted, i, |keys|);
    }
  }

  lemma {:induction false} KeyCount(nodes: seq<Node>, keys: seq<Key>)
    requires Increasing(KeyLt, keys) && forall key :: key in keys <==> IsKey(nodes, key)
    ensures |keys| == |KeySet(nodes)|
  {
    KeysDistinct(keys);
    DistinctSize(keys);
    assert Elements(keys) == KeySet(nodes);
  }

  lemma {:induction false} AllWanted(keys: seq<Key>, k: nat)
    requires k <= |keys|
    ensures Before(keys, Elements(keys), k) == k
  {
    if k > 0 { AllWanted(keys, k - 1); }
  }

  /** The subnets of both families; the IPv6 pool cannot run out before the IPv4 one. */
  method PlanSubnets(keys: seq<Key>, wanted: set<Key>) returns (r: Option<(map<Key, nat>, map<Key, nat>)>)
    requires Increasing(KeyLt, keys) && forall key :: key in wanted ==> key in keys
    ensures r.Some? <==> |keys| <= 4096
    ensures r.Some? ==> (forall key :: key in r.value.0 <==> key in keys) && (forall key :: key in r.value.1 <==> key in wanted)
    ensures r.Some? ==> Apart(SUBNETS4, 24, r.value.0) && Apart(SUBNETS6, 64, r.value.1)
  {
    KeysDistinct(keys);
    PoolsValid();
    AllWanted(keys, |keys|);
    var four := AllocateSubnets(SUBNETS4, 24, keys, Elements(keys));
    if four.None? { return None; }
    var six := AllocateSubnets(SUBNETS6, 64, keys, wanted);
    if six.None? {
      assert false;
    }
    SubnetsApart(SUBNETS4, 24, keys, Elements(keys), four.value);
    SubnetsApart(SUBNETS6, 64, keys, wanted, six.value);
    r := Some((four.value, six.value));
  }

  /** Addresses for one segment, unless it has more members than its subnet holds. */
  method PlanSegment(nodes: seq<Node>, key: Key, base4: nat, base6: Option<nat>) returns (r: Option<map<string, Port>>)
    requires DistinctIds(nodes)
    ensures r.None? ==> |Members(nodes, key, |nodes|)| > HOSTS4
    ensures r.Some? ==> Serves(nodes, key, base4, base6, r.value)
  {
    var members := CollectMembers(nodes, key);
    var sorted := Sort(Precedes, members);
    r := NumberMembers(sorted, base4, base6);
    if r.Some? { DealtIsAddressed(nodes, key, sorted, base4, base6, r.value); }
  }

  /** Addresses for every segment, or the first one with more members than its subnet holds. */
  method PlanPorts(nodes: seq<Node>, keys: seq<Key>, sub4: map<Key, nat>, sub6: map<Key, nat>) returns (r: Result<map<Key, map<string, Port>>, Key>)
    requires DistinctIds(nodes) && Distinct(keys) && forall key :: key in keys ==> key in sub4
    ensures r.Err? ==> r.error in keys && |Members(nodes, r.error, |nodes|)| > HOSTS4
    ensures r.Ok? ==> forall key :: key in keys ==> Served(nodes, Plan(sub4, sub6, r.value), key)
  {
    var ports: map<Key, map<string, Port>> := map[];
    for k := 0 to |keys|
      invariant forall m :: 0 <= m < k ==> keys[m] in ports && Serves(nodes, keys[m], sub4[keys[m]], Base6(sub6, keys[m]), ports[keys[m]])
    {
      var numbered := PlanSegment(nodes, keys[k], sub4[keys[k]], Base6(sub6, keys[k]));
      if numbered.None? { return Err(keys[k]); }
      ports := ports[keys[k] := numbered.value];
    }
    r := Ok(ports);
  }

  /** `_allocate_segment_addressing`: refused exactly when a name, the subnets or a segment's hosts do not suffice. */
  method AllocateSegments(nodes: seq<Node>) returns (r: Result<Plan, SegmentError>)
    requires DistinctIds(nodes)
    ensures r.Ok? ==> AllResolvable(nodes) && |KeySet(nodes)| <= 4096 && Sound(nodes, r.value)
    ensures r == Err(NotJoined) ==> !AllResolvable(nodes)
    ensures r == Err(SubnetsExhausted) ==> |KeySet(nodes)| > 4096
    ensures r.Err? && r.error.TooManyMembers? ==> IsKey(nodes, r.error.key) && |Members(nodes, r.error.key, |nodes|)| > HOSTS4
  {
    var keys := SegmentKeys(nodes);
    KeyCount(nodes, keys);
    KeysDistinct(keys);
    var wanted := Ipv6Keys(nodes);
    if wanted.None? { return Err(NotJoined); }
    forall key | key in wanted.value ensures key in keys { Ipv6IsJoined(nodes, key); }
    var subnets := PlanSubnets(keys, wanted.value);
    if subnets.None? { return Err(SubnetsExhausted); }
    var ports := PlanPorts(nodes, keys, subnets.value.0, subnets.value.1);
    if ports.Err? { return Err(TooManyMembers(ports.error)); }
    var resolved := OriginatesIpv4(nodes);
    if !resolved { return Err(NotJoined); }
    var plan := Plan(subnets.value.0, subnets.value.1, ports.value);
    PlanIsSound(nodes, keys, wanted.value, plan);
    r := Ok(plan);
  }

  method OriginatesIpv4(nodes: seq<Node>) returns (ok: bool)
    ensures ok <==> forall i :: 0 <= i < |nodes| ==> Resolvable(nodes[i], nodes[i].origin4)
  {
    for i := 0 to |nodes|
      invariant forall k :: 0 <= k < i ==> Resolvable(nodes[k], nodes[k].origin4)
    {
      var entries := OriginationEntries(nodes[i], nodes[i].origin4);
      if entries.None? { return false; }
    }
    ok := true;
  }

  lemma {:induction false} PlanIsSound(nodes: seq<Node>, keys: seq<Key>, wanted: set<Key>, plan: Plan)
    requires (forall key :: key in keys <==> IsKey(nodes, key)) && (forall key :: key in wanted <==> IsIpv6(nodes, key))
    requires (forall key :: key in plan.sub4 <==> key in keys) && (forall key :: key in plan.sub6 <==> key in wanted)
    requires Apart(SUBNETS4, 24, plan.sub4) && Apart(SUBNETS6, 64, plan.sub6)
    requires forall key :: key in keys ==> Served(nodes, plan, key)
    ensures Sound(nodes, plan)
  {}

  // ---- originated prefixes ----

  datatype Prefix = Everything | Subnet(base: nat)

  /** Every named target of a node has a subnet to stand for it. */
  ghost predicate Lookable(n: Node, targets: seq<Target>, subnets: map<Key, nat>) {
    forall t :: t in targets && t.Named? ==> Joined(n, t.segment).Some? && Joined(n, t.segment).value in subnets
  }

  function PrefixOf(n: Node, t: Target, subnets: map<Key, nat>): Prefix
    requires t.Named? ==> Joined(n, t.segment).Some? && Joined(n, t.segment).value in subnets
  {
    if t.DefaultRoute? then Everything else Subnet(subnets[Joined(n, t.segment).value])
  }

  /** The targets' prefixes in order of first mention, repeats collapsed. */
  method ResolveFamily(n: Node, targets: seq<Target>, subnets: map<Key, nat>) returns (prefixes: seq<Prefix>)
    requires Lookable(n, targets, subnets)
    ensures Distinct(prefixes)
    ensures forall i :: 0 <= i < |targets| ==> PrefixOf(n, targets[i], subnets) in prefixes
    ensures forall j :: 0 <= j < |prefixes| ==> FirstMention(n, targets, subnets, prefixes, j)
  {
    prefixes := [];
    for k := 0 to |targets|
      invariant Distinct(prefixes)
      invariant forall i :: 0 <= i < k ==> PrefixOf(n, targets[i], subnets) in prefixes
      invariant forall j :: 0 <= j < |prefixes| ==> MentionedBy(n, targets, subnets, prefixes, j, k)
    {
      var prefix := PrefixOf(n, targets[k], subnets);
      ghost var before := prefixes;
      if prefix !in prefixes {
        prefixes := prefixes + [prefix];
        assert MentionedAt(n, targets, subnets, prefixes, |before|, k);
      }
      MentionsStay(n, targets, subnets, before, prefixes, k, k + 1);
    }
  }

  lemma {:induction false} MentionsStay(n: Node, targets: seq<Target>, subnets: map<Key, nat>, before: seq<Prefix>, after: seq<Prefix>, k: nat, next: nat)
    requires Lookable(n, targets, subnets) && before <= after && k <= next <= |targets|
    requires forall j :: 0 <= j < |before| ==> MentionedBy(n, targets, subnets, before, j, k)
    ensures forall j :: 0 <= j < |before| ==> MentionedBy(n, targets, subnets, after, j, next)
  {
    forall j | 0 <= j < |before| ensures MentionedBy(n, targets, subnets, after, j, next) {
      assert MentionedBy(n, targets, subnets, before, j, k);
      var i :| 0 <= i < k && MentionedAt(n, targets, subnets, before, j, i);
      assert after[..j] == before[..j];
      assert MentionedAt(n, targets, subnets, after, j, i);
    }
  }

  /** Target i is the first to mention the j-th prefix: all before it are the earlier prefixes. */
  ghost predicate MentionedAt(n: Node, targets: seq<Target>, subnets: map<Key, nat>, prefixes: seq<Prefix>, j: nat, i: nat)
    requires Lookable(n, targets, subnets) && j < |prefixes| && i < |targets|
  {
    PrefixOf(n, targets[i], subnets) == prefixes[j] && forall m :: 0 <= m < i ==> PrefixOf(n, targets[m], subnets) in prefixes[..j]
  }

  ghost predicate MentionedBy(n: Node, targets: seq<Target>, subnets: map<Key, nat>, prefixes: seq<Prefix>, j: nat, k: nat)
    requires Lookable(n, targets, subnets) && j < |prefixes| && k <= |targets|
  {
    exists i :: 0 <= i < k && MentionedAt(n, targets, subnets, prefixes, j, i)
  }

  ghost predicate FirstMention(n: Node, targets: seq<Target>, subnets: map<Key, nat>, prefixes: seq<Prefix>, j: nat)
    requires Lookable(n, targets, subnets) && j < |prefixes|
  {
    MentionedBy(n, targets, subnets, prefixes, j, |targets|)
  }

  /** No origination lookup misses: a joined key has an IPv4 subnet, and an IPv6 one when the node originates it there. */
  lemma {:induction false} LookupsFound(nodes: seq<Node>, plan: Plan, i: nat)
    requires Sound(nodes, plan) && AllResolvable(nodes) && i < |nodes|
    ensures Lookable(nodes[i], nodes[i].origin4, plan.sub4) && Lookable(nodes[i], nodes[i].origin6, plan.sub6)
  {
    var n := nodes[i];
    forall t | t in n.origin4 && t.Named? ensures Joined(n, t.segment).Some? && Joined(n, t.segment).value in plan.sub4 {
      assert Joins(n, Joined(n, t.segment).value);
      assert IsKey(nodes, Joined(n, t.segment).value);
    }
    forall t | t in n.origin6 && t.Named? ensures Joined(n, t.segment).Some? && Joined(n, t.segment).value in plan.sub6 {
      var j :| 0 <= j < |n.origin6| && n.origin6[j] == t;
      assert EntryOf(n, n.origin6[j]) == Some(Joined(n, t.segment).value);
      assert OriginatedBy(n, Joined(n, t.segment).value);
      assert IsIpv6(nodes, Joined(n, t.segment).value);
    }
  }

  /** `_resolve_origination`, for a node of an allocated session. */
  method ResolveOrigination(nodes: seq<Node>, plan: Plan, i: nat) returns (v4: seq<Prefix>, v6: seq<Prefix>)
    requires Sound(nodes, plan) && AllResolvable(nodes) && i < |nodes|
    ensures Lookable(nodes[i], nodes[i].origin4, plan.sub4) && Lookable(nodes[i], nodes[i].origin6, plan.sub6)
    ensures Distinct(v4) && forall j :: 0 <= j < |v4| ==> FirstMention(nodes[i], nodes[i].origin4, plan.sub4, v4, j)
    ensures Distinct(v6) && forall j :: 0 <= j < |v6| ==> FirstMention(nodes[i], nodes[i].origin6, plan.sub6, v6, j)
    ensures v4 == [] <==> nodes[i].origin4 == []
    ensures v6 == [] <==> nodes[i].origin6 == []
  {
    LookupsFound(nodes, plan, i);
    v4 := ResolveFamily(nodes[i], nodes[i].origin4, plan.sub4);
    v6 := ResolveFamily(nodes[i], nodes[i].origin6, plan.sub6);
    SomeMention(nodes[i], nodes[i].origin4, plan.sub4, v4);
    SomeMention(nodes[i], nodes[i].origin6, plan.sub6, v6);
  }

  lemma {:induction false} SomeMention(n: Node, targets: seq<Target>, subnets: map<Key, nat>, prefixes: seq<Prefix>)
    requires Lookable(n, targets, subnets)
    requires forall i :: 0 <= i < |targets| ==> PrefixOf(n, targets[i], subnets) in prefixes
    requires forall j :: 0 <= j < |prefixes| ==> FirstMention(n, targets, subnets, prefixes, j)
    ensures prefixes == [] <==> targets == []
  {
    if targets != [] { assert PrefixOf(n, targets[0], subnets) in prefixes; }
    if prefixes != [] { assert FirstMention(n, targets, subnets, prefixes, 0); }
  }

  // ---- what follows for addresses ----

  lemma {:induction false} PortRange(nodes: seq<Node>, plan: Plan, key: Key, x: string)
    requires Sound(nodes, plan) && HasPort(plan, key, x)
    ensures var p := plan.ports[key][x];
            plan.sub4[key] < p.v4 <= plan.sub4[key] + HOSTS4 && p.v6 == Shift(Base6(plan.sub6, key), p.v4 - plan.sub4[key])
  {
    assert Served(nodes, plan, key);
    assert InSegment(plan.sub4[key], Base6(plan.sub6, key), |Members(nodes, key, |nodes|)|, plan.ports[key][x]);
  }

  /** Subnets of different keys are further apart than any host number. */
  lemma {:induction false} SubnetGap(subnets: map<Key, nat>, p: Pool, length: nat, a: Key, b: Key)
    requires (p, length) in {(SUBNETS4, 24), (SUBNETS6, 64)} && Apart(p, length, subnets) && a in subnets && b in subnets && a != b
    ensures subnets[a] + HOSTS4 < subnets[b] || subnets[b] + HOSTS4 < subnets[a]
  {
    PoolsValid();
    StringConnected(a.site, b.site);
    StringConnected(a.segment, b.segment);
    assert KeyLt(a, b) || KeyLt(b, a);
  }

  lemma {:induction false} PortsApart(p: Port, q: Port, a4: nat, b4: nat, a6: Option<nat>, b6: Option<nat>)
    requires a4 < p.v4 <= a4 + HOSTS4 && p.v6 == Shift(a6, p.v4 - a4) && b4 < q.v4 <= b4 + HOSTS4 && q.v6 == Shift(b6, q.v4 - b4)
    requires a4 + HOSTS4 < b4 || b4 + HOSTS4 < a4
    requires a6.Some? && b6.Some? ==> a6.value + HOSTS4 < b6.value || b6.value + HOSTS4 < a6.value
    ensures p.v4 != q.v4 && (p.v6.Some? ==> p.v6 != q.v6)
  {}

  /** No two members of any segments share an address, in either family. */
  lemma {:induction false} PortsUnique(nodes: seq<Node>, plan: Plan, a: Key, x: string, b: Key, y: string)
    requires Sound(nodes, plan)
    requires HasPort(plan, a, x) && HasPort(plan, b, y) && (a, x) != (b, y)
    ensures plan.ports[a][x].v4 != plan.ports[b][y].v4
    ensures plan.ports[a][x].v6.Some? ==> plan.ports[a][x].v6 != plan.ports[b][y].v6
  {
    PortRange(nodes, plan, a, x);
    PortRange(nodes, plan, b, y);
    if a == b {
      SameSegmentUnique(nodes, plan, a, x, y);
    } else {
      BasesApart(plan, a, b);
      PortsApart(plan.ports[a][x], plan.ports[b][y], plan.sub4[a], plan.sub4[b], Base6(plan.sub6, a), Base6(plan.sub6, b));
    }
  }

  /** In both families. */
  lemma {:induction false} BasesApart(plan: Plan, a: Key, b: Key)
    requires Apart(SUBNETS4, 24, plan.sub4) && Apart(SUBNETS6, 64, plan.sub6) && a in plan.sub4 && b in plan.sub4 && a != b
    ensures plan.sub4[a] + HOSTS4 < plan.sub4[b] || plan.sub4[b] + HOSTS4 < plan.sub4[a]
    ensures Base6(plan.sub6, a).Some? && Base6(plan.sub6, b).Some? ==>
              || Base6(plan.sub6, a).value + HOSTS4 < Base6(plan.sub6, b).value
              || Base6(plan.sub6, b).value + HOSTS4 < Base6(plan.sub6, a).value
  {
    SubnetGap(plan.sub4, SUBNETS4, 24, a, b);
    if a in plan.sub6 && b in plan.sub6 { SubnetGap(plan.sub6, SUBNETS6, 64, a, b); }
  }

  lemma {:induction false} SameSegmentUnique(nodes: seq<Node>, plan: Plan, key: Key, x: string, y: string)
    requires Sound(nodes, plan) && HasPort(plan, key, x) && HasPort(plan, key, y) && x != y
    ensures plan.ports[key][x].v4 != plan.ports[key][y].v4
  {
    assert Served(nodes, plan, key);
    var i :| 0 <= i < |nodes| && nodes[i].id == x && Joins(nodes[i], key);
    var j :| 0 <= j < |nodes| && nodes[j].id == y && Joins(nodes[j], key);
    StringConnected(x, y);
    assert Precedes(nodes[i], nodes[j]) || Precedes(nodes[j], nodes[i]);
  }

  /** The address on a node's j-th Ethernet interface. */
  ghost function InterfaceIpv4(nodes: seq<Node>, plan: Plan, i: nat, j: nat): nat
    requires Sound(nodes, plan) && i < |nodes| && j < |nodes[i].bindings|
  {
    JoinedHasPort(nodes, plan, i, j);
    plan.ports[nodes[i].bindings[j].key][nodes[i].id].v4
  }

  ghost predicate IsInterface(nodes: seq<Node>, i: int, j: int) {
    0 <= i < |nodes| && 0 <= j < |nodes[i].bindings|
  }

  ghost predicate InterfacesUnshared(nodes: seq<Node>, plan: Plan)
    requires Sound(nodes, plan)
  {
    forall i, j, m, n :: (IsInterface(nodes, i, j) && IsInterface(nodes, m, n) && (i, j) != (m, n))
      ==> InterfaceIpv4(nodes, plan, i, j) != InterfaceIpv4(nodes, plan, m, n)
  }

  ghost predicate BoundOnce(n: Node) {
    forall j, k :: 0 <= j < k < |n.bindings| ==> n.bindings[j].key != n.bindings[k].key
  }

  /** Two interfaces share an address exactly when they are one node's ports on one segment. */
  lemma {:induction false} InterfacesShare(nodes: seq<Node>, plan: Plan, i: nat, j: nat, m: nat, n: nat)
    requires DistinctIds(nodes) && Sound(nodes, plan) && IsInterface(nodes, i, j) && IsInterface(nodes, m, n)
    ensures InterfaceIpv4(nodes, plan, i, j) == InterfaceIpv4(nodes, plan, m, n) <==> i == m && nodes[i].bindings[j].key == nodes[m].bindings[n].key
  {
    var a, b := nodes[i].bindings[j].key, nodes[m].bindings[n].key;
    JoinedHasPort(nodes, plan, i, j);
    JoinedHasPort(nodes, plan, m, n);
    if (a, nodes[i].id) != (b, nodes[m].id) { PortsUnique(nodes, plan, a, nodes[i].id, b, nodes[m].id); }
  }

  lemma {:induction false} JoinedHasPort(nodes: seq<Node>, plan: Plan, i: nat, j: nat)
    requires Sound(nodes, plan) && IsInterface(nodes, i, j)
    ensures HasPort(plan, nodes[i].bindings[j].key, nodes[i].id)
  {
    var key := nodes[i].bindings[j].key;
    assert Joins(nodes[i], key);
    assert IsKey(nodes, key);
    assert Served(nodes, plan, key);
  }

  /** Interfaces have their own addresses exactly when no node puts two ports on one segment. */
  lemma {:induction false} InterfacesUnsharedIff(nodes: seq<Node>, plan: Plan)
    requires DistinctIds(nodes) && Sound(nodes, plan)
    ensures InterfacesUnshared(nodes, plan) <==> forall i :: 0 <= i < |nodes| ==> BoundOnce(nodes[i])
  {
    forall i, j, m, n | IsInterface(nodes, i, j) && IsInterface(nodes, m, n)
      ensures InterfaceIpv4(nodes, plan, i, j) == InterfaceIpv4(nodes, plan, m, n) <==> i == m && nodes[i].bindings[j].key == nodes[m].bindings[n].key
    {
      InterfacesShare(nodes, plan, i, j, m, n);
    }
    if InterfacesUnshared(nodes, plan) {
      forall i, j, k | 0 <= i < |nodes| && 0 <= j < k < |nodes[i].bindings| ensures nodes[i].bindings[j].key != nodes[i].bindings[k].key {
        assert IsInterface(nodes, i, j) && IsInterface(nodes, i, k);
      }
    }
  }

  /** A router with two ports on one segment meets every condition of the allocation. */
  lemma {:induction false} DoubleBindingIsAccepted()
    ensures var key := Key("site", "lan");
            var nodes := [Node("r", true, [Binding("e0", key), Binding("e1", key)], [], [])];
            && AllResolvable(nodes) && |KeySet(nodes)| <= 4096 && |Members(nodes, key, 1)| <= HOSTS4
            && !BoundOnce(nodes[0])
  {
    var key := Key("site", "lan");
    var n := Node("r", true, [Binding("e0", key), Binding("e1", key)], [], []);
    assert KeySet([n]) <= {key};
    SubsetSize(KeySet([n]), {key});
    assert Entries(n, key, 1) == [n];
    assert Entries(n, key, 2) == [n, n];
    assert Members([n], key, 1) == [n, n];
    assert n.bindings[0].key == n.bindings[1].key;
  }
}
