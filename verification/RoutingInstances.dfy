/** Which interfaces a router runs a routing instance on, the adjacencies that follow, and the OSPF check over them. */
module RoutingInstances {
  import opened Ordering
  import opened RoutingChecks

  datatype Domain = Domain(id: string, nodes: seq<string>)

  /** An interface of a node. */
  datatype Port = Port(node: string, name: string)

  /** A candidate link; `portA` and `portB` are the interfaces of a fixed one. */
  datatype Candidate = Candidate(a: string, b: string, access: bool, rule: string, portA: string, portB: string)

  /** `access` lists a node's interfaces behind access terminals, `segments` the members of each Ethernet segment,
      `boundaries` the rules a static_ip boundary crosses. */
  datatype Session = Session(domains: seq<Domain>, access: map<string, seq<string>>, candidates: seq<Candidate>,
                             segments: seq<seq<Port>>, boundaries: set<string>)

  ghost predicate DistinctDomains(s: Session) {
    forall i, j :: 0 <= i < j < |s.domains| ==> s.domains[i].id != s.domains[j].id
  }

  /** The domains a node participates in. */
  function Own(s: Session, node: string): set<string> {
    set i | 0 <= i < |s.domains| && node in s.domains[i].nodes :: s.domains[i].id
  }

  function AccessPorts(s: Session, node: string): seq<string> {
    if node in s.access then s.access[node] else []
  }

  // What the interface map means

  /** The candidate is a fixed link that no boundary crosses, and this is the port of an end whose peer shares the domain. */
  predicate FixedEnd(s: Session, c: Candidate, p: Port, dom: string) {
    && !c.access && c.rule !in s.boundaries
    && (|| (p == Port(c.a, c.portA) && dom in Own(s, c.a) * Own(s, c.b))
        || (p == Port(c.b, c.portB) && dom in Own(s, c.b) * Own(s, c.a)))
  }

  /** Over this access link the node can reach a node of the domain. */
  predicate AccessReach(s: Session, c: Candidate, node: string, dom: string) {
    c.access && ((c.a == node && dom in Own(s, c.b)) || (c.b == node && dom in Own(s, c.a)))
  }

  ghost predicate FixedRuns(s: Session, k: nat, p: Port, dom: string)
    requires k <= |s.candidates|
  {
    exists i :: 0 <= i < k && FixedEnd(s, s.candidates[i], p, dom)
  }

  ghost predicate Reached(s: Session, k: nat, node: string, dom: string)
    requires k <= |s.candidates|
  {
    exists i :: 0 <= i < k && AccessReach(s, s.candidates[i], node, dom)
  }

  ghost predicate AccessRuns(s: Session, p: Port, dom: string) {
    p.name in AccessPorts(s, p.node) && dom in Own(s, p.node) && Reached(s, |s.candidates|, p.node, dom)
  }

  /** The domains of a segment's other participants. */
  function Peers(s: Session, members: seq<Port>, node: string): set<string> {
    set m, dom | m in members && m.node != node && dom in Own(s, m.node) :: dom
  }

  /** A segment interface: the domains shared with the segment, or all of the node's when it shares none. */
  function SegmentDomains(s: Session, members: seq<Port>, node: string): set<string> {
    var shared := Own(s, node) * Peers(s, members, node);
    if shared != {} then shared else Own(s, node)
  }

  /** Whether a router runs a domain on an interface, the first k segments considered: the last segment the
      interface is on decides, and an interface on none takes part through its links. */
  ghost predicate RunsOn(s: Session, k: nat, p: Port, dom: string)
    requires k <= |s.segments|
  {
    if k == 0 then FixedRuns(s, |s.candidates|, p, dom) || AccessRuns(s, p, dom)
    else if p in s.segments[k - 1] then dom in SegmentDomains(s, s.segments[k - 1], p.node)
    else RunsOn(s, k - 1, p, dom)
  }

  /** A router runs an instance only if it participates in it. */
  lemma {:induction false} RunsOwn(s: Session, k: nat, p: Port, dom: string)
    requires k <= |s.segments| && RunsOn(s, k, p, dom)
    ensures dom in Own(s, p.node)
  {
    if k > 0 && p !in s.segments[k - 1] { RunsOwn(s, k - 1, p, dom); }
  }

  // `domain_interfaces_by_node`

  type Assigned = map<Port, set<string>>

  function Got(m: Assigned, p: Port): set<string> {
    if p in m then m[p] else {}
  }

  function Widened(m: Assigned, p: Port, more: set<string>): (r: Assigned)
    ensures forall q :: Got(r, q) == if q == p then Got(m, p) + more else Got(m, q)
  {
    m[p := Got(m, p) + more]
  }

  ghost predicate IsFixedMap(s: Session, k: nat, m: Assigned)
    requires k <= |s.candidates|
  {
    forall p, dom :: dom in Got(m, p) <==> FixedRuns(s, k, p, dom)
  }

  /** The pass over the fixed links: both ends of each. */
  method FixedPorts(s: Session) returns (m: Assigned)
    ensures IsFixedMap(s, |s.candidates|, m)
  {
    m := map[];
    for k := 0 to |s.candidates|
      invariant IsFixedMap(s, k, m)
    {
      var c := s.candidates[k];
      ghost var before := m;
      if !c.access && c.rule !in s.boundaries {
        m := Widened(Widened(m, Port(c.a, c.portA), Own(s, c.a) * Own(s, c.b)), Port(c.b, c.portB), Own(s, c.b) * Own(s, c.a));
      }
      forall p, dom ensures dom in Got(m, p) <==> FixedRuns(s, k + 1, p, dom) {
        assert dom in Got(m, p) <==> dom in Got(before, p) || FixedEnd(s, c, p, dom);
        FixedStep(s, k, p, dom);
      }
    }
  }

  lemma {:induction false} FixedStep(s: Session, k: nat, p: Port, dom: string)
    requires k < |s.candidates|
    ensures FixedRuns(s, k + 1, p, dom) <==> FixedRuns(s, k, p, dom) || FixedEnd(s, s.candidates[k], p, dom)
  {}

  type Reach = map<string, set<string>>

  function Reaching(reach: Reach, x: string): set<string> {
    if x in reach then reach[x] else {}
  }

  function Farther(reach: Reach, x: string, more: set<string>): (r: Reach)
    ensures forall y :: Reaching(r, y) == if y == x then Reaching(reach, x) + more else Reaching(reach, y)
  {
    reach[x := Reaching(reach, x) + more]
  }

  ghost predicate IsReach(s: Session, k: nat, reach: Reach)
    requires k <= |s.candidates|
  {
    forall x, dom :: dom in Reaching(reach, x) <==> Reached(s, k, x, dom)
  }

  /** The pass over the access links: which domains each node can reach. */
  method AccessDomains(s: Session) returns (reach: Reach)
    ensures IsReach(s, |s.candidates|, reach)
  {
    reach := map[];
    for k := 0 to |s.candidates|
      invariant IsReach(s, k, reach)
    {
      var c := s.candidates[k];
      ghost var before := reach;
      if c.access { reach := Farther(Farther(reach, c.a, Own(s, c.b)), c.b, Own(s, c.a)); }
      forall x, dom ensures dom in Reaching(reach, x) <==> Reached(s, k + 1, x, dom) {
        assert dom in Reaching(reach, x) <==> dom in Reaching(before, x) || AccessReach(s, c, x, dom);
        ReachStep(s, k, x, dom);
      }
    }
  }

  lemma {:induction false} ReachStep(s: Session, k: nat, x: string, dom: string)
    requires k < |s.candidates|
    ensures Reached(s, k + 1, x, dom) <==> Reached(s, k, x, dom) || AccessReach(s, s.candidates[k], x, dom)
  {}

  /** The access interfaces of every node take the domains the node can reach. */
  method AccessToo(s: Session, fixed: Assigned) returns (m: Assigned)
    requires IsFixedMap(s, |s.candidates|, fixed)
    ensures IsInterfaceMap(s, 0, m)
  {
    var reach := AccessDomains(s);
    m := fixed;
    var todo := s.access.Keys;
    while todo != {}
      invariant todo <= s.access.Keys
      invariant forall p, dom :: dom in Got(m, p) <==> dom in Got(fixed, p) || (p.node !in todo && AccessRuns(s, p, dom))
      decreases |todo|
    {
      var x :| x in todo;
      m := AccessOf(s, m, x, Own(s, x) * Reaching(reach, x));
      todo := todo - {x};
    }
  }

  /** The access interfaces of one node. */
  method AccessOf(s: Session, before: Assigned, x: string, doms: set<string>) returns (m: Assigned)
    requires forall dom :: dom in doms <==> dom in Own(s, x) && Reached(s, |s.candidates|, x, dom)
    ensures forall p, dom :: dom in Got(m, p) <==> dom in Got(before, p) || (p.node == x && AccessRuns(s, p, dom))
  {
    m := before;
    var names := AccessPorts(s, x);
    for k := 0 to |names|
      invariant forall p :: Got(m, p) == Got(before, p) + if p.node == x && p.name in names[..k] then doms else {}
    {
      m := Widened(m, Port(x, names[k]), doms);
      forall p: Port ensures p.node == x && p.name in names[..k + 1] <==> (p.node == x && p.name in names[..k]) || p == Port(x, names[k]) {
        assert names[..k + 1] == names[..k] + [names[k]];
        assert p == Port(p.node, p.name);
      }
    }
    assert names[..|names|] == names;
    forall p, dom ensures dom in Got(m, p) <==> dom in Got(before, p) || (p.node == x && AccessRuns(s, p, dom)) {
      assert p.name in names[..|names|] <==> p.name in names;
      assert dom in doms <==> dom in Own(s, x) && Reached(s, |s.candidates|, x, dom);
    }
  }

  ghost predicate Overlays(s: Session, before: Assigned, members: seq<Port>, m: Assigned) {
    forall p :: Got(m, p) == if p in members then SegmentDomains(s, members, p.node) else Got(before, p)
  }

  /** The interfaces of one segment: assigned anew, whatever they had. */
  method SegmentPorts(s: Session, before: Assigned, members: seq<Port>) returns (m: Assigned)
    ensures Overlays(s, before, members, m)
  {
    m := before;
    for k := 0 to |members|
      invariant forall p :: Got(m, p) == if p in members[..k] then SegmentDomains(s, members, p.node) else Got(before, p)
    {
      m := m[members[k] := SegmentDomains(s, members, members[k].node)];
      assert members[..k + 1] == members[..k] + [members[k]];
    }
    assert members[..|members|] == members;
  }

  /** `domain_interfaces_by_node`: the domains each interface runs, exactly. */
  method DomainInterfaces(s: Session) returns (m: Assigned)
    ensures IsInterfaceMap(s, |s.segments|, m)
  {
    m := FixedPorts(s);
    m := AccessToo(s, m);
    for k := 0 to |s.segments|
      invariant IsInterfaceMap(s, k, m)
    {
      m := NextSegment(s, m, k);
    }
  }

  method NextSegment(s: Session, before: Assigned, k: nat) returns (m: Assigned)
    requires k < |s.segments| && IsInterfaceMap(s, k, before)
    ensures IsInterfaceMap(s, k + 1, m)
  {
    m := SegmentPorts(s, before, s.segments[k]);
    SegmentStep(s, k, before, m);
  }

  ghost predicate IsInterfaceMap(s: Session, k: nat, m: Assigned)
    requires k <= |s.segments|
  {
    forall p, dom :: dom in Got(m, p) <==> RunsOn(s, k, p, dom)
  }

  lemma {:induction false} SegmentStep(s: Session, k: nat, before: Assigned, m: Assigned)
    requires k < |s.segments| && IsInterfaceMap(s, k, before)
    requires Overlays(s, before, s.segments[k], m)
    ensures IsInterfaceMap(s, k + 1, m)
  {
    forall p, dom ensures dom in Got(m, p) <==> RunsOn(s, k + 1, p, dom) {
      assert dom in Got(before, p) <==> RunsOn(s, k, p, dom);
    }
  }

  // `instance_links`

  /** The listed interfaces on which the node runs the instance. */
  function InInstance(m: Assigned, dom: string, node: string, names: seq<string>): (r: seq<string>)
    ensures forall x :: x in r <==> x in names && dom in Got(m, Port(node, x))
  {
    if names == [] then []
    else
      var last := names[|names| - 1];
      assert names == names[..|names| - 1] + [last];
      InInstance(m, dom, node, names[..|names| - 1]) + if dom in Got(m, Port(node, last)) then [last] else []
  }

  function EndsA(s: Session, m: Assigned, dom: string, c: Candidate): seq<string> {
    InInstance(m, dom, c.a, if c.access then AccessPorts(s, c.a) else [c.portA])
  }

  function EndsB(s: Session, m: Assigned, dom: string, c: Candidate): seq<string> {
    InInstance(m, dom, c.b, if c.access then AccessPorts(s, c.b) else [c.portB])
  }

  /** A candidate with an interface in the instance at both ends. */
  ghost predicate CandidateLink(s: Session, m: Assigned, dom: string, c: Candidate, l: Link) {
    && EndsA(s, m, dom, c) != [] && EndsB(s, m, dom, c) != []
    && l == Link(c.a, EndsA(s, m, dom, c), c.b, EndsB(s, m, dom, c))
  }

  /** Two members of a segment, in order, that both run the instance there. */
  ghost predicate SegmentLink(m: Assigned, dom: string, members: seq<Port>, l: Link) {
    exists i, j :: 0 <= i < j < |members| && Pairs(m, dom, members[i], members[j], l)
  }

  ghost predicate Pairs(m: Assigned, dom: string, x: Port, y: Port, l: Link) {
    dom in Got(m, x) && dom in Got(m, y) && l == Link(x.node, [x.name], y.node, [y.name])
  }

  ghost predicate IsLink(s: Session, m: Assigned, dom: string, l: Link) {
    || (exists i :: 0 <= i < |s.candidates| && CandidateLink(s, m, dom, s.candidates[i], l))
    || (exists k :: 0 <= k < |s.segments| && SegmentLink(m, dom, s.segments[k], l))
  }

  method CandidateLinks(s: Session, m: Assigned, dom: string) returns (links: seq<Link>)
    ensures forall l :: l in links <==> exists i :: 0 <= i < |s.candidates| && CandidateLink(s, m, dom, s.candidates[i], l)
  {
    links := [];
    for k := 0 to |s.candidates|
      invariant forall l :: l in links <==> exists i :: 0 <= i < k && CandidateLink(s, m, dom, s.candidates[i], l)
    {
      var c := s.candidates[k];
      var a, b := EndsA(s, m, dom, c), EndsB(s, m, dom, c);
      if a != [] && b != [] { links := links + [Link(c.a, a, c.b, b)]; }
    }
  }

  /** The links of one member to the later ones. */
  method MemberLinks(m: Assigned, dom: string, members: seq<Port>, i: nat) returns (links: seq<Link>)
    requires i < |members|
    ensures forall l :: l in links <==> exists j :: i < j < |members| && Pairs(m, dom, members[i], members[j], l)
  {
    links := [];
    for k := i + 1 to |members|
      invariant forall l :: l in links <==> exists j :: i < j < k && Pairs(m, dom, members[i], members[j], l)
    {
      if dom in Got(m, members[i]) && dom in Got(m, members[k]) {
        links := links + [Link(members[i].node, [members[i].name], members[k].node, [members[k].name])];
      }
    }
  }

  ghost predicate EarlierPair(m: Assigned, dom: string, members: seq<Port>, k: nat, l: Link) {
    exists i, j :: 0 <= i < j < |members| && i < k && Pairs(m, dom, members[i], members[j], l)
  }

  /** All links within one segment. */
  method SegmentLinks(m: Assigned, dom: string, members: seq<Port>) returns (links: seq<Link>)
    ensures forall l :: l in links <==> SegmentLink(m, dom, members, l)
  {
    links := [];
    for k := 0 to |members|
      invariant forall l :: l in links <==> EarlierPair(m, dom, members, k, l)
    {
      var more := MemberLinks(m, dom, members, k);
      ghost var before := links;
      links := links + more;
      forall l ensures l in links <==> EarlierPair(m, dom, members, k + 1, l) {
        if l in before {
          var i, j :| 0 <= i < j < |members| && i < k && Pairs(m, dom, members[i], members[j], l);
          assert i < k + 1;
        }
      }
    }
  }

  /** `instance_links` for one instance: exactly its possible adjacencies. */
  method InstanceLinks(s: Session, m: Assigned, dom: string) returns (links: seq<Link>)
    ensures forall l :: l in links <==> IsLink(s, m, dom, l)
  {
    links := CandidateLinks(s, m, dom);
    ghost var first := links;
    for k := 0 to |s.segments|
      invariant forall l :: l in links <==> l in first || exists i :: 0 <= i < k && SegmentLink(m, dom, s.segments[i], l)
    {
      var more := SegmentLinks(m, dom, s.segments[k]);
      links := links + more;
    }
  }

  // Areas, and the check over them

  /** The interfaces on which a router runs an instance. */
  function PortsIn(m: Assigned, dom: string, node: string): set<string> {
    set p | p in m && p.node == node && dom in m[p] :: p.name
  }

  /** `instance_areas_by_node` for one OSPF instance: a router's loopback and all its interfaces take its one area. */
  function Routers(m: Assigned, d: Domain, area: string -> string): (r: map<string, RouterAreas>)
    ensures r.Keys == set x | x in d.nodes
  {
    map x | x in d.nodes :: RouterAreas(area(x), map name | name in PortsIn(m, d.id, x) :: area(x))
  }

  /** Every end of every adjacency is a participant, on interfaces it has an area for: no lookup of the check misses. */
  lemma {:induction false} LinksAreResolved(s: Session, m: Assigned, d: Domain, area: string -> string, links: seq<Link>)
    requires DistinctDomains(s) && d in s.domains
    requires IsInterfaceMap(s, |s.segments|, m)
    requires forall l :: l in links ==> IsLink(s, m, d.id, l)
    ensures LinksResolve(Routers(m, d, area), links)
  {
    var routers := Routers(m, d, area);
    forall l | l in links
      ensures l.a in routers && (forall x :: x in l.portsA ==> x in routers[l.a].interfaces)
      ensures l.b in routers && (forall x :: x in l.portsB ==> x in routers[l.b].interfaces)
    {
      LinkEnds(s, m, d.id, l);
      EndResolves(s, m, d, area, l.a, l.portsA);
      EndResolves(s, m, d, area, l.b, l.portsB);
    }
  }

  /** Each end of an adjacency has an interface in the instance, and only such. */
  lemma {:induction false} LinkEnds(s: Session, m: Assigned, dom: string, l: Link)
    requires IsLink(s, m, dom, l)
    ensures l.portsA != [] && forall x :: x in l.portsA ==> dom in Got(m, Port(l.a, x))
    ensures l.portsB != [] && forall x :: x in l.portsB ==> dom in Got(m, Port(l.b, x))
  {
    if k :| 0 <= k < |s.segments| && SegmentLink(m, dom, s.segments[k], l) { SegmentEnds(m, dom, s.segments[k], l); }
  }

  lemma {:induction false} SegmentEnds(m: Assigned, dom: string, members: seq<Port>, l: Link)
    requires SegmentLink(m, dom, members, l)
    ensures l.portsA != [] && forall x :: x in l.portsA ==> dom in Got(m, Port(l.a, x))
    ensures l.portsB != [] && forall x :: x in l.portsB ==> dom in Got(m, Port(l.b, x))
  {
    var i, j :| 0 <= i < j < |members| && Pairs(m, dom, members[i], members[j], l);
    assert members[i] == Port(l.a, l.portsA[0]) && members[j] == Port(l.b, l.portsB[0]);
  }

  lemma {:induction false} EndResolves(s: Session, m: Assigned, d: Domain, area: string -> string, node: string, ports: seq<string>)
    requires DistinctDomains(s) && d in s.domains && ports != []
    requires IsInterfaceMap(s, |s.segments|, m)
    requires forall x :: x in ports ==> d.id in Got(m, Port(node, x))
    ensures node in Routers(m, d, area) && forall x :: x in ports ==> x in Routers(m, d, area)[node].interfaces
  {
    RunsOwn(s, |s.segments|, Port(node, ports[0]), d.id);
    var i :| 0 <= i < |s.domains| && node in s.domains[i].nodes && s.domains[i].id == d.id;
    var j :| 0 <= j < |s.domains| && s.domains[j] == d;
    assert i == j;
    forall x | x in ports ensures x in PortsIn(m, d.id, node) { assert Port(node, x) in m; }
  }

  /** With one area for each router no router joins two areas, so an instance can attach exactly when it has one area. */
  lemma {:induction false} OneAreaEach(routers: map<string, RouterAreas>, links: seq<Link>)
    requires forall x :: x in routers ==> AreasOf(routers[x]) == {routers[x].loopback}
    ensures Attachable(routers, links) <==> |InstanceAreas(routers)| <= 1
  {
    var areas := InstanceAreas(routers);
    if |areas| > 1 && BACKBONE in areas {
      var other := AnotherArea(areas);
      assert !HasBorder(routers, other);
    }
  }

  lemma {:induction false} AnotherArea(areas: set<string>) returns (other: string)
    requires |areas| > 1
    ensures other in areas && other != BACKBONE
  {
    if areas <= {BACKBONE} {
      SubsetSize(areas, {BACKBONE});
      assert false;
    }
    other :| other in areas && other != BACKBONE;
  }

  lemma {:induction false} RoutersHaveOneArea(m: Assigned, d: Domain, area: string -> string, x: string)
    requires x in d.nodes
    ensures AreasOf(Routers(m, d, area)[x]) == {area(x)} && Routers(m, d, area)[x].loopback == area(x)
  {
    var r := Routers(m, d, area)[x];
    forall v | v in r.interfaces.Values ensures v == area(x) {
      var name :| name in r.interfaces && r.interfaces[name] == v;
    }
  }

  /** The areas of an instance are those of its routers. */
  lemma {:induction false} AreasAre(m: Assigned, d: Domain, area: string -> string)
    ensures InstanceAreas(Routers(m, d, area)) == set x | x in d.nodes :: area(x)
  {
    var routers := Routers(m, d, area);
    forall a ensures a in InstanceAreas(routers) <==> exists x :: x in d.nodes && a == area(x) {
      if a in InstanceAreas(routers) {
        var x :| x in routers && a in AreasOf(routers[x]);
        RoutersHaveOneArea(m, d, area, x);
      }
      if x :| x in d.nodes && a == area(x) {
        RoutersHaveOneArea(m, d, area, x);
        assert a in AreasOf(routers[x]);
      }
    }
  }

  /** The OSPF check of one instance, from the session: no lookup misses, and there is no problem exactly when all its
      routers have one area. */
  method CheckOspf(s: Session, d: Domain, area: string -> string)
    returns (problems: seq<Problem>, routers: map<string, RouterAreas>, links: seq<Link>)
    requires DistinctDomains(s) && d in s.domains
    ensures LinksResolve(routers, links) && (problems == [] <==> Attachable(routers, links))
    ensures problems == [] <==> |set x | x in d.nodes :: area(x)| <= 1
  {
    var m := DomainInterfaces(s);
    links := InstanceLinks(s, m, d.id);
    routers := Routers(m, d, area);
    LinksAreResolved(s, m, d, area, links);
    ghost var parts;
    problems, parts := CheckInstance(routers, links);
    forall x | x in routers ensures AreasOf(routers[x]) == {routers[x].loopback} { RoutersHaveOneArea(m, d, area, x); }
    OneAreaEach(routers, links);
    AreasAre(m, d, area);
  }

  /** A fixed link that no boundary crosses, on interfaces of no segment, is an adjacency of exactly the instances both
      of its ends participate in. */
  lemma {:induction false} FixedLinkIff(s: Session, m: Assigned, dom: string, i: nat)
    requires i < |s.candidates| && !s.candidates[i].access && s.candidates[i].rule !in s.boundaries
    requires IsInterfaceMap(s, |s.segments|, m)
    requires var c := s.candidates[i];
             forall k :: 0 <= k < |s.segments| ==> Port(c.a, c.portA) !in s.segments[k] && Port(c.b, c.portB) !in s.segments[k]
    ensures var c := s.candidates[i];
            CandidateLink(s, m, dom, c, Link(c.a, [c.portA], c.b, [c.portB])) <==> dom in Own(s, c.a) && dom in Own(s, c.b)
  {
    var c := s.candidates[i];
    FixedPortRuns(s, i, Port(c.a, c.portA), dom);
    FixedPortRuns(s, i, Port(c.b, c.portB), dom);
    InOne(m, dom, c.a, c.portA);
    InOne(m, dom, c.b, c.portB);
  }

  lemma {:induction false} InOne(m: Assigned, dom: string, node: string, name: string)
    ensures InInstance(m, dom, node, [name]) == if dom in Got(m, Port(node, name)) then [name] else []
  {
    assert InInstance(m, dom, node, [name][..0]) == [];
  }

  lemma {:induction false} FixedPortRuns(s: Session, i: nat, p: Port, dom: string)
    requires i < |s.candidates| && !s.candidates[i].access && s.candidates[i].rule !in s.boundaries
    requires p in {Port(s.candidates[i].a, s.candidates[i].portA), Port(s.candidates[i].b, s.candidates[i].portB)}
    requires forall k :: 0 <= k < |s.segments| ==> p !in s.segments[k]
    ensures RunsOn(s, |s.segments|, p, dom) ==> dom in Own(s, p.node)
    ensures dom in Own(s, s.candidates[i].a) && dom in Own(s, s.candidates[i].b) ==> RunsOn(s, |s.segments|, p, dom)
  {
    OffSegments(s, |s.segments|, p, dom);
    if RunsOn(s, |s.segments|, p, dom) { RunsOwn(s, |s.segments|, p, dom); }
    if dom in Own(s, s.candidates[i].a) && dom in Own(s, s.candidates[i].b) { assert FixedEnd(s, s.candidates[i], p, dom); }
  }

  lemma {:induction false} OffSegments(s: Session, k: nat, p: Port, dom: string)
    requires k <= |s.segments| && forall j :: 0 <= j < k ==> p !in s.segments[j]
    ensures RunsOn(s, k, p, dom) <==> RunsOn(s, 0, p, dom)
  {
    if k > 0 { OffSegments(s, k - 1, p, dom); }
  }
}
