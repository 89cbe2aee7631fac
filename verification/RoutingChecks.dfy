/** Routing-domain connectivity and the OSPF backbone rule, both decided by the component walk. */
module RoutingChecks {
  import opened Ordering
  import opened Digraph
  import opened Components

  // ---- routing domains ----

  /** A node of the session; `wired` when it is a routed ground node with Ethernet interfaces. */
  datatype Station = Station(id: string, site: string, wired: bool)

  ghost predicate DistinctIds(stations: seq<Station>) {
    forall i, j :: 0 <= i < j < |stations| ==> stations[i].id != stations[j].id
  }

  ghost predicate LinkEdge(candidates: seq<(string, string)>, x: string, y: string) {
    (x, y) in candidates || (y, x) in candidates
  }

  ghost predicate WiredAt(stations: seq<Station>, k: nat, site: string, x: string)
    requires k <= |stations|
  {
    exists i :: 0 <= i < k && stations[i] == Station(x, site, true)
  }

  /** Two wired nodes of one site. */
  ghost predicate LanEdge(stations: seq<Station>, x: string, y: string) {
    x != y && exists site :: WiredAt(stations, |stations|, site, x) && WiredAt(stations, |stations|, site, y)
  }

  /** Adds one direction of an edge. */
  function Linked(g: Neighbors, x: string, y: string): (r: Neighbors)
    ensures forall a, b :: b in Near(r, a) <==> b in Near(g, a) || (a == x && b == y)
  {
    g[x := Near(g, x) + {y}]
  }

  method CandidateNeighbors(candidates: seq<(string, string)>) returns (g: Neighbors)
    ensures forall x, y :: y in Near(g, x) <==> LinkEdge(candidates, x, y)
  {
    g := map[];
    for k := 0 to |candidates|
      invariant forall x, y :: y in Near(g, x) <==> LinkEdge(candidates[..k], x, y)
    {
      var (a, b) := candidates[k];
      assert candidates[..k + 1] == candidates[..k] + [candidates[k]];
      g := Linked(Linked(g, a, b), b, a);
    }
    assert candidates[..|candidates|] == candidates;
  }

  /** The wired nodes of each site. */
  method MembersBySite(stations: seq<Station>) returns (sites: map<string, set<string>>)
    ensures forall site, x :: (site in sites && x in sites[site]) <==> WiredAt(stations, |stations|, site, x)
  {
    sites := map[];
    for k := 0 to |stations|
      invariant forall site, x :: (site in sites && x in sites[site]) <==> WiredAt(stations, k, site, x)
    {
      var s := stations[k];
      assert forall site, x :: WiredAt(stations, k + 1, site, x) <==> WiredAt(stations, k, site, x) || s == Station(x, site, true);
      if s.wired {
        sites := sites[s.site := (if s.site in sites then sites[s.site] else {}) + {s.id}];
      }
    }
  }

  method SiteNeighbors(stations: seq<Station>) returns (g: Neighbors)
    requires DistinctIds(stations)
    ensures forall x, y :: y in Near(g, x) <==> LanEdge(stations, x, y)
  {
    var sites := MembersBySite(stations);
    g := map[];
    for k := 0 to |stations|
      invariant forall x :: x in g ==> exists i :: 0 <= i < k && stations[i].id == x
      invariant forall i :: 0 <= i < k ==> Near(g, stations[i].id) == SiteMates(sites, stations[i])
    {
      assert stations[k].wired ==> stations[k] == Station(stations[k].id, stations[k].site, true);
      assert stations[k].wired ==> WiredAt(stations, |stations|, stations[k].site, stations[k].id);
      if stations[k].wired && |sites[stations[k].site]| >= 2 {
        g := g[stations[k].id := sites[stations[k].site] - {stations[k].id}];
      } else {
        NoMates(stations, sites, k);
      }
    }
    forall x, y ensures y in Near(g, x) <==> LanEdge(stations, x, y) { MatesAre(stations, sites, g, x, y); }
  }

  function SiteMates(sites: map<string, set<string>>, s: Station): set<string> {
    if s.wired && s.site in sites then sites[s.site] - {s.id} else {}
  }

  ghost predicate Grouped(stations: seq<Station>, sites: map<string, set<string>>) {
    forall site, x :: (site in sites && x in sites[site]) <==> WiredAt(stations, |stations|, site, x)
  }

  lemma {:induction false} NoMates(stations: seq<Station>, sites: map<string, set<string>>, k: nat)
    requires k < |stations| && Grouped(stations, sites)
    requires stations[k].wired ==> stations[k].site in sites && |sites[stations[k].site]| < 2
    ensures SiteMates(sites, stations[k]) == {}
  {
    var s := stations[k];
    if s.wired {
      assert WiredAt(stations, |stations|, s.site, s.id);
      assert {s.id} <= sites[s.site];
      if sites[s.site] != {s.id} { SmallerSet({s.id}, sites[s.site]); }
    }
  }

  lemma {:induction false} MatesAre(stations: seq<Station>, sites: map<string, set<string>>, g: Neighbors, x: string, y: string)
    requires DistinctIds(stations) && Grouped(stations, sites)
    requires forall z :: z in g ==> exists i :: 0 <= i < |stations| && stations[i].id == z
    requires forall i :: 0 <= i < |stations| ==> Near(g, stations[i].id) == SiteMates(sites, stations[i])
    ensures y in Near(g, x) <==> LanEdge(stations, x, y)
  {
    if y in Near(g, x) {
      var i :| 0 <= i < |stations| && stations[i].id == x;
      assert stations[i] == Station(x, stations[i].site, true);
      assert WiredAt(stations, |stations|, stations[i].site, x);
    }
    if LanEdge(stations, x, y) {
      var site :| WiredAt(stations, |stations|, site, x) && WiredAt(stations, |stations|, site, y);
      var i :| 0 <= i < |stations| && stations[i] == Station(x, site, true);
    }
  }

  function Union(a: Neighbors, b: Neighbors): (r: Neighbors)
    ensures forall x :: Near(r, x) == Near(a, x) + Near(b, x)
  {
    map x | x in a.Keys + b.Keys :: Near(a, x) + Near(b, x)
  }

  /** The possible adjacencies inside a domain. */
  ghost function DomainEdge(members: set<string>, candidates: seq<(string, string)>, stations: seq<Station>): (string, string) -> bool {
    (x, y) => x in members && y in members && (LinkEdge(candidates, x, y) || LanEdge(stations, x, y))
  }

  ghost predicate DomainConnected(members: set<string>, candidates: seq<(string, string)>, stations: seq<Station>) {
    forall x, y :: x in members && y in members ==> Reaches(DomainEdge(members, candidates, stations), x, y)
  }

  lemma {:induction false} SameConnectivity(g: Neighbors, members: set<string>, edge: (string, string) -> bool)
    requires forall x, y :: Edges(g, members)(x, y) == edge(x, y)
    ensures Connected(g, members) <==> forall x, y :: x in members && y in members ==> Reaches(edge, x, y)
  {
    forall x, y ensures Reaches(Edges(g, members), x, y) == Reaches(edge, x, y) {
      SameEverywhere(Edges(g, members), edge, x, y);
      SameEverywhere(edge, Edges(g, members), x, y);
    }
  }

  lemma {:induction false} SameEverywhere(e: (string, string) -> bool, f: (string, string) -> bool, x: string, y: string)
    requires forall a, b :: e(a, b) == f(a, b)
    ensures Reaches(e, x, y) ==> Reaches(f, x, y)
  {
    if Reaches(e, x, y) {
      var p :| Connects(e, p, x, y);
      assert Connects(f, p, x, y);
    }
  }

  /** The listed parts are the islands of the relation: each is everything any of its nodes reaches. */
  ghost predicate IslandsOf(members: set<string>, edge: (string, string) -> bool, parts: seq<set<string>>) {
    && (forall k, x :: 0 <= k < |parts| && x in parts[k] ==> IsIsland(members, edge, x, parts[k]))
    && (forall x {:trigger InSome(parts, x)} :: x in members ==> InSome(parts, x))
    && (forall j, k :: 0 <= j < k < |parts| ==> parts[j] !! parts[k])
    && {} !in parts
  }

  ghost predicate InSome(parts: seq<set<string>>, x: string) {
    exists k :: 0 <= k < |parts| && x in parts[k]
  }

  ghost predicate IsIsland(members: set<string>, edge: (string, string) -> bool, x: string, part: set<string>) {
    forall y :: y in part <==> y in members && Reaches(edge, x, y)
  }

  lemma {:induction false} ClassIsIsland(g: Neighbors, members: set<string>, edge: (string, string) -> bool, x: string)
    requires forall a, b :: Edges(g, members)(a, b) == edge(a, b)
    ensures IsIsland(members, edge, x, Class(g, members, x)) && (x in members ==> x in Class(g, members, x))
  {
    ReachesSelf(Edges(g, members), x);
    forall y ensures Reaches(Edges(g, members), x, y) == Reaches(edge, x, y) {
      SameEverywhere(Edges(g, members), edge, x, y);
      SameEverywhere(edge, Edges(g, members), x, y);
    }
  }

  /** Each part is the class of each of its nodes. */
  lemma {:induction false} PartIsClass(g: Neighbors, members: set<string>, parts: seq<set<string>>, k: nat, x: string)
    requires Undirected(g) && Parted(g, members, members, parts) && k < |parts| && x in parts[k]
    ensures parts[k] == Class(g, members, x)
  {
    var part := parts[k];
    var own :| own in members && part == Class(g, members, own);
    SameClass(g, members, own, x);
  }

  lemma {:induction false} PartNotEmpty(g: Neighbors, members: set<string>, parts: seq<set<string>>)
    requires Parted(g, members, members, parts)
    ensures {} !in parts
  {
    forall k | 0 <= k < |parts| ensures parts[k] != {} {
      var part := parts[k];
      var own :| own in members && part == Class(g, members, own);
      ReachesSelf(Edges(g, members), own);
      assert own in part;
    }
  }

  lemma {:induction false} PartsAreIslands(g: Neighbors, members: set<string>, edge: (string, string) -> bool, parts: seq<set<string>>)
    requires Undirected(g) && Parted(g, members, members, parts) && forall x, y :: Edges(g, members)(x, y) == edge(x, y)
    ensures IslandsOf(members, edge, parts)
  {
    PartNotEmpty(g, members, parts);
    forall k, x | 0 <= k < |parts| && x in parts[k] ensures IsIsland(members, edge, x, parts[k]) {
      PartIsClass(g, members, parts, k, x);
      ClassIsIsland(g, members, edge, x);
    }
    forall x | x in members ensures InSome(parts, x) {
      ClassIsIsland(g, members, edge, x);
      assert Class(g, members, x) in parts;
    }
  }

  /** The check of one domain: no report exactly when its members are connected. */
  method CheckDomain(members: set<string>, candidates: seq<(string, string)>, stations: seq<Station>) returns (split: seq<set<string>>)
    requires DistinctIds(stations)
    ensures split == [] <==> DomainConnected(members, candidates, stations)
    ensures split != [] ==> |split| >= 2 && IslandsOf(members, DomainEdge(members, candidates, stations), split)
  {
    ghost var edge := DomainEdge(members, candidates, stations);
    if |members| <= 1 {
      LoneMember(members, edge);
      return [];
    }
    var g := DomainNeighbors(members, candidates, stations);
    var parts := Islands(g, members, edge);
    split := if |parts| <= 1 then [] else parts;
  }

  /** The union of candidate and site-LAN neighbours. */
  method DomainNeighbors(members: set<string>, candidates: seq<(string, string)>, stations: seq<Station>) returns (g: Neighbors)
    requires DistinctIds(stations)
    ensures Undirected(g) && forall x, y :: Edges(g, members)(x, y) == DomainEdge(members, candidates, stations)(x, y)
  {
    var links := CandidateNeighbors(candidates);
    var lans := SiteNeighbors(stations);
    g := Union(links, lans);
  }

  /** The walk over a graph that has the given relation as its edges. */
  method Islands(g: Neighbors, members: set<string>, ghost edge: (string, string) -> bool) returns (parts: seq<set<string>>)
    requires Undirected(g) && forall x, y :: Edges(g, members)(x, y) == edge(x, y)
    ensures IslandsOf(members, edge, parts)
    ensures |parts| <= 1 <==> forall x, y :: x in members && y in members ==> Reaches(edge, x, y)
  {
    SameConnectivity(g, members, edge);
    parts := Split(g, members);
    PartsAreIslands(g, members, edge, parts);
  }

  lemma {:induction false} LoneMember(members: set<string>, edge: (string, string) -> bool)
    requires |members| <= 1
    ensures forall x, y :: x in members && y in members ==> Reaches(edge, x, y)
  {
    forall x, y | x in members && y in members ensures Reaches(edge, x, y) {
      SubsetSize({x, y}, members);
      assert x == y;
      ReachesSelf(edge, x);
    }
  }

  // ---- OSPF ----

  const BACKBONE := "0.0.0.0"

  /** A router's areas in one instance: its loopback's, and each interface's. */
  datatype RouterAreas = RouterAreas(loopback: string, interfaces: map<string, string>)

  /** A possible adjacency, with the interfaces each end has in the instance. */
  datatype Link = Link(a: string, portsA: seq<string>, b: string, portsB: seq<string>)

  datatype Problem = NoBackbone | Unattached(areas: set<string>) | BackboneSplits(parts: seq<set<string>>)

  function AreasOf(r: RouterAreas): set<string> {
    {r.loopback} + r.interfaces.Values
  }

  function InstanceAreas(routers: map<string, RouterAreas>): set<string> {
    set id, area | id in routers && area in AreasOf(routers[id]) :: area
  }

  function BackboneRouters(routers: map<string, RouterAreas>): set<string> {
    set id | id in routers && BACKBONE in AreasOf(routers[id])
  }

  /** Every end of a link is a participant, on interfaces it runs the instance on. */
  ghost predicate LinksResolve(routers: map<string, RouterAreas>, links: seq<Link>) {
    forall l :: l in links ==>
      && l.a in routers && l.b in routers
      && (forall p :: p in l.portsA ==> p in routers[l.a].interfaces)
      && (forall p :: p in l.portsB ==> p in routers[l.b].interfaces)
  }

  predicate Touches(r: RouterAreas, ports: seq<string>) {
    exists p :: p in ports && p in r.interfaces && r.interfaces[p] == BACKBONE
  }

  /** A link with a backbone interface at both ends. */
  predicate InBackbone(routers: map<string, RouterAreas>, l: Link) {
    l.a in routers && l.b in routers && Touches(routers[l.a], l.portsA) && Touches(routers[l.b], l.portsB)
  }

  /** A link joins x and y, in either direction. */
  ghost predicate Joins(l: Link, x: string, y: string) {
    (l.a == x && l.b == y) || (l.a == y && l.b == x)
  }

  ghost function BackboneEdge(routers: map<string, RouterAreas>, links: seq<Link>): (string, string) -> bool {
    (x, y) => exists k :: 0 <= k < |links| && InBackbone(routers, links[k]) && Joins(links[k], x, y)
  }

  /** A router with interfaces in the backbone and in the area. */
  predicate HasBorder(routers: map<string, RouterAreas>, area: string) {
    exists id :: id in routers && BACKBONE in AreasOf(routers[id]) && area in AreasOf(routers[id])
  }

  ghost predicate BackboneWhole(routers: map<string, RouterAreas>, links: seq<Link>) {
    forall x, y :: x in BackboneRouters(routers) && y in BackboneRouters(routers) ==> Reaches(BackboneEdge(routers, links), x, y)
  }

  /** What an instance needs: one area, or a whole backbone with every other area joined to it by a router. */
  ghost predicate Attachable(routers: map<string, RouterAreas>, links: seq<Link>) {
    || |InstanceAreas(routers)| <= 1
    || (&& BACKBONE in InstanceAreas(routers)
        && (forall area :: area in InstanceAreas(routers) && area != BACKBONE ==> HasBorder(routers, area))
        && BackboneWhole(routers, links))
  }

  lemma {:induction false} BackboneEnds(routers: map<string, RouterAreas>, l: Link)
    requires InBackbone(routers, l)
    ensures l.a in BackboneRouters(routers) && l.b in BackboneRouters(routers)
  {
    var p :| p in l.portsA && p in routers[l.a].interfaces && routers[l.a].interfaces[p] == BACKBONE;
    var q :| q in l.portsB && q in routers[l.b].interfaces && routers[l.b].interfaces[q] == BACKBONE;
    assert BACKBONE in routers[l.a].interfaces.Values && BACKBONE in routers[l.b].interfaces.Values;
  }

  ghost predicate IsPair(routers: map<string, RouterAreas>, links: seq<Link>, k: nat, a: string, b: string)
    requires k <= |links|
  {
    exists m :: 0 <= m < k && InBackbone(routers, links[m]) && links[m].a == a && links[m].b == b
  }

  /** The adjacencies of the backbone; both ends of each are backbone routers, so no lookup misses. */
  method BackbonePairs(routers: map<string, RouterAreas>, links: seq<Link>) returns (pairs: seq<(string, string)>)
    ensures forall a, b :: (a, b) in pairs ==> a in BackboneRouters(routers) && b in BackboneRouters(routers)
    ensures forall a, b :: (a, b) in pairs <==> IsPair(routers, links, |links|, a, b)
  {
    pairs := [];
    for k := 0 to |links|
      invariant forall a, b :: (a, b) in pairs ==> a in BackboneRouters(routers) && b in BackboneRouters(routers)
      invariant forall a, b :: (a, b) in pairs <==> IsPair(routers, links, k, a, b)
    {
      if InBackbone(routers, links[k]) {
        BackboneEnds(routers, links[k]);
        pairs := pairs + [(links[k].a, links[k].b)];
      }
    }
  }

  lemma {:induction false} PairsAreEdges(routers: map<string, RouterAreas>, links: seq<Link>, x: string, y: string)
    ensures IsPair(routers, links, |links|, x, y) || IsPair(routers, links, |links|, y, x) <==> BackboneEdge(routers, links)(x, y)
  {
    var n := |links|;
    if IsPair(routers, links, n, x, y) {
      var m :| 0 <= m < n && InBackbone(routers, links[m]) && links[m].a == x && links[m].b == y;
      assert Joins(links[m], x, y);
    }
    if IsPair(routers, links, n, y, x) {
      var m :| 0 <= m < n && InBackbone(routers, links[m]) && links[m].a == y && links[m].b == x;
      assert Joins(links[m], x, y);
    }
  }

  /** The backbone's parts, and whether there is more than one. */
  method BackboneParts(routers: map<string, RouterAreas>, links: seq<Link>) returns (parts: seq<set<string>>)
    ensures |parts| <= 1 <==> BackboneWhole(routers, links)
    ensures IslandsOf(BackboneRouters(routers), BackboneEdge(routers, links), parts)
  {
    var pairs := BackbonePairs(routers, links);
    forall x, y ensures LinkEdge(pairs, x, y) <==> BackboneEdge(routers, links)(x, y) { PairsAreEdges(routers, links, x, y); }
    var g := CandidateNeighbors(pairs);
    parts := Islands(g, BackboneRouters(routers), BackboneEdge(routers, links));
  }

  ghost function Detached(routers: map<string, RouterAreas>): set<string> {
    set area | area in InstanceAreas(routers) && area != BACKBONE && !HasBorder(routers, area)
  }

  method DetachedAreas(routers: map<string, RouterAreas>) returns (areas: set<string>)
    ensures areas == Detached(routers)
  {
    areas := set area | area in InstanceAreas(routers) && area != BACKBONE && !HasBorder(routers, area);
  }

  lemma {:induction false} AttachableIs(routers: map<string, RouterAreas>, links: seq<Link>)
    ensures Attachable(routers, links) <==>
            |InstanceAreas(routers)| <= 1 || (BACKBONE in InstanceAreas(routers) && Detached(routers) == {} && BackboneWhole(routers, links))
  {
    assert Detached(routers) == {} <==> forall area :: area !in Detached(routers);
  }

  /** One instance: its problems, empty exactly when it is attachable. */
  method CheckInstance(routers: map<string, RouterAreas>, links: seq<Link>) returns (problems: seq<Problem>, ghost parts: seq<set<string>>)
    ensures problems == [] <==> Attachable(routers, links)
    ensures |InstanceAreas(routers)| > 1 && BACKBONE !in InstanceAreas(routers) ==> problems == [NoBackbone]
    ensures |InstanceAreas(routers)| > 1 && BACKBONE in InstanceAreas(routers) ==>
              && IslandsOf(BackboneRouters(routers), BackboneEdge(routers, links), parts)
              && problems == (if Detached(routers) == {} then [] else [Unattached(Detached(routers))])
                             + (if BackboneWhole(routers, links) then [] else [BackboneSplits(parts)])
  {
    var areas := InstanceAreas(routers);
    AttachableIs(routers, links);
    problems, parts := [], [];
    if |areas| <= 1 { return; }
    if BACKBONE !in areas {
      problems := [NoBackbone];
      return;
    }
    var unattached := DetachedAreas(routers);
    if unattached != {} { problems := [Unattached(unattached)]; }
    var found := BackboneParts(routers, links);
    parts := found;
    if |found| > 1 { problems := problems + [BackboneSplits(found)]; }
  }
}
