/** What packets do when they follow the installed routes. */
module Forwarding {
  import opened Ordering
  import opened Paths
  import opened Wrappers
  import opened Topology
  import opened Addressing
  import opened Fib
  import opened Routing

  ghost predicate HasNextHop(routes: seq<Route>, prefix: Prefix, a: Node) {
    exists b :: Installed(routes, prefix, a, b)
  }

  /** A packet for `prefix` may visit the nodes of `p` in order. */
  ghost predicate FibWalk(routes: seq<Route>, prefix: Prefix, p: Path) {
    |p| > 0 && forall i | 0 <= i < |p| - 1 :: Installed(routes, prefix, p[i], p[i + 1])
  }

  /** `prefix` leads, from every host but `dest`, exactly or at least partly to the closer neighbours. */
  ghost predicate Leads(t: Tables, routes: seq<Route>, prefix: Prefix, dest: Node) {
    && (forall a, b | a != dest && Installed(routes, prefix, a, b) :: Host(t.n, a) && Closer(t, a, dest, b))
    && (forall a | Host(t.n, a) && a != dest && Known(t, a, dest) :: HasNextHop(routes, prefix, a))
  }

  ghost predicate LeadsEveryWay(t: Tables, routes: seq<Route>, prefix: Prefix, dest: Node) {
    forall a, b | a != dest && Host(t.n, a) && Closer(t, a, dest, b) :: Installed(routes, prefix, a, b)
  }

  predicate Greedy(chooser: Chooser) {
    chooser == EqualCost || chooser == Best(1)
  }

  lemma GreedyIsCloser(links: seq<Link>, t: Tables, chooser: Chooser, src: Node, dest: Node)
    requires TablesOk(links, t) && Host(t.n, src) && src != dest && Greedy(chooser)
    ensures forall hop | IsHop(t, chooser, src, dest, hop) :: Closer(t, src, dest, hop)
    ensures Known(t, src, dest) ==> exists hop :: IsHop(t, chooser, src, dest, hop)
  {
    hide TablesOk, IsHop, Closer;
    BestOneIsCloser(links, t, src, dest);
    if chooser == EqualCost {
      forall hop ensures IsHop(t, EqualCost, src, dest, hop) <==> Closer(t, src, dest, hop) {
        EqualCostIsCloser(links, t, src, dest, hop);
      }
    }
  }

  /** If `prefix` is demanded, away from `dest`, only towards `dest`, its routes lead there. */
  lemma DemandLeads(links: seq<Link>, t: Tables, scheme: Scheme, chooser: Chooser, uris: seq<Announcement>,
                    extra: seq<Announcement>, routes: seq<Route>, prefix: Prefix, dest: Node)
    requires TablesOk(links, t) && Greedy(chooser) && StrategyRoutes(t, scheme, chooser, uris, extra, routes)
    requires forall a, d | a != dest :: Demanded(t.n, uris, extra, Demand(a, d, prefix)) <==> d == dest && Host(t.n, a)
    ensures Leads(t, routes, prefix, dest)
    ensures chooser == EqualCost ==> LeadsEveryWay(t, routes, prefix, dest)
  {
    hide TablesOk, StrategyRoutes, Demanded, IsHop, Closer, Installed;
    forall a, b | a != dest && Installed(routes, prefix, a, b) ensures Host(t.n, a) && Closer(t, a, dest, b) {
      InstalledMeans(t, scheme, chooser, uris, extra, routes, prefix, a, b);
      GreedyIsCloser(links, t, chooser, a, dest);
    }
    forall a | Host(t.n, a) && a != dest && Known(t, a, dest) ensures HasNextHop(routes, prefix, a) {
      GreedyIsCloser(links, t, chooser, a, dest);
      var b :| IsHop(t, chooser, a, dest, b);
      InstalledMeans(t, scheme, chooser, uris, extra, routes, prefix, a, b);
    }
    if chooser == EqualCost {
      forall a, b | a != dest && Host(t.n, a) && Closer(t, a, dest, b) ensures Installed(routes, prefix, a, b) {
        EqualCostIsCloser(links, t, a, dest, b);
        InstalledMeans(t, scheme, chooser, uris, extra, routes, prefix, a, b);
      }
    }
  }

  // ---------- default prefixes ----------

  /** Every FIB walk that ends at the destination is a shortest path. */
  lemma {:induction false} FibWalkIsShortest(links: seq<Link>, t: Tables, routes: seq<Route>, prefix: Prefix, dest: Node, p: Path)
    requires TablesOk(links, t) && Host(t.n, dest) && Leads(t, routes, prefix, dest) && FibWalk(routes, prefix, p)
    requires p[|p| - 1] == dest && forall i | 0 <= i < |p| - 1 :: p[i] != dest
    ensures Walk(t.graph, p[0], dest, p) && Known(t, p[0], dest) && Cost(UnitWeight(), p) == Hops(t, p[0], dest)
  {
    hide TablesOk;
    if |p| == 1 {
      SelfDistance(links, t, dest);
    } else {
      var q := p[1..];
      assert Installed(routes, prefix, p[0], p[0 + 1]);
      forall i | 0 <= i < |q| - 1 ensures Installed(routes, prefix, q[i], q[i + 1]) && q[i] != dest {
        assert Installed(routes, prefix, p[i + 1], p[i + 1 + 1]);
      }
      FibWalkIsShortest(links, t, routes, prefix, dest, q);
      Prepend(t.graph, p[0], p[1], dest, q);
      assert p == [p[0]] + q;
    }
  }

  lemma SelfDistance(links: seq<Link>, t: Tables, a: Node)
    requires TablesOk(links, t) && Host(t.n, a)
    ensures Known(t, a, a) && Hops(t, a, a) == 0
  {
    assert Walk(t.graph, a, a, [a]) && Cost(UnitWeight(), [a]) == 0;
    assert Reachable(t.graph, a, a);
    KnownIffReachable(links, t, a, a);
  }

  /** Every shortest path is a FIB walk of equal-cost multipath. */
  lemma {:induction false} ShortestIsFibWalk(links: seq<Link>, t: Tables, routes: seq<Route>, prefix: Prefix, dest: Node, p: Path)
    requires TablesOk(links, t) && |p| > 0 && Host(t.n, p[0]) && LeadsEveryWay(t, routes, prefix, dest)
    requires Walk(t.graph, p[0], dest, p) && Known(t, p[0], dest) && Cost(UnitWeight(), p) == Hops(t, p[0], dest)
    ensures FibWalk(routes, prefix, p) && forall i | 0 <= i < |p| - 1 :: p[i] != dest
  {
    if |p| > 1 {
      var q := p[1..];
      hide TablesOk, LeadsEveryWay, Closer, Installed;
      FirstStepCloser(links, t, dest, p);
      hide Walk, Known, Hops, Neighbors;
      ShortestIsFibWalk(links, t, routes, prefix, dest, q);
      forall i | 0 <= i < |p| - 1 ensures Installed(routes, prefix, p[i], p[i + 1]) && p[i] != dest {
        if i > 0 {
          assert Installed(routes, prefix, q[i - 1], q[i - 1 + 1]) && q[i - 1] != dest;
        } else {
          StepInstalled(t, routes, prefix, dest, p[0], p[1]);
        }
      }
    }
  }

  lemma StepInstalled(t: Tables, routes: seq<Route>, prefix: Prefix, dest: Node, a: Node, b: Node)
    requires LeadsEveryWay(t, routes, prefix, dest) && a != dest && Host(t.n, a) && Closer(t, a, dest, b)
    ensures Installed(routes, prefix, a, b)
  {
  }

  /** The first step of a shortest path is to a closer neighbour, and the rest is shortest again. */
  lemma FirstStepCloser(links: seq<Link>, t: Tables, dest: Node, p: Path)
    requires TablesOk(links, t) && |p| > 1 && Host(t.n, p[0])
    requires Walk(t.graph, p[0], dest, p) && Known(t, p[0], dest) && Cost(UnitWeight(), p) == Hops(t, p[0], dest)
    ensures p[0] != dest && Closer(t, p[0], dest, p[1]) && Host(t.n, p[1])
    ensures Walk(t.graph, p[1], dest, p[1..]) && Known(t, p[1], dest) && Cost(UnitWeight(), p[1..]) == Hops(t, p[1], dest)
  {
    var q := p[1..];
    Behead(t.graph, p[0], dest, p);
    hide TablesOk;
    NeighborIsHost(links, t, p[0], p[1]);
    KnownIffReachable(links, t, p[1], dest);
    assert Reachable(t.graph, p[1], dest);
    OneHop(links, t, p[0], p[1], dest);
    SelfDistance(links, t, p[0]);
  }

  lemma DefaultDemands(n: nat, dest: Node, a: Node, d: Node)
    requires Host(n, dest)
    ensures a != dest ==> (Demanded(n, [], [], Demand(a, d, Example(dest))) <==> d == dest && Host(n, a))
    ensures !Demanded(n, [], [], Demand(dest, d, Example(dest)))
  {
  }

  /** ECMP installs the shortest-path DAG: for the default prefix of `dest`, the
      FIB walks ending at `dest` are exactly the shortest paths to it. */
  lemma EcmpIsShortestPathDag(links: seq<Link>, t: Tables, scheme: Scheme, routes: seq<Route>, dest: Node, p: Path)
    requires TablesOk(links, t) && StrategyRoutes(t, scheme, EqualCost, [], [], routes)
    requires Host(t.n, dest) && |p| > 0 && Host(t.n, p[0])
    ensures FibWalk(routes, Example(dest), p) && p[|p| - 1] == dest
       <==> Walk(t.graph, p[0], dest, p) && Known(t, p[0], dest) && Cost(UnitWeight(), p) == Hops(t, p[0], dest)
  {
    hide TablesOk, StrategyRoutes, Demanded, IsHop, Installed, Walk, Leads, LeadsEveryWay, Known, Hops;
    forall a, d ensures a != dest ==> (Demanded(t.n, [], [], Demand(a, d, Example(dest))) <==> d == dest && Host(t.n, a)) {
      DefaultDemands(t.n, dest, a, d);
    }
    DemandLeads(links, t, scheme, EqualCost, [], [], routes, Example(dest), dest);
    if FibWalk(routes, Example(dest), p) && p[|p| - 1] == dest {
      forall i | 0 <= i < |p| - 1 ensures p[i] != dest {
        assert Installed(routes, Example(dest), p[i], p[i + 1]);
        NoRouteAtHome(t, scheme, EqualCost, routes, dest, p[i + 1]);
      }
      FibWalkIsShortest(links, t, routes, Example(dest), dest, p);
    }
    if Walk(t.graph, p[0], dest, p) && Known(t, p[0], dest) && Cost(UnitWeight(), p) == Hops(t, p[0], dest) {
      ShortestIsFibWalk(links, t, routes, Example(dest), dest, p);
      WalkEnds(t.graph, p[0], dest, p);
    }
  }

  lemma WalkEnds(g: Graph, a: Node, b: Node, p: Path)
    requires Walk(g, a, b, p)
    ensures |p| > 0 && p[|p| - 1] == b
  {
  }

  lemma NoRouteAtHome(t: Tables, scheme: Scheme, chooser: Chooser, routes: seq<Route>, dest: Node, b: Node)
    requires StrategyRoutes(t, scheme, chooser, [], [], routes) && Host(t.n, dest)
    ensures !Installed(routes, Example(dest), dest, b)
  {
    hide StrategyRoutes, Installed, IsHop, Demanded;
    InstalledMeans(t, scheme, chooser, [], [], routes, Example(dest), dest, b);
    forall d ensures !Demanded(t.n, [], [], Demand(dest, d, Example(dest))) {
      DefaultDemands(t.n, dest, dest, d);
    }
  }

  // ---------- a prefix with one publisher ----------

  /** `uri` is announced by the URI publisher `pub` alone. */
  ghost predicate SoleAnnouncer(uris: seq<Announcement>, extra: seq<Announcement>, uri: string, pub: Node) {
    && Announcement(uri, pub) in uris
    && (forall a | a in uris && a.uri == uri :: a.host == pub)
    && (forall a | a in extra :: a.uri != uri)
  }

  lemma SoleDemands(n: nat, uris: seq<Announcement>, extra: seq<Announcement>, uri: string, pub: Node, a: Node, d: Node)
    requires SoleAnnouncer(uris, extra, uri, pub) && a != pub
    ensures Demanded(n, uris, extra, Demand(a, d, Named(uri))) <==> d == pub && Host(n, a)
  {
    if d == pub && Host(n, a) {
      assert Inward(n, Announcement(uri, pub), Demand(a, d, Named(uri)));
    }
  }

  lemma PublisherLeads(links: seq<Link>, t: Tables, scheme: Scheme, chooser: Chooser, uris: seq<Announcement>,
                       extra: seq<Announcement>, routes: seq<Route>, uri: string, pub: Node)
    requires TablesOk(links, t) && Greedy(chooser) && StrategyRoutes(t, scheme, chooser, uris, extra, routes)
    requires SoleAnnouncer(uris, extra, uri, pub)
    ensures Leads(t, routes, Named(uri), pub)
  {
    hide TablesOk, StrategyRoutes, Demanded, Leads, LeadsEveryWay, SoleAnnouncer;
    forall a, d | a != pub ensures Demanded(t.n, uris, extra, Demand(a, d, Named(uri))) <==> d == pub && Host(t.n, a) {
      SoleDemands(t.n, uris, extra, uri, pub, a, d);
    }
    DemandLeads(links, t, scheme, chooser, uris, extra, routes, Named(uri), pub);
  }

  /** Each hop of a walk that has not met the publisher yet is one hop closer to it. */
  lemma {:induction false} Descends(t: Tables, routes: seq<Route>, prefix: Prefix, pub: Node, p: Path)
    requires Leads(t, routes, prefix, pub) && FibWalk(routes, prefix, p) && |p| > 1
    requires forall i | 0 <= i < |p| - 1 :: p[i] != pub
    ensures Known(t, p[0], pub) && Known(t, p[|p| - 1], pub)
    ensures Hops(t, p[|p| - 1], pub) == Hops(t, p[0], pub) - (|p| - 1)
  {
    var n := |p| - 1;
    assert Installed(routes, prefix, p[n - 1], p[n - 1 + 1]);
    assert Closer(t, p[n - 1], pub, p[n]);
    if n > 1 {
      Descends(t, routes, prefix, pub, p[..n]);
    }
  }

  /** From any connected host, following any installed next hops reaches the
      publisher, after exactly the shortest-path number of hops. */
  lemma ReachesPublisher(links: seq<Link>, t: Tables, scheme: Scheme, chooser: Chooser, uris: seq<Announcement>,
                         extra: seq<Announcement>, routes: seq<Route>, uri: string, pub: Node, p: Path)
    requires TablesOk(links, t) && Greedy(chooser) && StrategyRoutes(t, scheme, chooser, uris, extra, routes)
    requires SoleAnnouncer(uris, extra, uri, pub)
    requires FibWalk(routes, Named(uri), p) && forall i | 0 <= i < |p| - 1 :: p[i] != pub
    requires Host(t.n, p[0]) && Known(t, p[0], pub)
    ensures |p| - 1 <= Hops(t, p[0], pub)
    ensures p[|p| - 1] == pub <==> |p| - 1 == Hops(t, p[0], pub)
    ensures p[|p| - 1] != pub ==> HasNextHop(routes, Named(uri), p[|p| - 1])
  {
    PublisherLeads(links, t, scheme, chooser, uris, extra, routes, uri, pub);
    hide StrategyRoutes, SoleAnnouncer;
    var last := p[|p| - 1];
    if |p| > 1 {
      Descends(t, routes, Named(uri), pub, p);
      assert Installed(routes, Named(uri), p[|p| - 2], p[|p| - 2 + 1]);
      assert Closer(t, p[|p| - 2], pub, last);
      NeighborIsHost(links, t, p[|p| - 2], last);
    }
    HopsZero(links, t, last, pub);
  }

  lemma HopsZero(links: seq<Link>, t: Tables, a: Node, b: Node)
    requires TablesOk(links, t) && Host(t.n, a) && Known(t, a, b)
    ensures Hops(t, a, b) >= 0 && (Hops(t, a, b) == 0 <==> a == b)
  {
    KnownIffReachable(links, t, a, b);
    hide TablesOk, Known, Hops;
    var p :| Walk(t.graph, a, b, p) && Cost(UnitWeight(), p) == Hops(t, a, b);
    if a == b {
      SelfDistance(links, t, a);
    } else {
      Behead(t.graph, a, b, p);
    }
  }

  /** Every forwarding cycle of the prefix passes through the publisher. */
  lemma CyclesMeetPublisher(links: seq<Link>, t: Tables, scheme: Scheme, chooser: Chooser, uris: seq<Announcement>,
                            extra: seq<Announcement>, routes: seq<Route>, uri: string, pub: Node, p: Path)
    requires TablesOk(links, t) && Greedy(chooser) && StrategyRoutes(t, scheme, chooser, uris, extra, routes)
    requires SoleAnnouncer(uris, extra, uri, pub)
    requires FibWalk(routes, Named(uri), p) && |p| > 1 && p[0] == p[|p| - 1]
    ensures pub in p
  {
    PublisherLeads(links, t, scheme, chooser, uris, extra, routes, uri, pub);
    hide StrategyRoutes, SoleAnnouncer, Leads, FibWalk, TablesOk;
    if pub !in p {
      Descends(t, routes, Named(uri), pub, p);
    }
  }

  /** A prefix that only static routes announce is never installed at its own host. */
  lemma PrefixRouteNotAtHome(t: Tables, scheme: Scheme, chooser: Chooser, uris: seq<Announcement>, extra: seq<Announcement>,
                             routes: seq<Route>, uri: string, host: Node)
    requires StrategyRoutes(t, scheme, chooser, uris, extra, routes)
    requires forall a | a in uris :: a.uri != uri
    requires forall a | a in extra && a.uri == uri :: a.host == host
    ensures forall r | r in routes && r.prefix == Named(uri) :: r.source != host
  {
    hide IsHop, RouteIp;
    forall r | r in routes && r.prefix == Named(uri) ensures r.source != host {
      var d :| Demanded(t.n, uris, extra, d) && Answers(t, scheme, chooser, d, r);
    }
  }

  // ---------- addresses ----------

  ghost predicate DistinctSubnets(links: seq<Link>) {
    forall i, j | 0 <= i < j < |links| && links[i].subnet.Some? :: links[i].subnet != links[j].subnet
  }

  lemma LinkedHosts(links: seq<Link>, l: nat, a: Node, b: Node)
    requires Joins(links, l, a, b)
    ensures l < |links| && a in links[l].hosts && b in links[l].hosts
  {
  }

  /** Every route's next-hop address is the one its next hop has on a link the
      source shares, and no other interface anywhere has it. */
  lemma NextHopOnLink(links: seq<Link>, t: Tables, scheme: Scheme, chooser: Chooser, uris: seq<Announcement>,
                      extra: seq<Announcement>, routes: seq<Route>, r: Route) returns (l: nat)
    requires TablesOk(links, t) && StrategyRoutes(t, scheme, chooser, uris, extra, routes) && r in routes
    requires DistinctSubnets(links)
    ensures AddressOn(scheme, links, l, r.nextHop, r.ip) && r.source in links[l].hosts
    ensures forall m: nat, h | AddressOn(scheme, links, m, h, r.ip) :: m == l && h == r.nextHop
  {
    hide StrategyRoutes, TablesOk, Neighbors;
    RouteHop(t, scheme, chooser, uris, extra, routes, r);
    l := SubnetLink(links, t, r.source, r.nextHop);
    forall m: nat, h | AddressOn(scheme, links, m, h, r.ip) ensures m == l && h == r.nextHop {
      HostIpDecodes(scheme, links[l].subnet.value, r.nextHop, links[m].subnet.value, h);
    }
  }

  lemma RouteHop(t: Tables, scheme: Scheme, chooser: Chooser, uris: seq<Announcement>, extra: seq<Announcement>,
                 routes: seq<Route>, r: Route)
    requires StrategyRoutes(t, scheme, chooser, uris, extra, routes) && r in routes
    ensures r.nextHop in Neighbors(t.graph, r.source) && RouteIp(t, scheme, r.source, r.nextHop) == Some(r.ip)
  {
    hide Demanded, Candidates, ChosenEntries, Neighbors, Known, Hops, RouteIp;
    var d :| Demanded(t.n, uris, extra, d) && Answers(t, scheme, chooser, d, r);
    var e :| e in ChosenEntries(t, chooser, d.src, d.dest) && e.node == r.nextHop;
    ChosenFromCandidates(t, chooser, d.src, d.dest, e);
    Offered(t, d.src, d.dest, e);
  }

  lemma SubnetLink(links: seq<Link>, t: Tables, a: Node, b: Node) returns (l: nat)
    requires TablesOk(links, t) && b in Neighbors(t.graph, a)
    ensures l < |links| && a in links[l].hosts && b in links[l].hosts
    ensures Key(a, b) in t.subnets && t.subnets[Key(a, b)] == links[l].subnet
  {
    hide Linked;
    assert SubnetOk(links, t.subnets, a, b);
    l :| l < |links| && LastJoins(links, l, a, b) && t.subnets[Key(a, b)] == links[l].subnet;
    LinkedHosts(links, l, a, b);
  }

  // ---------- the routes of compute_routes ----------

  ghost predicate ShortestPath(t: Tables, dest: Node, p: Path) {
    |p| > 0 && Walk(t.graph, p[0], dest, p) && Known(t, p[0], dest) && Cost(UnitWeight(), p) == Hops(t, p[0], dest)
  }

  /** compute_routes of the equal-cost strategy over default prefixes: packets follow
      exactly the shortest paths. */
  method EcmpForwards(links: seq<Link>, k: int, scheme: Scheme) returns (r: Option<seq<Route>>, t: Tables)
    requires WellFormed(links)
    ensures TablesOk(links, t)
    ensures r.Some? ==> forall dest, p | Host(t.n, dest) && |p| > 0 && Host(t.n, p[0]) ::
              FibWalk(r.value, Example(dest), p) && p[|p| - 1] == dest <==> ShortestPath(t, dest, p)
  {
    hide TablesOk, StrategyRoutes, FibWalk, Walk, Known, Hops;
    r, t := ComputeRoutes(Ecmp, links, k, [], [], scheme);
    if r.Some? {
      forall dest, p | Host(t.n, dest) && |p| > 0 && Host(t.n, p[0])
        ensures FibWalk(r.value, Example(dest), p) && p[|p| - 1] == dest <==> ShortestPath(t, dest, p)
      {
        EcmpIsShortestPathDag(links, t, scheme, r.value, dest, p);
      }
    }
  }

  /** `p` follows the routes of `uri` and has not met `pub` before its end. */
  ghost predicate Underway(routes: seq<Route>, uri: string, pub: Node, p: Path) {
    |p| > 0 && FibWalk(routes, Named(uri), p) && forall i | 0 <= i < |p| - 1 :: p[i] != pub
  }

  /** compute_routes of either shortest-path strategy: whatever installed next hops a
      packet follows, it meets the sole publisher in the shortest number of hops. */
  method ReachPublishers(strategy: Strategy, links: seq<Link>, k: int, uris: seq<Announcement>, extra: seq<Announcement>, scheme: Scheme)
    returns (r: Option<seq<Route>>, t: Tables)
    requires WellFormed(links) && strategy != KBest
    ensures TablesOk(links, t)
    ensures r.Some? ==> forall uri, pub, p | SoleAnnouncer(uris, extra, uri, pub) && Underway(r.value, uri, pub, p) && Host(t.n, p[0]) && Known(t, p[0], pub) ::
              && |p| - 1 <= Hops(t, p[0], pub)
              && (p[|p| - 1] == pub <==> |p| - 1 == Hops(t, p[0], pub))
              && (p[|p| - 1] != pub ==> HasNextHop(r.value, Named(uri), p[|p| - 1]))
  {
    hide TablesOk, StrategyRoutes, FibWalk, Known, Hops, SoleAnnouncer, HasNextHop;
    r, t := ComputeRoutes(strategy, links, k, uris, extra, scheme);
    if r.Some? {
      forall uri, pub, p | SoleAnnouncer(uris, extra, uri, pub) && Underway(r.value, uri, pub, p) && Host(t.n, p[0]) && Known(t, p[0], pub)
        ensures |p| - 1 <= Hops(t, p[0], pub)
        ensures p[|p| - 1] == pub <==> |p| - 1 == Hops(t, p[0], pub)
        ensures p[|p| - 1] != pub ==> HasNextHop(r.value, Named(uri), p[|p| - 1])
      {
        ReachesPublisher(links, t, scheme, ChooserOf(strategy, k), uris, extra, r.value, uri, pub, p);
      }
    }
  }
}
