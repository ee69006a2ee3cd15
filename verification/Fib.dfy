/** FIB computation: the topology tables, next-hop selection and the three
    routing strategies. */
module Fib {
  import opened Ordering
  import opened Paths
  import opened Dijkstra
  import opened Wrappers
  import opened Topology
  import opened Addressing

  // ---------- build_graph_and_subnets ----------

  type Subnets = map<(Node, Node), Option<int>>

  /** tuple(sorted((a, b))) */
  function Key(a: Node, b: Node): (Node, Node) {
    if a <= b then (a, b) else (b, a)
  }

  /** Link number `l` joins `a` and `b`. */
  ghost predicate Joins(links: seq<Link>, l: nat, a: Node, b: Node) {
    IsEdge(links, Edge(a, b, l)) || IsEdge(links, Edge(b, a, l))
  }

  ghost predicate Linked(links: seq<Link>, a: Node, b: Node) {
    exists l: nat :: Joins(links, l, a, b)
  }

  /** Of several links that join a pair, the last one's subnet is kept. */
  ghost predicate LastJoins(links: seq<Link>, l: nat, a: Node, b: Node) {
    Joins(links, l, a, b) && forall k: nat | Joins(links, k, a, b) :: k <= l
  }

  ghost predicate SubnetOk(links: seq<Link>, subnets: Subnets, a: Node, b: Node) {
    Key(a, b) in subnets && exists l: nat :: l < |links| && LastJoins(links, l, a, b) && subnets[Key(a, b)] == links[l].subnet
  }

  /** `n` is one more than the highest attached host, 0 if there is none. */
  ghost predicate Counts(links: seq<Link>, n: nat) {
    (forall h | Attached(links, h) :: Host(n, h)) && (n > 0 ==> Attached(links, (n - 1) as Node))
  }

  ghost predicate GraphOk(links: seq<Link>, n: nat, g: Graph, subnets: Subnets) {
    && Counts(links, n) && g.Keys == AllHosts(n)
    && (forall a, b :: b in Neighbors(g, a) <==> Linked(links, a, b))
    && (forall a, b | b in Neighbors(g, a) :: SubnetOk(links, subnets, a, b))
  }

  method BuildGraphAndSubnets(links: seq<Link>) returns (n: nat, g: Graph, subnets: Subnets)
    requires WellFormed(links)
    ensures GraphOk(links, n, g, subnets)
  {
    hide IsEdge, BuiltFrom, GraphOk, AllHosts;
    n := HostCount(links);
    var es := Edges(links);
    g, subnets := map h | h in AllHosts(n) :: {}, map[];
    BuiltFromNone(links, n, g);
    for k := 0 to |es|
      invariant g.Keys == AllHosts(n) && BuiltFrom(links, es[..k], n, g, subnets)
    {
      var e := es[k];
      EdgeEnds(links, n, e);
      BuiltFromMore(links, es, k, n, g, subnets);
      g := g[e.a := g[e.a] + {e.b}];
      g := g[e.b := g[e.b] + {e.a}];
      subnets := subnets[(e.a, e.b) := links[e.link].subnet];
    }
    assert es[..|es|] == es;
    BuiltFromAll(links, es, n, g, subnets);
  }

  /** The tables reflect exactly the edges processed so far. */
  ghost predicate BuiltFrom(links: seq<Link>, es: seq<Edge>, n: nat, g: Graph, subnets: Subnets) {
    && (forall a, b :: b in Neighbors(g, a) <==> Seen(es, a, b))
    && (forall a, b | Seen(es, a, b) :: Recorded(links, es, subnets, a, b))
  }

  lemma BuiltFromNone(links: seq<Link>, n: nat, g: Graph)
    requires forall h | h in g :: g[h] == {}
    ensures BuiltFrom(links, [], n, g, map[])
  {
  }

  lemma EdgeEnds(links: seq<Link>, n: nat, e: Edge)
    requires WellFormed(links) && IsEdge(links, e)
    requires forall h | Attached(links, h) :: Host(n, h)
    ensures e.a in AllHosts(n) && e.b in AllHosts(n) && e.link < |links| && Key(e.a, e.b) == (e.a, e.b)
  {
    EdgeAttached(links, e);
    EdgeOrdered(links, e);
    AllHostsCount(n);
  }

  lemma BuiltFromMore(links: seq<Link>, es: seq<Edge>, k: nat, n: nat, g: Graph, subnets: Subnets)
    requires k < |es| && BuiltFrom(links, es[..k], n, g, subnets)
    requires es[k].a in g && es[k].b in g && es[k].link < |links| && Key(es[k].a, es[k].b) == (es[k].a, es[k].b)
    requires forall i, j | 0 <= i < j < |es| :: es[i].link <= es[j].link
    ensures var e := es[k];
            var g1 := g[e.a := g[e.a] + {e.b}];
            BuiltFrom(links, es[..k + 1], n, g1[e.b := g1[e.b] + {e.a}], subnets[(e.a, e.b) := links[e.link].subnet])
  {
    var e := es[k];
    var g1 := g[e.a := g[e.a] + {e.b}];
    var g2 := g1[e.b := g1[e.b] + {e.a}];
    var es1, subnets1 := es[..k + 1], subnets[(e.a, e.b) := links[e.link].subnet];
    assert es1 == es[..k] + [e];
    hide Seen, Recorded;
    forall a, b ensures Seen(es1, a, b) <==> b in Neighbors(g2, a) {
      SeenMore(es[..k], e, a, b);
    }
    forall a, b | Seen(es1, a, b) ensures Recorded(links, es1, subnets1, a, b) {
      RecordedMore(links, es, k, subnets, a, b);
    }
  }

  lemma BuiltFromAll(links: seq<Link>, es: seq<Edge>, n: nat, g: Graph, subnets: Subnets)
    requires Counts(links, n) && g.Keys == AllHosts(n) && BuiltFrom(links, es, n, g, subnets)
    requires forall e :: e in es <==> IsEdge(links, e)
    ensures GraphOk(links, n, g, subnets)
  {
    hide IsEdge, Seen, Linked, Recorded, SubnetOk, Counts;
    forall a, b ensures b in Neighbors(g, a) <==> Linked(links, a, b) {
      SeenLinked(links, es, a, b);
    }
    forall a, b | b in Neighbors(g, a) ensures SubnetOk(links, subnets, a, b) {
      RecordedLast(links, es, subnets, a, b);
    }
  }

  predicate Matches(e: Edge, a: Node, b: Node) {
    (e.a == a && e.b == b) || (e.a == b && e.b == a)
  }

  ghost predicate Seen(es: seq<Edge>, a: Node, b: Node) {
    exists e :: e in es && Matches(e, a, b)
  }

  /** The pair's entry is the subnet of the last matching edge so far. */
  ghost predicate Recorded(links: seq<Link>, es: seq<Edge>, subnets: Subnets, a: Node, b: Node) {
    Key(a, b) in subnets && exists e :: e in es && e.link < |links| && Matches(e, a, b) && subnets[Key(a, b)] == links[e.link].subnet
                                        && forall f | f in es && Matches(f, a, b) :: f.link <= e.link
  }

  lemma EdgeAttached(links: seq<Link>, e: Edge)
    requires IsEdge(links, e)
    ensures Attached(links, e.a) && Attached(links, e.b) && e.link < |links|
  {
    assert e.a in links[e.link].hosts && e.b in links[e.link].hosts;
  }

  lemma EdgeOrdered(links: seq<Link>, e: Edge)
    requires WellFormed(links) && IsEdge(links, e)
    ensures Key(e.a, e.b) == (e.a, e.b)
  {
    var i, j :| 0 <= i < j < |links[e.link].hosts| && links[e.link].hosts[i] == e.a && links[e.link].hosts[j] == e.b;
    assert NodeLeq(links[e.link].hosts[i], links[e.link].hosts[j]);
  }

  lemma SeenMore(es: seq<Edge>, e: Edge, a: Node, b: Node)
    ensures Seen(es + [e], a, b) <==> Seen(es, a, b) || Matches(e, a, b)
  {
    assert e in es + [e];
  }

  lemma RecordedMore(links: seq<Link>, es: seq<Edge>, k: nat, subnets: Subnets, a: Node, b: Node)
    requires k < |es| && es[k].link < |links| && Key(es[k].a, es[k].b) == (es[k].a, es[k].b)
    requires forall i, j | 0 <= i < j < |es| :: es[i].link <= es[j].link
    requires Seen(es[..k], a, b) ==> Recorded(links, es[..k], subnets, a, b)
    requires Seen(es[..k + 1], a, b)
    ensures Recorded(links, es[..k + 1], subnets[(es[k].a, es[k].b) := links[es[k].link].subnet], a, b)
  {
    hide Seen, Recorded;
    var e := es[k];
    assert es[..k + 1] == es[..k] + [e];
    SeenMore(es[..k], e, a, b);
    if Matches(e, a, b) {
      forall f | f in es[..k]
        ensures f.link <= e.link
      {
        var i :| 0 <= i < k && es[i] == f;
      }
      RecordedNow(links, es[..k], e, subnets, a, b);
    } else {
      RecordedBefore(links, es[..k], e, subnets, a, b);
    }
  }

  lemma RecordedNow(links: seq<Link>, es: seq<Edge>, e: Edge, subnets: Subnets, a: Node, b: Node)
    requires Matches(e, a, b) && e.link < |links| && Key(e.a, e.b) == (e.a, e.b)
    requires forall f | f in es :: f.link <= e.link
    ensures Recorded(links, es + [e], subnets[(e.a, e.b) := links[e.link].subnet], a, b)
  {
    assert Key(a, b) == (e.a, e.b);
    assert e in es + [e];
  }

  lemma RecordedBefore(links: seq<Link>, es: seq<Edge>, e: Edge, subnets: Subnets, a: Node, b: Node)
    requires !Matches(e, a, b) && Key(e.a, e.b) == (e.a, e.b) && e.link < |links|
    requires Recorded(links, es, subnets, a, b)
    ensures Recorded(links, es + [e], subnets[(e.a, e.b) := links[e.link].subnet], a, b)
  {
    var f :| f in es && f.link < |links| && Matches(f, a, b) && subnets[Key(a, b)] == links[f.link].subnet
             && forall f' | f' in es && Matches(f', a, b) :: f'.link <= f.link;
    assert f in es + [e];
    assert Key(a, b) != (e.a, e.b);
  }

  lemma SeenLinked(links: seq<Link>, es: seq<Edge>, a: Node, b: Node)
    requires forall e :: e in es <==> IsEdge(links, e)
    ensures Seen(es, a, b) <==> Linked(links, a, b)
  {
    hide IsEdge;
    if Seen(es, a, b) {
      var e :| e in es && Matches(e, a, b);
      assert IsEdge(links, e) && (e == Edge(a, b, e.link) || e == Edge(b, a, e.link));
      assert Joins(links, e.link, a, b);
    }
    if Linked(links, a, b) {
      var l: nat :| Joins(links, l, a, b);
      assert Edge(a, b, l) in es || Edge(b, a, l) in es;
      assert Matches(Edge(a, b, l), a, b) && Matches(Edge(b, a, l), a, b);
    }
  }

  lemma RecordedLast(links: seq<Link>, es: seq<Edge>, subnets: Subnets, a: Node, b: Node)
    requires forall e :: e in es <==> IsEdge(links, e)
    requires Recorded(links, es, subnets, a, b)
    ensures SubnetOk(links, subnets, a, b)
  {
    hide IsEdge;
    var e :| e in es && e.link < |links| && Matches(e, a, b) && subnets[Key(a, b)] == links[e.link].subnet
             && forall f | f in es && Matches(f, a, b) :: f.link <= e.link;
    assert e == Edge(a, b, e.link) || e == Edge(b, a, e.link);
    forall k: nat | Joins(links, k, a, b) ensures k <= e.link {
      assert Edge(a, b, k) in es || Edge(b, a, k) in es;
      assert Matches(Edge(a, b, k), a, b) && Matches(Edge(b, a, k), a, b);
    }
    assert LastJoins(links, e.link, a, b);
  }

  // ---------- distance tables ----------

  datatype Tables = Tables(n: nat, graph: Graph, subnets: Subnets, dist: seq<Distances>)

  ghost predicate TablesOk(links: seq<Link>, t: Tables) {
    && GraphOk(links, t.n, t.graph, t.subnets) && |t.dist| == t.n
    && (forall s {:trigger RowOk(t.graph, t.dist, s)} | Host(t.n, s) :: RowOk(t.graph, t.dist, s))
  }

  ghost predicate RowOk(g: Graph, dist: seq<Distances>, s: Node) {
    s as int < |dist| && AreDistances(g, UnitWeight(), s, dist[s as int])
  }

  lemma GraphClosed(links: seq<Link>, n: nat, g: Graph, subnets: Subnets)
    requires GraphOk(links, n, g, subnets)
    ensures Closed(g) && Symmetric(g)
  {
    forall a, b | b in Neighbors(g, a) ensures a in Neighbors(g, b) && b in g {
      assert Linked(links, a, b);
      var l: nat :| Joins(links, l, a, b);
      assert Joins(links, l, b, a);
      assert Linked(links, b, a);
    }
    forall n | n in g ensures g[n] <= g.Keys {
      assert forall m | m in g[n] :: m in Neighbors(g, n);
    }
  }

  method BuildTables(links: seq<Link>) returns (t: Tables)
    requires WellFormed(links)
    ensures TablesOk(links, t)
  {
    hide GraphOk, AreDistances, Closed, Reachable;
    var n, g, subnets := BuildGraphAndSubnets(links);
    GraphClosed(links, n, g, subnets);
    var dist: seq<Distances> := [];
    for src := 0 to n
      invariant |dist| == src && forall s | Host(src, s) :: RowOk(g, dist, s)
    {
      GraphKeys(links, n, g, subnets, src as Node);
      var ok, distances, _ := DijkstraAll(g, src as Node, UnitWeight());
      assert ok by { NoMissingKey(g, src as Node); }
      forall s | Host(src + 1, s) ensures RowOk(g, dist + [distances], s) {
        assert s as int < src ==> RowOk(g, dist, s);
      }
      dist := dist + [distances];
    }
    t := Tables(n, g, subnets, dist);
  }

  /** The links determine the tables: host count, neighbours and distances. */
  lemma TablesUnique(links: seq<Link>, t: Tables, u: Tables)
    requires TablesOk(links, t) && TablesOk(links, u)
    ensures t.n == u.n && t.graph == u.graph && t.dist == u.dist
  {
    hide Linked, SubnetOk, AreDistances, Attached;
    CountsOnce(links, t.n, u.n);
    forall a | a in t.graph
      ensures t.graph[a] == u.graph[a]
    {
      forall b
        ensures b in t.graph[a] <==> b in u.graph[a]
      {
        assert b in Neighbors(t.graph, a) <==> Linked(links, a, b);
        assert b in Neighbors(u.graph, a) <==> Linked(links, a, b);
      }
    }
    assert t.graph == u.graph;
    forall i | 0 <= i < t.n
      ensures t.dist[i] == u.dist[i]
    {
      assert RowOk(t.graph, t.dist, i as Node) && RowOk(u.graph, u.dist, i as Node);
      DistancesUnique(t.graph, UnitWeight(), i as Node, t.dist[i], u.dist[i]);
    }
  }

  lemma CountsOnce(links: seq<Link>, m: nat, n: nat)
    requires Counts(links, m) && Counts(links, n)
    ensures m == n
  {
    hide Attached;
    if m > 0 { assert Host(n, (m - 1) as Node); }
    if n > 0 { assert Host(m, (n - 1) as Node); }
  }

  lemma NoMissingKey(g: Graph, s: Node)
    requires Closed(g) && s in g
    ensures forall v | Reachable(g, s, v) :: v in g
  {
    NothingBanned(g, s);
    ClosedHasKeys(g, s, {}, {}, s);
  }

  lemma GraphKeys(links: seq<Link>, n: nat, g: Graph, subnets: Subnets, h: Node)
    requires GraphOk(links, n, g, subnets)
    ensures h in g <==> Host(n, h)
  {
    AllHostsCount(n);
  }

  // ---------- next hops ----------

  /** all_dist[a].get(b) */
  predicate Known(t: Tables, a: Node, b: Node) {
    a as int < |t.dist| && b in t.dist[a as int]
  }

  function Hops(t: Tables, a: Node, b: Node): int
    requires Known(t, a, b)
  {
    t.dist[a as int][b]
  }

  /** (1 + distance, neighbor) for each neighbour that reaches the destination. */
  function CandidateList(t: Tables, ns: seq<Node>, dest: Node): (r: seq<Entry>)
    ensures forall e :: e in r <==> e.node in ns && Known(t, e.node, dest) && e.dist == 1 + Hops(t, e.node, dest)
    ensures Distinct(ns) ==> forall i, j | 0 <= i < j < |r| :: r[i].node != r[j].node
  {
    if ns == [] then [] else
      var front, n := CandidateList(t, ns[..|ns| - 1], dest), ns[|ns| - 1];
      assert ns == ns[..|ns| - 1] + [n];
      if Known(t, n, dest) then front + [Entry(1 + Hops(t, n, dest), n)] else front
  }

  /** candidates.sort() */
  function Candidates(t: Tables, src: Node, dest: Node): seq<Entry> {
    EntryOrder();
    Sort(EntryLeq, CandidateList(t, Sorted(Neighbors(t.graph, src)), dest))
  }

  /** The neighbours that reach the destination, cheapest first. */
  lemma CandidatesAre(t: Tables, src: Node, dest: Node)
    ensures Ordered(EntryLeq, Candidates(t, src, dest))
    ensures forall e :: e in Candidates(t, src, dest)
              <==> e.node in Neighbors(t.graph, src) && Known(t, e.node, dest) && e.dist == 1 + Hops(t, e.node, dest)
  {
    EntryOrder();
  }

  /** Python's c[:k] */
  function Slice<T>(c: seq<T>, k: int): seq<T> {
    if k >= 0 then (if k < |c| then c[..k] else c) else if -k < |c| then c[..|c| + k] else []
  }

  /** The leading entries that cost no more than the first. */
  function Cheapest(c: seq<Entry>, bound: int): seq<Entry> {
    if c == [] || c[0].dist > bound then [] else [c[0]] + Cheapest(c[1..], bound)
  }

  /** From a sorted list it takes exactly the entries within the bound. */
  lemma {:induction false} CheapestAre(c: seq<Entry>, bound: int)
    ensures Cheapest(c, bound) <= c && forall e | e in Cheapest(c, bound) :: e.dist <= bound
    ensures Ordered(EntryLeq, c) ==> forall e | e in c && e.dist <= bound :: e in Cheapest(c, bound)
  {
    if c != [] {
      CheapestAre(c[1..], bound);
      assert c == [c[0]] + c[1..];
      assert Ordered(EntryLeq, c) ==> Ordered(EntryLeq, c[1..]) && forall e | e in c :: c[0].dist <= e.dist;
    }
  }

  /** `k` best next hops, or every next hop of least cost. */
  datatype Chooser = Best(k: int) | EqualCost

  function ChosenEntries(t: Tables, chooser: Chooser, src: Node, dest: Node): seq<Entry> {
    var c := Candidates(t, src, dest);
    match chooser
    case Best(k) => Slice(c, k)
    case EqualCost => if c == [] then [] else Cheapest(c, c[0].dist)
  }

  ghost predicate IsHop(t: Tables, chooser: Chooser, src: Node, dest: Node, hop: Node) {
    exists e :: e in ChosenEntries(t, chooser, src, dest) && e.node == hop
  }

  // ---------- routes ----------

  /** Default prefixes ccnx:/test/example<n>, or a configured URI. */
  datatype Prefix = Example(host: Node) | Named(uri: string)

  datatype Route = Route(source: Node, prefix: Prefix, nextHop: Node, ip: Ip)

  /** The address a route to `hop` carries; None where looking it up raises. */
  function RouteIp(t: Tables, scheme: Scheme, src: Node, hop: Node): Option<Ip> {
    var key := Key(src, hop);
    if key in t.subnets && t.subnets[key].Some? then HostIp(scheme, t.subnets[key].value, hop) else None
  }

  /** A (source, destination, prefix) triple passed to _add_routes / _add_ecmp. */
  datatype Demand = Demand(src: Node, dest: Node, prefix: Prefix)

  ghost predicate Answers(t: Tables, scheme: Scheme, chooser: Chooser, d: Demand, r: Route) {
    && r.source == d.src && r.prefix == d.prefix && IsHop(t, chooser, d.src, d.dest, r.nextHop)
    && RouteIp(t, scheme, r.source, r.nextHop) == Some(r.ip)
  }

  ghost predicate RoutesAre(t: Tables, scheme: Scheme, chooser: Chooser, ds: seq<Demand>, routes: seq<Route>) {
    && (forall r | r in routes :: exists d :: d in ds && Answers(t, scheme, chooser, d, r))
    && (forall d, r | d in ds && Answers(t, scheme, chooser, d, r) :: r in routes)
  }

  /** No (source, prefix, next_hop_ip) twice. */
  ghost predicate NoRepeats(routes: seq<Route>) {
    forall i, j | 0 <= i < j < |routes| ::
      !(routes[i].source == routes[j].source && routes[i].prefix == routes[j].prefix && routes[i].ip == routes[j].ip)
  }

  type Keys = set<(Node, Prefix, Ip)>

  function KeyOf(r: Route): (Node, Prefix, Ip) {
    (r.source, r.prefix, r.ip)
  }

  ghost predicate SeenIs(seen: Keys, routes: seq<Route>) {
    && (forall r | r in routes :: KeyOf(r) in seen)
    && (forall k | k in seen :: exists r :: r in routes && KeyOf(r) == k)
  }

  /** Every route so far carries the address of its own next hop. */
  ghost predicate Addressed(t: Tables, scheme: Scheme, routes: seq<Route>) {
    forall r | r in routes :: RouteIp(t, scheme, r.source, r.nextHop) == Some(r.ip)
  }

  /** Same source and same address mean the same next hop. */
  lemma SameHop(t: Tables, scheme: Scheme, src: Node, a: Node, b: Node)
    requires RouteIp(t, scheme, src, a).Some? && RouteIp(t, scheme, src, b) == RouteIp(t, scheme, src, a)
    ensures a == b
  {
  }

  ghost predicate Extends(t: Tables, scheme: Scheme, chooser: Chooser, d: Demand, hops: seq<Entry>,
                          before: seq<Route>, after: seq<Route>) {
    && (forall r | r in before :: r in after)
    && (forall r | r in after :: r in before ||
          (r.source == d.src && r.prefix == d.prefix && RouteIp(t, scheme, r.source, r.nextHop) == Some(r.ip)
           && exists e :: e in hops && e.node == r.nextHop))
    && (forall e, ip | e in hops && RouteIp(t, scheme, d.src, e.node) == Some(ip) :: Route(d.src, d.prefix, e.node, ip) in after)
  }

  /** `graph[src]` or host_ip raises: an unknown publisher, or a next hop without an address. */
  ghost predicate Unanswerable(t: Tables, scheme: Scheme, chooser: Chooser, d: Demand) {
    d.src !in t.graph || exists e :: e in ChosenEntries(t, chooser, d.src, d.dest) && RouteIp(t, scheme, d.src, e.node).None?
  }

  /** _add_routes / _add_ecmp. Fails on an unknown publisher (KeyError) or an address out
      of range (ValueError). compute_fib itself keeps no `seen` set. */
  method AddRoutes(t: Tables, scheme: Scheme, chooser: Chooser, dedupe: bool, d: Demand, routes0: seq<Route>, seen0: Keys)
    returns (ok: bool, routes: seq<Route>, seen: Keys)
    requires Addressed(t, scheme, routes0) && (dedupe ==> SeenIs(seen0, routes0) && NoRepeats(routes0))
    ensures ok ==> Addressed(t, scheme, routes) && (dedupe ==> SeenIs(seen, routes) && NoRepeats(routes))
    ensures ok && NoRepeats(routes0) && Unserved(routes0, d) ==> NoRepeats(routes)
    ensures ok ==> d.src in t.graph && Extends(t, scheme, chooser, d, ChosenEntries(t, chooser, d.src, d.dest), routes0, routes)
    ensures ok ==> forall e | e in ChosenEntries(t, chooser, d.src, d.dest) :: RouteIp(t, scheme, d.src, e.node).Some?
    ensures !ok ==> Unanswerable(t, scheme, chooser, d)
  {
    hide SeenIs, NoRepeats, Addressed, Extends, RouteIp, ChosenEntries, KeyOf, Unserved, DistinctHops;
    ChosenDistinct(t, chooser, d.src, d.dest);
    routes, seen := routes0, seen0;
    if d.src !in t.graph {
      return false, routes, seen;
    }
    var hops := ChosenEntries(t, chooser, d.src, d.dest);
    ExtendsNone(t, scheme, chooser, d, routes0);
    for i := 0 to |hops|
      invariant Addressed(t, scheme, routes) && (dedupe ==> SeenIs(seen, routes) && NoRepeats(routes))
      invariant Extends(t, scheme, chooser, d, hops[..i], routes0, routes)
      invariant NoRepeats(routes0) && Unserved(routes0, d) ==> NoRepeats(routes)
      invariant forall e | e in hops[..i] :: RouteIp(t, scheme, d.src, e.node).Some?
    {
      var hop := hops[i].node;
      assert hops[..i + 1] == hops[..i] + [hops[i]];
      var ip := RouteIp(t, scheme, d.src, hop);
      if ip.None? {
        assert hops[i] in hops;
        return false, routes, seen;
      }
      var route := Route(d.src, d.prefix, hop, ip.value);
      if dedupe && KeyOf(route) in seen {
        AlreadyThere(t, scheme, routes, seen, route);
        ExtendsOne(t, scheme, chooser, d, hops, i, routes0, routes, routes, route);
      } else {
        if NoRepeats(routes0) && Unserved(routes0, d) {
          AppendUnserved(t, scheme, chooser, d, hops, i, routes0, routes, route);
        }
        AppendRoute(t, scheme, dedupe, routes, seen, route);
        ExtendsOne(t, scheme, chooser, d, hops, i, routes0, routes, routes + [route], route);
        routes, seen := routes + [route], seen + {KeyOf(route)};
      }
    }
    assert hops[..|hops|] == hops;
    ok := true;
  }

  /** No demand asks for what another one of the same source and prefix asks for. */
  ghost predicate DemandsApart(ds: seq<Demand>) {
    forall i, j | 0 <= i < j < |ds| :: ds[i].src != ds[j].src || ds[i].prefix != ds[j].prefix
  }

  /** No route so far has the demand's source and prefix. */
  ghost predicate Unserved(routes: seq<Route>, d: Demand) {
    forall r | r in routes :: r.source != d.src || r.prefix != d.prefix
  }

  ghost predicate DistinctHops(hops: seq<Entry>) {
    forall i, j | 0 <= i < j < |hops| :: hops[i].node != hops[j].node
  }

  /** No neighbour is on offer twice. */
  lemma ChosenDistinct(t: Tables, chooser: Chooser, src: Node, dest: Node)
    ensures DistinctHops(ChosenEntries(t, chooser, src, dest))
  {
    hide Candidates, Cheapest, DistinctHops;
    var c := Candidates(t, src, dest);
    CandidatesDistinct(t, src, dest);
    match chooser
    case Best(k) => PrefixDistinct(c, Slice(c, k));
    case EqualCost =>
      PrefixDistinct(c, []);
      if c != [] {
        CheapestAre(c, c[0].dist);
        PrefixDistinct(c, Cheapest(c, c[0].dist));
      }
  }

  lemma PrefixDistinct(c: seq<Entry>, front: seq<Entry>)
    requires DistinctHops(c) && front <= c
    ensures DistinctHops(front)
  {
  }

  lemma CandidatesDistinct(t: Tables, src: Node, dest: Node)
    ensures DistinctHops(Candidates(t, src, dest))
  {
    EntryOrder();
    var ns := Sorted(Neighbors(t.graph, src));
    var listed, sorted := CandidateList(t, ns, dest), Candidates(t, src, dest);
    assert Distinct(ns);
    forall i, j | 0 <= i < j < |listed| ensures listed[i] != listed[j] {}
    PermutationApart(sorted, listed);
    CandidatesAre(t, src, dest);
    forall i, j | 0 <= i < j < |sorted|
      ensures sorted[i].node != sorted[j].node
    {
      assert sorted[i] in sorted && sorted[j] in sorted;
    }
  }

  lemma {:induction false} CountOnce<T>(b: seq<T>, x: T)
    requires forall i, j | 0 <= i < j < |b| :: b[i] != b[j]
    ensures multiset(b)[x] <= 1
  {
    if b != [] {
      var n := |b| - 1;
      CountOnce(b[..n], x);
      assert b == b[..n] + [b[n]];
      assert b[n] !in b[..n];
    }
  }

  lemma PermutationApart<T>(a: seq<T>, b: seq<T>)
    requires multiset(a) == multiset(b) && forall i, j | 0 <= i < j < |b| :: b[i] != b[j]
    ensures forall i, j | 0 <= i < j < |a| :: a[i] != a[j]
  {
    forall i, j | 0 <= i < j < |a|
      ensures a[i] != a[j]
    {
      CountOnce(b, a[i]);
      assert a == a[..j] + [a[j]] + a[j + 1..];
      assert a[i] in a[..j];
      assert multiset(a)[a[i]] == multiset(a[..j])[a[i]] + multiset([a[j]])[a[i]] + multiset(a[j + 1..])[a[i]];
    }
  }

  /** The next hops of an unserved demand get new keys. */
  lemma AppendUnserved(t: Tables, scheme: Scheme, chooser: Chooser, d: Demand, hops: seq<Entry>, i: nat, before: seq<Route>,
                       routes: seq<Route>, route: Route)
    requires i < |hops| && DistinctHops(hops) && Unserved(before, d) && NoRepeats(routes)
    requires Extends(t, scheme, chooser, d, hops[..i], before, routes) && Addressed(t, scheme, routes)
    requires route.source == d.src && route.prefix == d.prefix && route.nextHop == hops[i].node
    requires RouteIp(t, scheme, d.src, hops[i].node) == Some(route.ip)
    ensures NoRepeats(routes + [route])
  {
    hide RouteIp;
    forall r | r in routes && r.source == d.src && r.prefix == d.prefix
      ensures r.ip != route.ip
    {
      var e :| e in hops[..i] && e.node == r.nextHop;
      var j :| 0 <= j < i && hops[j] == e;
      OtherIp(t, scheme, d.src, r.nextHop, route.nextHop);
    }
  }

  lemma OtherIp(t: Tables, scheme: Scheme, src: Node, a: Node, b: Node)
    requires a != b && RouteIp(t, scheme, src, a).Some?
    ensures RouteIp(t, scheme, src, a) != RouteIp(t, scheme, src, b)
  {
    if RouteIp(t, scheme, src, a) == RouteIp(t, scheme, src, b) { SameHop(t, scheme, src, a, b); }
  }

  lemma ExtendsNone(t: Tables, scheme: Scheme, chooser: Chooser, d: Demand, routes: seq<Route>)
    ensures Extends(t, scheme, chooser, d, [], routes, routes)
  {
  }

  lemma AlreadyThere(t: Tables, scheme: Scheme, routes: seq<Route>, seen: Keys, route: Route)
    requires Addressed(t, scheme, routes) && SeenIs(seen, routes) && KeyOf(route) in seen
    requires RouteIp(t, scheme, route.source, route.nextHop) == Some(route.ip)
    ensures route in routes
  {
    var r :| r in routes && KeyOf(r) == KeyOf(route);
    SameHop(t, scheme, route.source, r.nextHop, route.nextHop);
  }

  lemma AppendRoute(t: Tables, scheme: Scheme, dedupe: bool, routes: seq<Route>, seen: Keys, route: Route)
    requires Addressed(t, scheme, routes) && RouteIp(t, scheme, route.source, route.nextHop) == Some(route.ip)
    requires dedupe ==> SeenIs(seen, routes) && NoRepeats(routes) && KeyOf(route) !in seen
    ensures Addressed(t, scheme, routes + [route])
    ensures dedupe ==> SeenIs(seen + {KeyOf(route)}, routes + [route]) && NoRepeats(routes + [route])
  {
    var rs := routes + [route];
    assert route in rs;
    if dedupe {
      forall k | k in seen + {KeyOf(route)} ensures exists r :: r in rs && KeyOf(r) == k {
        if k in seen {
          var r :| r in routes && KeyOf(r) == k;
          assert r in rs;
        }
      }
      forall i | 0 <= i < |routes| ensures KeyOf(routes[i]) != KeyOf(route) {
        assert routes[i] in routes;
      }
    }
  }

  lemma ExtendsOne(t: Tables, scheme: Scheme, chooser: Chooser, d: Demand, hops: seq<Entry>, i: nat,
                   routes0: seq<Route>, routes: seq<Route>, after: seq<Route>, route: Route)
    requires i < |hops| && Extends(t, scheme, chooser, d, hops[..i], routes0, routes)
    requires route.source == d.src && route.prefix == d.prefix && route.nextHop == hops[i].node
    requires RouteIp(t, scheme, d.src, hops[i].node) == Some(route.ip)
    requires (after == routes && route in routes) || after == routes + [route]
    ensures Extends(t, scheme, chooser, d, hops[..i + 1], routes0, after)
  {
    assert hops[..i + 1] == hops[..i] + [hops[i]];
    assert hops[i] in hops[..i + 1];
    forall r | r in after && r !in routes0
      ensures r.source == d.src && r.prefix == d.prefix && RouteIp(t, scheme, r.source, r.nextHop) == Some(r.ip)
      ensures exists e :: e in hops[..i + 1] && e.node == r.nextHop
    {
      if r in routes {
        var e :| e in hops[..i] && e.node == r.nextHop;
        assert e in hops[..i + 1];
      }
    }
  }

  /** Runs the demands of a strategy in order. */
  method Compute(t: Tables, scheme: Scheme, chooser: Chooser, dedupe: bool, ds: seq<Demand>) returns (r: Option<seq<Route>>)
    ensures r.Some? ==> RoutesAre(t, scheme, chooser, ds, r.value) && (dedupe || DemandsApart(ds) ==> NoRepeats(r.value))
    ensures r.None? <==> exists d :: d in ds && Unanswerable(t, scheme, chooser, d)
  {
    hide SeenIs, NoRepeats, Addressed, Extends, RoutesAre, Unserved, DemandsApart, Answers;
    var routes: seq<Route>, seen: Keys := [], {};
    NoRoutes(t, scheme, chooser);
    for i := 0 to |ds|
      invariant Addressed(t, scheme, routes) && (dedupe ==> SeenIs(seen, routes) && NoRepeats(routes))
      invariant RoutesAre(t, scheme, chooser, ds[..i], routes)
      invariant DemandsApart(ds) ==> NoRepeats(routes)
      invariant forall d | d in ds[..i] :: !Unanswerable(t, scheme, chooser, d)
    {
      assert ds[..i + 1] == ds[..i] + [ds[i]];
      ghost var before := routes;
      if DemandsApart(ds) { NextUnserved(t, scheme, chooser, ds, i, routes); }
      var ok;
      ok, routes, seen := AddRoutes(t, scheme, chooser, dedupe, ds[i], routes, seen);
      if !ok {
        assert ds[i] in ds;
        return None;
      }
      RoutesMore(t, scheme, chooser, ds, i, before, routes);
    }
    assert ds[..|ds|] == ds;
    r := Some(routes);
  }

  lemma NextUnserved(t: Tables, scheme: Scheme, chooser: Chooser, ds: seq<Demand>, i: nat, routes: seq<Route>)
    requires i < |ds| && DemandsApart(ds) && RoutesAre(t, scheme, chooser, ds[..i], routes)
    ensures Unserved(routes, ds[i])
  {
    hide IsHop, RouteIp;
    forall r | r in routes
      ensures r.source != ds[i].src || r.prefix != ds[i].prefix
    {
      var d :| d in ds[..i] && Answers(t, scheme, chooser, d, r);
      var j :| 0 <= j < i && ds[j] == d;
    }
  }

  lemma NoRoutes(t: Tables, scheme: Scheme, chooser: Chooser)
    ensures Addressed(t, scheme, []) && SeenIs({}, []) && NoRepeats([]) && RoutesAre(t, scheme, chooser, [], [])
  {
  }

  lemma RoutesMore(t: Tables, scheme: Scheme, chooser: Chooser, ds: seq<Demand>, i: nat, before: seq<Route>, after: seq<Route>)
    requires i < |ds| && RoutesAre(t, scheme, chooser, ds[..i], before)
    requires Extends(t, scheme, chooser, ds[i], ChosenEntries(t, chooser, ds[i].src, ds[i].dest), before, after)
    ensures RoutesAre(t, scheme, chooser, ds[..i + 1], after)
  {
    hide ChosenEntries, RouteIp;
    var d0 := ds[i];
    assert ds[..i + 1] == ds[..i] + [d0];
    assert d0 in ds[..i + 1];
    forall r | r in after ensures exists d :: d in ds[..i + 1] && Answers(t, scheme, chooser, d, r) {
      if r in before {
        var d :| d in ds[..i] && Answers(t, scheme, chooser, d, r);
        assert d in ds[..i + 1];
      } else {
        assert Answers(t, scheme, chooser, d0, r);
      }
    }
    forall d, r | d in ds[..i + 1] && Answers(t, scheme, chooser, d, r) ensures r in after {
      if d in ds[..i] {
        assert r in before;
      } else {
        assert r == Route(d0.src, d0.prefix, r.nextHop, r.ip);
      }
    }
  }
}
