/** The routing strategies, and what forwarding along their routes achieves. */
module Routing {
  import opened Ordering
  import opened Paths
  import opened Dijkstra
  import opened Wrappers
  import opened Topology
  import opened Addressing
  import opened Fib

  /** One item of uri_publishers or prefix_routes. */
  datatype Announcement = Announcement(uri: string, host: Node)

  datatype Strategy = KBest | ShortestPathOnly | Ecmp

  // ---------- the demands of each strategy, in processing order ----------

  /** for src in range(n): skip dest */
  function ToDest(n: nat, dest: Node, prefix: Prefix): (ds: seq<Demand>)
    ensures forall d :: d in ds <==> d.prefix == prefix && d.dest == dest && d.src != dest && Host(n, d.src)
  {
    if n == 0 then [] else
      var src := (n - 1) as Node;
      ToDest(n - 1, dest, prefix) + if src == dest then [] else [Demand(src, dest, prefix)]
  }

  /** for dest in range(n): skip src */
  function FromSource(n: nat, src: Node, prefix: Prefix): (ds: seq<Demand>)
    ensures forall d :: d in ds <==> d.prefix == prefix && d.src == src && d.dest != src && Host(n, d.dest)
  {
    if n == 0 then [] else
      var dest := (n - 1) as Node;
      FromSource(n - 1, src, prefix) + if src == dest then [] else [Demand(src, dest, prefix)]
  }

  predicate Inward(n: nat, a: Announcement, d: Demand) {
    d.prefix == Named(a.uri) && d.dest == a.host && d.src != a.host && Host(n, d.src)
  }

  predicate Outward(n: nat, a: Announcement, d: Demand) {
    d.prefix == Named(a.uri) && d.src == a.host && d.dest != a.host && Host(n, d.dest)
  }

  /** The demands of each item in turn. */
  function EachItem(f: Announcement -> seq<Demand>, items: seq<Announcement>): seq<Demand> {
    if items == [] then [] else EachItem(f, items[..|items| - 1]) + f(items[|items| - 1])
  }

  lemma {:induction false} EachItemMeaning(f: Announcement -> seq<Demand>, items: seq<Announcement>, d: Demand)
    ensures d in EachItem(f, items) <==> exists a :: a in items && d in f(a)
  {
    if items != [] {
      var front, last := items[..|items| - 1], items[|items| - 1];
      assert items == front + [last];
      EachItemMeaning(f, front, d);
      if a :| a in front && d in f(a) { assert a in items; }
    }
  }

  /** Every other host towards each announcing host. */
  function Pass1(n: nat, items: seq<Announcement>): seq<Demand> {
    EachItem((a: Announcement) => ToDest(n, a.host, Named(a.uri)), items)
  }

  /** Each publisher towards every other host. */
  function Pass2(n: nat, items: seq<Announcement>): seq<Demand> {
    EachItem((a: Announcement) => FromSource(n, a.host, Named(a.uri)), items)
  }

  /** compute_fib_for_uris: both passes publisher by publisher. */
  function BothPasses(n: nat, items: seq<Announcement>): seq<Demand> {
    EachItem((a: Announcement) => ToDest(n, a.host, Named(a.uri)) + FromSource(n, a.host, Named(a.uri)), items)
  }

  predicate DefaultDemand(n: nat, d: Demand) {
    d.prefix == Example(d.dest) && d.src != d.dest && Host(n, d.src) && Host(n, d.dest)
  }

  /** compute_fib: for the first `k` sources, every destination. */
  function DefaultBySource(n: nat, k: nat): (ds: seq<Demand>)
    requires k <= n
    ensures forall d :: d in ds <==> DefaultDemand(n, d) && d.src as int < k
  {
    if k == 0 then [] else DefaultBySource(n, k - 1) + DefaultRow(n, (k - 1) as Node, n)
  }

  function DefaultRow(n: nat, src: Node, k: nat): (ds: seq<Demand>)
    requires k <= n && Host(n, src)
    ensures forall d :: d in ds <==> DefaultDemand(n, d) && d.src == src && d.dest as int < k
  {
    if k == 0 then [] else
      var dest := (k - 1) as Node;
      DefaultRow(n, src, k - 1) + if src == dest then [] else [Demand(src, dest, Example(dest))]
  }

  /** Equal-cost multipath: for the first `k` destinations, every source. */
  function DefaultByDest(n: nat, k: nat): (ds: seq<Demand>)
    requires k <= n
    ensures forall d :: d in ds <==> DefaultDemand(n, d) && d.dest as int < k
  {
    if k == 0 then [] else
      var dest := (k - 1) as Node;
      DefaultByDest(n, k - 1) + ToDest(n, dest, Example(dest))
  }

  function DemandsOf(strategy: Strategy, n: nat, uris: seq<Announcement>, extra: seq<Announcement>): seq<Demand> {
    if uris == [] && extra == [] then
      (if strategy == Ecmp then DefaultByDest(n, n) else DefaultBySource(n, n))
    else if strategy == Ecmp then Pass1(n, uris) + Pass2(n, uris) + Pass1(n, extra)
    else BothPasses(n, uris) + Pass1(n, extra)
  }

  /** What is demanded does not depend on the strategy: publishers in both
      directions, static prefix routes inward only. */
  ghost predicate Demanded(n: nat, uris: seq<Announcement>, extra: seq<Announcement>, d: Demand) {
    if uris == [] && extra == [] then DefaultDemand(n, d)
    else (exists a :: a in uris && (Inward(n, a, d) || Outward(n, a, d))) || (exists a :: a in extra && Inward(n, a, d))
  }

  lemma DemandsMeaning(strategy: Strategy, n: nat, uris: seq<Announcement>, extra: seq<Announcement>)
    ensures forall d :: d in DemandsOf(strategy, n, uris, extra) <==> Demanded(n, uris, extra, d)
  {
    forall d ensures d in DemandsOf(strategy, n, uris, extra) <==> Demanded(n, uris, extra, d) {
      DemandMeaning(strategy, n, uris, extra, d);
    }
  }

  lemma Pass1Meaning(n: nat, items: seq<Announcement>, d: Demand)
    ensures d in Pass1(n, items) <==> exists a :: a in items && Inward(n, a, d)
  {
    var f := (a: Announcement) => ToDest(n, a.host, Named(a.uri));
    assert forall a :: d in f(a) <==> Inward(n, a, d);
    EachItemMeaning(f, items, d);
  }

  lemma Pass2Meaning(n: nat, items: seq<Announcement>, d: Demand)
    ensures d in Pass2(n, items) <==> exists a :: a in items && Outward(n, a, d)
  {
    var f := (a: Announcement) => FromSource(n, a.host, Named(a.uri));
    assert forall a :: d in f(a) <==> Outward(n, a, d);
    EachItemMeaning(f, items, d);
  }

  lemma BothPassesMeaning(n: nat, items: seq<Announcement>, d: Demand)
    ensures d in BothPasses(n, items) <==> exists a :: a in items && (Inward(n, a, d) || Outward(n, a, d))
  {
    var f := (a: Announcement) => ToDest(n, a.host, Named(a.uri)) + FromSource(n, a.host, Named(a.uri));
    assert forall a :: d in f(a) <==> Inward(n, a, d) || Outward(n, a, d);
    EachItemMeaning(f, items, d);
  }

  lemma DemandMeaning(strategy: Strategy, n: nat, uris: seq<Announcement>, extra: seq<Announcement>, d: Demand)
    ensures d in DemandsOf(strategy, n, uris, extra) <==> Demanded(n, uris, extra, d)
  {
    hide Inward, Outward, Pass1, Pass2, BothPasses;
    Pass1Meaning(n, extra, d);
    if strategy == Ecmp {
      Pass1Meaning(n, uris, d);
      Pass2Meaning(n, uris, d);
    } else {
      BothPassesMeaning(n, uris, d);
    }
  }

  /** compute_fib keeps no `seen` set, but asks for every pair once. */
  lemma {:induction false} RowApart(n: nat, src: Node, k: nat)
    requires k <= n && Host(n, src)
    ensures DemandsApart(DefaultRow(n, src, k))
  {
    if k > 0 { RowApart(n, src, k - 1); }
  }

  lemma {:induction false} DefaultApart(n: nat, k: nat)
    requires k <= n
    ensures DemandsApart(DefaultBySource(n, k))
  {
    hide DefaultRow, DemandsApart, DefaultDemand;
    if k == 0 {
      NoDemands();
    } else {
      DefaultApart(n, k - 1);
      RowApart(n, (k - 1) as Node, n);
      OtherSources(n, k);
      AppendApart(DefaultBySource(n, k - 1), DefaultRow(n, (k - 1) as Node, n));
    }
  }

  lemma NoDemands()
    ensures DemandsApart([])
  {
  }

  lemma OtherSources(n: nat, k: nat)
    requires 0 < k <= n
    ensures forall d, e | d in DefaultBySource(n, k - 1) && e in DefaultRow(n, (k - 1) as Node, n) :: d.src != e.src
  {
    hide DefaultBySource, DefaultRow, DefaultDemand;
  }

  lemma AppendApart(a: seq<Demand>, b: seq<Demand>)
    requires DemandsApart(a) && DemandsApart(b) && forall d, e | d in a && e in b :: d.src != e.src
    ensures DemandsApart(a + b)
  {
  }

  lemma DefaultDemands(strategy: Strategy, n: nat)
    ensures strategy != Ecmp ==> DemandsOf(strategy, n, [], []) == DefaultBySource(n, n)
  {
  }

  function ChooserOf(strategy: Strategy, k: int): Chooser {
    match strategy
    case KBest => Best(k)
    case ShortestPathOnly => Best(1)
    case Ecmp => EqualCost
  }

  /** The routes of a strategy over given tables: complete, and nothing else. */
  ghost predicate StrategyRoutes(t: Tables, scheme: Scheme, chooser: Chooser, uris: seq<Announcement>,
                                 extra: seq<Announcement>, routes: seq<Route>) {
    && (forall r | r in routes :: exists d :: Demanded(t.n, uris, extra, d) && Answers(t, scheme, chooser, d, r))
    && (forall d, hop | Demanded(t.n, uris, extra, d) && IsHop(t, chooser, d.src, d.dest, hop) ::
          exists r :: r in routes && Answers(t, scheme, chooser, d, r) && r.nextHop == hop)
  }

  // ---------- what each strategy installs, said of neighbours and distances ----------

  /** Host `a` holds a route for `prefix` to `b`. */
  ghost predicate Installed(routes: seq<Route>, prefix: Prefix, a: Node, b: Node) {
    exists r :: r in routes && r.source == a && r.prefix == prefix && r.nextHop == b
  }

  lemma InstalledMeans(t: Tables, scheme: Scheme, chooser: Chooser, uris: seq<Announcement>, extra: seq<Announcement>,
                       routes: seq<Route>, prefix: Prefix, a: Node, b: Node)
    requires StrategyRoutes(t, scheme, chooser, uris, extra, routes)
    ensures Installed(routes, prefix, a, b)
       <==> exists dest :: Demanded(t.n, uris, extra, Demand(a, dest, prefix)) && IsHop(t, chooser, a, dest, b)
  {
    hide Demanded, IsHop, RouteIp;
    if Installed(routes, prefix, a, b) {
      var r :| r in routes && r.source == a && r.prefix == prefix && r.nextHop == b;
      var d :| Demanded(t.n, uris, extra, d) && Answers(t, scheme, chooser, d, r);
      assert d == Demand(a, d.dest, prefix);
    }
    if dest :| Demanded(t.n, uris, extra, Demand(a, dest, prefix)) && IsHop(t, chooser, a, dest, b) {
      var d := Demand(a, dest, prefix);
      var r :| r in routes && Answers(t, scheme, chooser, d, r) && r.nextHop == b;
    }
  }

  /** Ecmp: every neighbour one step closer. */
  ghost predicate EcmpHop(t: Tables, uris: seq<Announcement>, extra: seq<Announcement>, src: Node, prefix: Prefix, hop: Node) {
    exists dest :: Demanded(t.n, uris, extra, Demand(src, dest, prefix)) && Closer(t, src, dest, hop)
  }

  /** ShortestPathOnly: the lowest-numbered neighbour one step closer. */
  ghost predicate LowestCloser(t: Tables, src: Node, dest: Node, hop: Node) {
    Closer(t, src, dest, hop) && forall n | Closer(t, src, dest, n) :: hop <= n
  }

  ghost predicate SingleHop(t: Tables, uris: seq<Announcement>, extra: seq<Announcement>, src: Node, prefix: Prefix, hop: Node) {
    exists dest :: Demanded(t.n, uris, extra, Demand(src, dest, prefix)) && LowestCloser(t, src, dest, hop)
  }

  /** The neighbours that reach the destination. */
  ghost function Reaching(t: Tables, src: Node, dest: Node): set<Node> {
    set n | n in Neighbors(t.graph, src) && Known(t, n, dest)
  }

  /** Those of them that rank before `hop`: nearer to the destination, or as near and
      with a lower number. */
  ghost function Ahead(t: Tables, src: Node, dest: Node, hop: Node): set<Node>
    requires Known(t, hop, dest)
  {
    set n | n in Neighbors(t.graph, src) && Known(t, n, dest)
            && (Hops(t, n, dest) < Hops(t, hop, dest) || (Hops(t, n, dest) == Hops(t, hop, dest) && n < hop))
  }

  /** KBest: fewer than k rank before it. A negative k counts from the end. */
  ghost predicate AmongBest(t: Tables, src: Node, dest: Node, k: int, hop: Node) {
    hop in Reaching(t, src, dest) && |Ahead(t, src, dest, hop)| < if k >= 0 then k else |Reaching(t, src, dest)| + k
  }

  ghost predicate BestHop(t: Tables, uris: seq<Announcement>, extra: seq<Announcement>, k: int, src: Node, prefix: Prefix, hop: Node) {
    exists dest :: Demanded(t.n, uris, extra, Demand(src, dest, prefix)) && AmongBest(t, src, dest, k, hop)
  }

  lemma DemandApart(n: nat, uris: seq<Announcement>, extra: seq<Announcement>, d: Demand)
    requires Demanded(n, uris, extra, d)
    ensures d.src != d.dest
  {
  }

  lemma CloserIsHost(links: seq<Link>, t: Tables, src: Node, dest: Node, hop: Node)
    requires TablesOk(links, t) && hop in Neighbors(t.graph, src)
    ensures Host(t.n, src)
  {
    NeighborIsHost(links, t, src, hop);
  }

  lemma EcmpInstalls(links: seq<Link>, t: Tables, scheme: Scheme, uris: seq<Announcement>, extra: seq<Announcement>,
                     routes: seq<Route>, src: Node, prefix: Prefix, hop: Node)
    requires TablesOk(links, t) && StrategyRoutes(t, scheme, EqualCost, uris, extra, routes)
    ensures Installed(routes, prefix, src, hop) <==> EcmpHop(t, uris, extra, src, prefix, hop)
  {
    hide TablesOk, StrategyRoutes, Demanded, IsHop, Installed;
    InstalledMeans(t, scheme, EqualCost, uris, extra, routes, prefix, src, hop);
    forall dest | Demanded(t.n, uris, extra, Demand(src, dest, prefix))
      ensures IsHop(t, EqualCost, src, dest, hop) <==> Closer(t, src, dest, hop)
    {
      EqualCostMeans(links, t, uris, extra, Demand(src, dest, prefix), hop);
    }
  }

  lemma EqualCostMeans(links: seq<Link>, t: Tables, uris: seq<Announcement>, extra: seq<Announcement>, d: Demand, hop: Node)
    requires TablesOk(links, t) && Demanded(t.n, uris, extra, d)
    ensures IsHop(t, EqualCost, d.src, d.dest, hop) <==> Closer(t, d.src, d.dest, hop)
  {
    hide TablesOk, Demanded, IsHop, Neighbors, Known, Hops;
    DemandApart(t.n, uris, extra, d);
    if IsHop(t, EqualCost, d.src, d.dest, hop) { DemandSources(links, t, uris, extra, d, hop, EqualCost); }
    if Closer(t, d.src, d.dest, hop) { CloserIsHost(links, t, d.src, d.dest, hop); }
    if Host(t.n, d.src) { EqualCostIsCloser(links, t, d.src, d.dest, hop); }
  }

  lemma SingleInstalls(links: seq<Link>, t: Tables, scheme: Scheme, uris: seq<Announcement>, extra: seq<Announcement>,
                       routes: seq<Route>, src: Node, prefix: Prefix, hop: Node)
    requires TablesOk(links, t) && StrategyRoutes(t, scheme, Best(1), uris, extra, routes)
    ensures Installed(routes, prefix, src, hop) <==> SingleHop(t, uris, extra, src, prefix, hop)
  {
    hide TablesOk, StrategyRoutes, Demanded, IsHop, Installed, LowestCloser;
    InstalledMeans(t, scheme, Best(1), uris, extra, routes, prefix, src, hop);
    forall dest | Demanded(t.n, uris, extra, Demand(src, dest, prefix))
      ensures IsHop(t, Best(1), src, dest, hop) <==> LowestCloser(t, src, dest, hop)
    {
      BestOneMeans(links, t, uris, extra, Demand(src, dest, prefix), hop);
    }
  }

  lemma BestOneMeans(links: seq<Link>, t: Tables, uris: seq<Announcement>, extra: seq<Announcement>, d: Demand, hop: Node)
    requires TablesOk(links, t) && Demanded(t.n, uris, extra, d)
    ensures IsHop(t, Best(1), d.src, d.dest, hop) <==> LowestCloser(t, d.src, d.dest, hop)
  {
    hide TablesOk, Demanded, IsHop, Neighbors, Known, Hops, Closer;
    DemandApart(t.n, uris, extra, d);
    if IsHop(t, Best(1), d.src, d.dest, hop) { DemandSources(links, t, uris, extra, d, hop, Best(1)); }
    if Closer(t, d.src, d.dest, hop) { CloserIsNeighbor(t, d.src, d.dest, hop); CloserIsHost(links, t, d.src, d.dest, hop); }
    if Host(t.n, d.src) { LowestIsChosen(links, t, d.src, d.dest, hop); }
  }

  lemma CloserIsNeighbor(t: Tables, src: Node, dest: Node, hop: Node)
    requires Closer(t, src, dest, hop)
    ensures hop in Neighbors(t.graph, src)
  {
  }

  /** The head of the candidates is the lowest-numbered closer neighbour. */
  lemma LowestIsChosen(links: seq<Link>, t: Tables, src: Node, dest: Node, hop: Node)
    requires TablesOk(links, t) && Host(t.n, src) && src != dest
    ensures IsHop(t, Best(1), src, dest, hop) <==> LowestCloser(t, src, dest, hop)
  {
    hide TablesOk, Candidates, Neighbors, Known, Hops, ChosenEntries;
    FirstCandidate(links, t, src, dest);
    BestOneEntry(t, src, dest);
    BestOneIsCloser(links, t, src, dest);
    var c := Candidates(t, src, dest);
    forall n | Closer(t, src, dest, n)
      ensures c != [] && c[0].node <= n
    {
      var e := Entry(1 + Hops(t, n, dest), n);
      Offered(t, src, dest, e);
      HeadIsLeast(t, src, dest, e);
    }
    if c != [] { assert IsHop(t, Best(1), src, dest, c[0].node); }
  }

  lemma BestInstalls(links: seq<Link>, t: Tables, scheme: Scheme, uris: seq<Announcement>, extra: seq<Announcement>, k: int,
                     routes: seq<Route>, src: Node, prefix: Prefix, hop: Node)
    requires TablesOk(links, t) && StrategyRoutes(t, scheme, Best(k), uris, extra, routes)
    ensures Installed(routes, prefix, src, hop) <==> BestHop(t, uris, extra, k, src, prefix, hop)
  {
    hide TablesOk, StrategyRoutes, Demanded, IsHop, Installed, AmongBest;
    InstalledMeans(t, scheme, Best(k), uris, extra, routes, prefix, src, hop);
    forall dest
      ensures IsHop(t, Best(k), src, dest, hop) <==> AmongBest(t, src, dest, k, hop)
    {
      BestMeans(t, src, dest, k, hop);
    }
  }

  function NodesOf(c: seq<Entry>): (r: seq<Node>)
    ensures |r| == |c| && forall i | 0 <= i < |c| :: r[i] == c[i].node
  {
    if c == [] then [] else NodesOf(c[..|c| - 1]) + [c[|c| - 1].node]
  }

  /** Candidate number i has exactly the i candidates before it ahead of it. */
  lemma RankIs(t: Tables, src: Node, dest: Node, i: nat)
    requires i < |Candidates(t, src, dest)|
    ensures var c := Candidates(t, src, dest);
            Known(t, c[i].node, dest) && c[i].node in Reaching(t, src, dest) && |Ahead(t, src, dest, c[i].node)| == i
    ensures |Reaching(t, src, dest)| == |Candidates(t, src, dest)|
  {
    hide Candidates, Neighbors, Known, Hops;
    var c := Candidates(t, src, dest);
    CandidatesAre(t, src, dest);
    CandidatesDistinct(t, src, dest);
    var ns := NodesOf(c);
    assert c[i] in c;
    assert Elements(ns) == Reaching(t, src, dest) by { AllReach(t, src, dest, c, ns); }
    DistinctCount(ns);
    var before := ns[..i];
    DistinctCount(before);
    assert Elements(before) == Ahead(t, src, dest, c[i].node) by { BeforeIsAhead(t, src, dest, c, ns, i); }
  }

  lemma AllReach(t: Tables, src: Node, dest: Node, c: seq<Entry>, ns: seq<Node>)
    requires |ns| == |c| && forall i | 0 <= i < |c| :: ns[i] == c[i].node
    requires forall e :: e in c <==> e.node in Neighbors(t.graph, src) && Known(t, e.node, dest) && e.dist == 1 + Hops(t, e.node, dest)
    ensures Elements(ns) == Reaching(t, src, dest)
  {
    hide Neighbors, Known, Hops;
    forall n
      ensures n in Elements(ns) <==> n in Reaching(t, src, dest)
    {
      if n in Elements(ns) {
        var i :| 0 <= i < |ns| && ns[i] == n;
        assert c[i] in c;
      }
      if n in Reaching(t, src, dest) {
        var e := Entry(1 + Hops(t, n, dest), n);
        assert e in c;
        var i :| 0 <= i < |c| && c[i] == e;
        assert ns[i] == n;
      }
    }
  }

  lemma RanksBefore(c: seq<Entry>, i: nat, j: nat)
    requires Ordered(EntryLeq, c) && i < |c| && j < |c|
    ensures c[j].dist < c[i].dist || (c[j].dist == c[i].dist && c[j].node < c[i].node) ==> j < i
  {
    if i < j { assert EntryLeq(c[i], c[j]); }
  }

  lemma BeforeIsAhead(t: Tables, src: Node, dest: Node, c: seq<Entry>, ns: seq<Node>, i: nat)
    requires |ns| == |c| && i < |c| && forall j | 0 <= j < |c| :: ns[j] == c[j].node
    requires forall e :: e in c <==> e.node in Neighbors(t.graph, src) && Known(t, e.node, dest) && e.dist == 1 + Hops(t, e.node, dest)
    requires Ordered(EntryLeq, c) && Distinct(ns) && Known(t, c[i].node, dest)
    ensures Elements(ns[..i]) == Ahead(t, src, dest, c[i].node)
  {
    hide Neighbors, Known, Hops;
    assert c[i] in c;
    forall n
      ensures n in Elements(ns[..i]) <==> n in Ahead(t, src, dest, c[i].node)
    {
      if n in Elements(ns[..i]) {
        var j :| 0 <= j < i && ns[j] == n;
        assert c[j] in c && EntryLeq(c[j], c[i]) && ns[j] != ns[i];
      }
      if n in Ahead(t, src, dest, c[i].node) {
        var e := Entry(1 + Hops(t, n, dest), n);
        assert e in c;
        var j :| 0 <= j < |c| && c[j] == e;
        RanksBefore(c, i, j);
        assert ns[..i][j] == n;
      }
    }
  }

  /** A reachable destination has exactly one lowest closer neighbour. */
  lemma OneLowest(links: seq<Link>, t: Tables, src: Node, dest: Node) returns (hop: Node)
    requires TablesOk(links, t) && Host(t.n, src) && src != dest && Known(t, src, dest)
    ensures LowestCloser(t, src, dest, hop) && forall n | LowestCloser(t, src, dest, n) :: n == hop
  {
    hide TablesOk, IsHop, Closer, Known;
    BestOneIsCloser(links, t, src, dest);
    hop :| IsHop(t, Best(1), src, dest, hop);
    LowestIsChosen(links, t, src, dest, hop);
  }

  /** k at least 0: the hops are min(k, neighbours that reach the destination) many. */
  lemma BestCount(t: Tables, src: Node, dest: Node, k: nat)
    ensures var hops := set n | n in Reaching(t, src, dest) && AmongBest(t, src, dest, k, n);
            |hops| == if k < |Reaching(t, src, dest)| then k else |Reaching(t, src, dest)|
  {
    hide Candidates, Known, Hops, Neighbors, AmongBest, DistinctHops, Reaching;
    var c := Candidates(t, src, dest);
    var s := Slice(c, k);
    CandidatesDistinct(t, src, dest);
    PrefixDistinct(c, s);
    ApartNodes(c);
    ApartNodes(s);
    CandidatesReach(t, src, dest);
    var hops := set n | n in Reaching(t, src, dest) && AmongBest(t, src, dest, k, n);
    forall n
      ensures n in hops <==> n in Elements(NodesOf(s))
    {
      BestAreFirst(t, src, dest, k, n);
    }
    assert hops == Elements(NodesOf(s));
  }

  lemma ApartNodes(c: seq<Entry>)
    requires DistinctHops(c)
    ensures |Elements(NodesOf(c))| == |c|
  {
    DistinctCount(NodesOf(c));
  }

  lemma CandidatesReach(t: Tables, src: Node, dest: Node)
    ensures Elements(NodesOf(Candidates(t, src, dest))) == Reaching(t, src, dest)
  {
    hide Candidates, Known, Hops, Neighbors;
    CandidatesAre(t, src, dest);
    AllReach(t, src, dest, Candidates(t, src, dest), NodesOf(Candidates(t, src, dest)));
  }

  lemma BestAreFirst(t: Tables, src: Node, dest: Node, k: nat, n: Node)
    ensures AmongBest(t, src, dest, k, n) <==> n in Elements(NodesOf(Slice(Candidates(t, src, dest), k)))
    ensures AmongBest(t, src, dest, k, n) ==> n in Reaching(t, src, dest)
  {
    hide Candidates, Known, Hops, Neighbors;
    var s := Slice(Candidates(t, src, dest), k);
    BestMeans(t, src, dest, k, n);
    assert ChosenEntries(t, Best(k), src, dest) == s;
    if IsHop(t, Best(k), src, dest, n) {
      var i :| 0 <= i < |s| && s[i].node == n;
      assert NodesOf(s)[i] == n;
    }
    if n in Elements(NodesOf(s)) {
      var i :| 0 <= i < |s| && NodesOf(s)[i] == n;
      assert s[i] in s;
    }
  }

  lemma BestMeans(t: Tables, src: Node, dest: Node, k: int, hop: Node)
    ensures IsHop(t, Best(k), src, dest, hop) <==> AmongBest(t, src, dest, k, hop)
  {
    hide Candidates, Neighbors, Known, Hops;
    var c, s := Candidates(t, src, dest), Slice(Candidates(t, src, dest), k);
    CandidatesAre(t, src, dest);
    assert ChosenEntries(t, Best(k), src, dest) == s;
    if IsHop(t, Best(k), src, dest, hop) {
      var i :| 0 <= i < |s| && s[i].node == hop;
      RankIs(t, src, dest, i);
    }
    if AmongBest(t, src, dest, k, hop) {
      var e := Entry(1 + Hops(t, hop, dest), hop);
      assert e in c;
      var i :| 0 <= i < |c| && c[i] == e;
      RankIs(t, src, dest, i);
      assert s[i] == e;
    }
  }

  /** The hops of one demand under each strategy. */
  ghost predicate HopOf(strategy: Strategy, k: int, t: Tables, src: Node, dest: Node, hop: Node) {
    match strategy
    case Ecmp => Closer(t, src, dest, hop)
    case ShortestPathOnly => LowestCloser(t, src, dest, hop)
    case KBest => AmongBest(t, src, dest, k, hop)
  }

  /** A demand from an unknown host, or with a hop that has no address. */
  ghost predicate Fails(strategy: Strategy, k: int, t: Tables, scheme: Scheme, d: Demand) {
    d.src !in t.graph || exists hop :: HopOf(strategy, k, t, d.src, d.dest, hop) && RouteIp(t, scheme, d.src, hop).None?
  }

  lemma HopOfMeans(strategy: Strategy, k: int, links: seq<Link>, t: Tables, uris: seq<Announcement>, extra: seq<Announcement>, d: Demand, hop: Node)
    requires TablesOk(links, t) && Demanded(t.n, uris, extra, d)
    ensures IsHop(t, ChooserOf(strategy, k), d.src, d.dest, hop) <==> HopOf(strategy, k, t, d.src, d.dest, hop)
  {
    hide TablesOk, Demanded, IsHop, Closer, LowestCloser, AmongBest;
    match strategy
    case Ecmp => EqualCostMeans(links, t, uris, extra, d, hop);
    case ShortestPathOnly => BestOneMeans(links, t, uris, extra, d, hop);
    case KBest => BestMeans(t, d.src, d.dest, k, hop);
  }

  lemma FailsMeans(strategy: Strategy, k: int, links: seq<Link>, t: Tables, scheme: Scheme, uris: seq<Announcement>, extra: seq<Announcement>, d: Demand)
    requires TablesOk(links, t) && Demanded(t.n, uris, extra, d)
    ensures Unanswerable(t, scheme, ChooserOf(strategy, k), d) <==> Fails(strategy, k, t, scheme, d)
  {
    hide TablesOk, Demanded, HopOf, ChosenEntries, RouteIp, ChooserOf;
    forall hop
      ensures IsHop(t, ChooserOf(strategy, k), d.src, d.dest, hop) <==> HopOf(strategy, k, t, d.src, d.dest, hop)
    {
      HopOfMeans(strategy, k, links, t, uris, extra, d, hop);
    }
    if e :| e in ChosenEntries(t, ChooserOf(strategy, k), d.src, d.dest) && RouteIp(t, scheme, d.src, e.node).None? {
      assert IsHop(t, ChooserOf(strategy, k), d.src, d.dest, e.node);
    }
    if hop :| HopOf(strategy, k, t, d.src, d.dest, hop) && RouteIp(t, scheme, d.src, hop).None? {
      assert IsHop(t, ChooserOf(strategy, k), d.src, d.dest, hop);
    }
  }

  /** compute_routes of the three strategies; None where an exception escapes. */
  method ComputeRoutes(strategy: Strategy, links: seq<Link>, k: int, uris: seq<Announcement>, extra: seq<Announcement>, scheme: Scheme)
    returns (r: Option<seq<Route>>, t: Tables)
    requires WellFormed(links)
    ensures TablesOk(links, t)
    ensures r.Some? ==> StrategyRoutes(t, scheme, ChooserOf(strategy, k), uris, extra, r.value)
    ensures r.Some? ==> NoRepeats(r.value) && forall q | q in r.value :: RouteIp(t, scheme, q.source, q.nextHop) == Some(q.ip)
    ensures r.Some? && strategy == Ecmp ==>
              forall src, prefix, hop :: Installed(r.value, prefix, src, hop) <==> EcmpHop(t, uris, extra, src, prefix, hop)
    ensures r.Some? && strategy == ShortestPathOnly ==>
              forall src, prefix, hop :: Installed(r.value, prefix, src, hop) <==> SingleHop(t, uris, extra, src, prefix, hop)
    ensures r.Some? && strategy == KBest ==>
              forall src, prefix, hop :: Installed(r.value, prefix, src, hop) <==> BestHop(t, uris, extra, k, src, prefix, hop)
    ensures r.None? <==> exists d :: Demanded(t.n, uris, extra, d) && Fails(strategy, k, t, scheme, d)
  {
    hide Fails, DemandsApart, TablesOk, RoutesAre, NoRepeats, Unanswerable, StrategyRoutes, Demanded, DemandsOf, Installed, EcmpHop, SingleHop, BestHop, RouteIp;
    var tables := BuildTables(links);
    t := tables;
    var ds := DemandsOf(strategy, tables.n, uris, extra);
    DemandsMeaning(strategy, tables.n, uris, extra);
    DefaultApart(tables.n, tables.n);
    assert strategy == Ecmp || uris != [] || extra != [] || ds == DefaultBySource(tables.n, tables.n) by { DefaultDemands(strategy, tables.n); }
    r := Compute(tables, scheme, ChooserOf(strategy, k), strategy == Ecmp || uris != [] || extra != [], ds);
    forall d | Demanded(t.n, uris, extra, d)
      ensures Unanswerable(t, scheme, ChooserOf(strategy, k), d) <==> Fails(strategy, k, t, scheme, d)
    {
      FailsMeans(strategy, k, links, t, scheme, uris, extra, d);
    }
    if r.Some? {
      Complete(t, scheme, ChooserOf(strategy, k), uris, extra, ds, r.value);
      AddressesRight(t, scheme, ChooserOf(strategy, k), uris, extra, r.value);
      forall src, prefix, hop
        ensures strategy == Ecmp ==> (Installed(r.value, prefix, src, hop) <==> EcmpHop(t, uris, extra, src, prefix, hop))
        ensures strategy == ShortestPathOnly ==> (Installed(r.value, prefix, src, hop) <==> SingleHop(t, uris, extra, src, prefix, hop))
        ensures strategy == KBest ==> (Installed(r.value, prefix, src, hop) <==> BestHop(t, uris, extra, k, src, prefix, hop))
      {
        match strategy
        case Ecmp => EcmpInstalls(links, t, scheme, uris, extra, r.value, src, prefix, hop);
        case ShortestPathOnly => SingleInstalls(links, t, scheme, uris, extra, r.value, src, prefix, hop);
        case KBest => BestInstalls(links, t, scheme, uris, extra, k, r.value, src, prefix, hop);
      }
    }
  }

  lemma AddressesRight(t: Tables, scheme: Scheme, chooser: Chooser, uris: seq<Announcement>, extra: seq<Announcement>, routes: seq<Route>)
    requires StrategyRoutes(t, scheme, chooser, uris, extra, routes)
    ensures forall q | q in routes :: RouteIp(t, scheme, q.source, q.nextHop) == Some(q.ip)
  {
    hide Demanded, RouteIp, IsHop;
  }

  lemma Complete(t: Tables, scheme: Scheme, chooser: Chooser, uris: seq<Announcement>, extra: seq<Announcement>,
                 ds: seq<Demand>, routes: seq<Route>)
    requires forall d :: d in ds <==> Demanded(t.n, uris, extra, d)
    requires RoutesAre(t, scheme, chooser, ds, routes)
    requires forall d | d in ds :: !Unanswerable(t, scheme, chooser, d)
    ensures StrategyRoutes(t, scheme, chooser, uris, extra, routes)
  {
    hide Demanded, ChosenEntries, RouteIp;
    forall d, hop | Demanded(t.n, uris, extra, d) && IsHop(t, chooser, d.src, d.dest, hop)
      ensures exists r :: r in routes && Answers(t, scheme, chooser, d, r) && r.nextHop == hop
    {
      assert !Unanswerable(t, scheme, chooser, d);
      var r := Route(d.src, d.prefix, hop, RouteIp(t, scheme, d.src, hop).value);
      assert Answers(t, scheme, chooser, d, r);
    }
  }

  // ---------- hop counts ----------

  lemma KnownIffReachable(links: seq<Link>, t: Tables, a: Node, b: Node)
    requires TablesOk(links, t) && Host(t.n, a)
    ensures Known(t, a, b) <==> Reachable(t.graph, a, b)
    ensures Known(t, a, b) ==> IsDistance(t.graph, UnitWeight(), a, b, Hops(t, a, b))
  {
    hide GraphOk, IsDistance, Reachable;
    assert RowOk(t.graph, t.dist, a);
  }

  lemma NeighborIsHost(links: seq<Link>, t: Tables, a: Node, b: Node)
    requires TablesOk(links, t) && b in Neighbors(t.graph, a)
    ensures Host(t.n, a) && Host(t.n, b)
  {
    GraphClosed(links, t.n, t.graph, t.subnets);
    GraphKeys(links, t.n, t.graph, t.subnets, a);
    GraphKeys(links, t.n, t.graph, t.subnets, b);
  }

  /** A neighbour is at most one hop farther, in either direction. */
  lemma OneHop(links: seq<Link>, t: Tables, a: Node, b: Node, dest: Node)
    requires TablesOk(links, t) && b in Neighbors(t.graph, a) && Known(t, b, dest)
    ensures Known(t, a, dest) && Hops(t, a, dest) <= 1 + Hops(t, b, dest)
  {
    NeighborIsHost(links, t, a, b);
    KnownIffReachable(links, t, a, dest);
    KnownIffReachable(links, t, b, dest);
    hide TablesOk, Known, Hops;
    var p :| Walk(t.graph, b, dest, p) && Cost(UnitWeight(), p) == Hops(t, b, dest);
    Prepend(t.graph, a, b, dest, p);
  }

  lemma Prepend(g: Graph, a: Node, b: Node, dest: Node, p: Path)
    requires b in Neighbors(g, a) && Walk(g, b, dest, p)
    ensures Walk(g, a, dest, [a] + p) && Cost(UnitWeight(), [a] + p) == 1 + Cost(UnitWeight(), p)
  {
    assert Walk(g, a, b, [a, b]);
    Join(g, UnitWeight(), a, b, dest, [a, b], p);
    assert [a, b][..1] + p == [a] + p;
    assert [a, b][..1] == [a];
  }

  lemma Behead(g: Graph, a: Node, dest: Node, p: Path)
    requires Walk(g, a, dest, p) && |p| > 1
    ensures p[1] in Neighbors(g, a) && Walk(g, p[1], dest, p[1..])
    ensures Cost(UnitWeight(), p) == 1 + Cost(UnitWeight(), p[1..])
  {
    assert p[0 + 1] in Neighbors(g, p[0]);
    CostFromFront(UnitWeight(), p);
    var q := p[1..];
    forall i | 0 <= i < |q| - 1 ensures q[i + 1] in Neighbors(g, q[i]) {
      assert p[i + 1 + 1] in Neighbors(g, p[i + 1]);
    }
  }

  /** Some neighbour is exactly one hop closer. */
  lemma CloserExists(links: seq<Link>, t: Tables, src: Node, dest: Node) returns (n: Node)
    requires TablesOk(links, t) && Host(t.n, src) && src != dest && Known(t, src, dest)
    ensures n in Neighbors(t.graph, src) && Known(t, n, dest) && Hops(t, n, dest) + 1 == Hops(t, src, dest)
  {
    KnownIffReachable(links, t, src, dest);
    var p :| Walk(t.graph, src, dest, p) && Cost(UnitWeight(), p) == Hops(t, src, dest);
    Behead(t.graph, src, dest, p);
    n := p[1];
    NeighborIsHost(links, t, src, n);
    KnownIffReachable(links, t, n, dest);
    hide TablesOk;
    assert Reachable(t.graph, n, dest);
    OneHop(links, t, src, n, dest);
  }

  ghost predicate Closer(t: Tables, src: Node, dest: Node, hop: Node) {
    hop in Neighbors(t.graph, src) && Known(t, src, dest) && Known(t, hop, dest) && Hops(t, hop, dest) + 1 == Hops(t, src, dest)
  }

  // ---------- what the choosers pick ----------

  /** The entry that offers `hop`, if it is on offer. */
  lemma Offered(t: Tables, src: Node, dest: Node, e: Entry)
    ensures e in Candidates(t, src, dest)
       <==> e.node in Neighbors(t.graph, src) && Known(t, e.node, dest) && e.dist == 1 + Hops(t, e.node, dest)
  {
    hide *;
    CandidatesAre(t, src, dest);
  }

  lemma HeadIsLeast(t: Tables, src: Node, dest: Node, e: Entry)
    requires e in Candidates(t, src, dest)
    ensures Candidates(t, src, dest) != [] && EntryLeq(Candidates(t, src, dest)[0], e)
    ensures Candidates(t, src, dest)[0] in Candidates(t, src, dest)
  {
    hide Candidates, Neighbors, Known, Hops;
    CandidatesAre(t, src, dest);
    var c := Candidates(t, src, dest);
    var i :| 0 <= i < |c| && c[i] == e;
    assert i > 0 ==> EntryLeq(c[0], c[i]);
  }

  /** The cheapest candidate costs exactly the distance from the source. */
  lemma FirstCandidate(links: seq<Link>, t: Tables, src: Node, dest: Node)
    requires TablesOk(links, t) && Host(t.n, src) && src != dest
    ensures Known(t, src, dest) <==> Candidates(t, src, dest) != []
    ensures Known(t, src, dest) ==> Candidates(t, src, dest)[0].dist == Hops(t, src, dest)
  {
    hide TablesOk, Candidates, Neighbors, Known, Hops;
    var c := Candidates(t, src, dest);
    if Known(t, src, dest) {
      var n := CloserExists(links, t, src, dest);
      var e := Entry(1 + Hops(t, n, dest), n);
      Offered(t, src, dest, e);
      HeadIsLeast(t, src, dest, e);
    }
    if c != [] {
      assert c[0] in c;
      Offered(t, src, dest, c[0]);
      OneHop(links, t, src, c[0].node, dest);
    }
  }

  lemma EqualCostEntries(t: Tables, src: Node, dest: Node, e: Entry)
    ensures e in ChosenEntries(t, EqualCost, src, dest)
       <==> e in Candidates(t, src, dest) && e.dist <= Candidates(t, src, dest)[0].dist
  {
    hide Candidates, Cheapest, Neighbors, Known, Hops;
    CandidatesAre(t, src, dest);
    CheapestAre(Candidates(t, src, dest), if Candidates(t, src, dest) == [] then 0 else Candidates(t, src, dest)[0].dist);
  }

  /** Equal-cost multipath installs exactly the neighbours one step closer. */
  lemma EqualCostIsCloser(links: seq<Link>, t: Tables, src: Node, dest: Node, hop: Node)
    requires TablesOk(links, t) && Host(t.n, src) && src != dest
    ensures IsHop(t, EqualCost, src, dest, hop) <==> Closer(t, src, dest, hop)
  {
    hide TablesOk, Candidates, Neighbors, Known, Hops, ChosenEntries;
    FirstCandidate(links, t, src, dest);
    if IsHop(t, EqualCost, src, dest, hop) {
      var e :| e in ChosenEntries(t, EqualCost, src, dest) && e.node == hop;
      EqualCostEntries(t, src, dest, e);
      Offered(t, src, dest, e);
      OneHop(links, t, src, hop, dest);
    }
    if Closer(t, src, dest, hop) {
      var e := Entry(1 + Hops(t, hop, dest), hop);
      Offered(t, src, dest, e);
      EqualCostEntries(t, src, dest, e);
    }
  }

  lemma BestOneEntry(t: Tables, src: Node, dest: Node)
    ensures ChosenEntries(t, Best(1), src, dest)
         == if Candidates(t, src, dest) == [] then [] else [Candidates(t, src, dest)[0]]
  {
    hide Candidates;
  }

  /** The single best next hop is one of the equal-cost ones, and exists when the destination is reachable. */
  lemma BestOneIsCloser(links: seq<Link>, t: Tables, src: Node, dest: Node)
    requires TablesOk(links, t) && Host(t.n, src) && src != dest
    ensures forall hop | IsHop(t, Best(1), src, dest, hop) :: Closer(t, src, dest, hop)
    ensures Known(t, src, dest) ==> exists hop :: IsHop(t, Best(1), src, dest, hop)
  {
    hide TablesOk, Candidates, Neighbors, Known, Hops, ChosenEntries;
    FirstCandidate(links, t, src, dest);
    BestOneEntry(t, src, dest);
    var c := Candidates(t, src, dest);
    if c != [] {
      Offered(t, src, dest, c[0]);
      assert IsHop(t, Best(1), src, dest, c[0].node);
    }
  }

  /** More paths, more next hops. */
  lemma MoreIsMore(t: Tables, src: Node, dest: Node, k: int, m: int, hop: Node)
    requires 0 <= k <= m && IsHop(t, Best(k), src, dest, hop)
    ensures IsHop(t, Best(m), src, dest, hop)
  {
    hide Candidates;
    var e :| e in ChosenEntries(t, Best(k), src, dest) && e.node == hop;
    assert ChosenEntries(t, Best(k), src, dest) <= ChosenEntries(t, Best(m), src, dest);
  }

  /** Routes grow monotonically with k, and shortest_path routes are equal-cost routes. */
  lemma RoutesGrow(t: Tables, scheme: Scheme, small: Chooser, large: Chooser, uris: seq<Announcement>, extra: seq<Announcement>,
                   few: seq<Route>, many: seq<Route>)
    requires StrategyRoutes(t, scheme, small, uris, extra, few) && StrategyRoutes(t, scheme, large, uris, extra, many)
    requires forall d, hop | Demanded(t.n, uris, extra, d) && IsHop(t, small, d.src, d.dest, hop) :: IsHop(t, large, d.src, d.dest, hop)
    ensures forall r | r in few :: r in many
  {
    hide IsHop, RouteIp, Demanded;
    forall r | r in few ensures r in many {
      var d :| Demanded(t.n, uris, extra, d) && Answers(t, scheme, small, d, r);
      var q :| q in many && Answers(t, scheme, large, d, q) && q.nextHop == r.nextHop;
      assert q == r;
    }
  }

  lemma KBestMonotone(t: Tables, scheme: Scheme, k: int, m: int, uris: seq<Announcement>, extra: seq<Announcement>,
                      few: seq<Route>, many: seq<Route>)
    requires 0 <= k <= m
    requires StrategyRoutes(t, scheme, Best(k), uris, extra, few) && StrategyRoutes(t, scheme, Best(m), uris, extra, many)
    ensures forall r | r in few :: r in many
  {
    forall d, hop | Demanded(t.n, uris, extra, d) && IsHop(t, Best(k), d.src, d.dest, hop)
      ensures IsHop(t, Best(m), d.src, d.dest, hop)
    {
      MoreIsMore(t, d.src, d.dest, k, m, hop);
    }
    RoutesGrow(t, scheme, Best(k), Best(m), uris, extra, few, many);
  }

  lemma DemandSources(links: seq<Link>, t: Tables, uris: seq<Announcement>, extra: seq<Announcement>, d: Demand, hop: Node, chooser: Chooser)
    requires TablesOk(links, t) && Demanded(t.n, uris, extra, d) && IsHop(t, chooser, d.src, d.dest, hop)
    ensures Host(t.n, d.src) && d.src != d.dest
  {
    hide TablesOk, Candidates, ChosenEntries, Neighbors, Known, Hops;
    var e :| e in ChosenEntries(t, chooser, d.src, d.dest) && e.node == hop;
    ChosenFromCandidates(t, chooser, d.src, d.dest, e);
    Offered(t, d.src, d.dest, e);
    NeighborIsHost(links, t, d.src, e.node);
  }

  lemma ChosenFromCandidates(t: Tables, chooser: Chooser, src: Node, dest: Node, e: Entry)
    requires e in ChosenEntries(t, chooser, src, dest)
    ensures e in Candidates(t, src, dest)
  {
    hide Candidates, Cheapest, Neighbors, Known, Hops;
    CandidatesAre(t, src, dest);
    CheapestAre(Candidates(t, src, dest), if Candidates(t, src, dest) == [] then 0 else Candidates(t, src, dest)[0].dist);
  }

  lemma ShortestWithinEcmp(links: seq<Link>, t: Tables, scheme: Scheme, uris: seq<Announcement>, extra: seq<Announcement>,
                           few: seq<Route>, many: seq<Route>)
    requires TablesOk(links, t)
    requires StrategyRoutes(t, scheme, Best(1), uris, extra, few) && StrategyRoutes(t, scheme, EqualCost, uris, extra, many)
    ensures forall r | r in few :: r in many
  {
    forall d, hop | Demanded(t.n, uris, extra, d) && IsHop(t, Best(1), d.src, d.dest, hop)
      ensures IsHop(t, EqualCost, d.src, d.dest, hop)
    {
      DemandSources(links, t, uris, extra, d, hop, Best(1));
      BestOneIsCloser(links, t, d.src, d.dest);
      EqualCostIsCloser(links, t, d.src, d.dest, hop);
    }
    RoutesGrow(t, scheme, Best(1), EqualCost, uris, extra, few, many);
  }
}
