/** Farthest-first selection of cache sites: select_k_centers. */
module KCenters {
  import opened Ordering
  import opened Paths
  import opened Dijkstra
  import opened Wrappers

  /** Some walk from `a` to `b` costs at most `r`. */
  ghost predicate Within(g: Graph, w: Weight, a: Node, b: Node, r: int) {
    exists p :: Walk(g, a, b, p) && Cost(w, p) <= r
  }

  ghost predicate Reaches(g: Graph, w: Weight, centers: seq<Node>, v: Node, r: int) {
    exists c :: c in centers && Within(g, w, c, v, r)
  }

  /** Every node of `nodes` is within `r` of some center. */
  ghost predicate CoversAll(g: Graph, w: Weight, centers: seq<Node>, nodes: seq<Node>, r: int) {
    forall v | v in nodes :: Reaches(g, w, centers, v, r)
  }

  /** Distinct centers are pairwise farther apart than `r`. */
  ghost predicate Separated(g: Graph, w: Weight, centers: seq<Node>, r: int) {
    forall i, j | 0 <= i < j < |centers| :: !Within(g, w, centers[i], centers[j], r)
  }

  /** Whatever radius misses a node also separates the centers chosen so far. */
  ghost predicate Spread(g: Graph, w: Weight, centers: seq<Node>, nodes: seq<Node>) {
    forall v, r | v in nodes && !Reaches(g, w, centers, v, r) :: Separated(g, w, centers, r)
  }

  /** `m` holds each node's distance to its nearest center; absent means unreachable. */
  ghost predicate Nearest(g: Graph, w: Weight, centers: seq<Node>, nodes: seq<Node>, m: Distances) {
    forall v, r | v in nodes :: Close(m, v, r) <==> Reaches(g, w, centers, v, r)
  }

  predicate Close(m: Distances, v: Node, r: int) {
    v in m && m[v] <= r
  }

  /** Every radius that reaches `f` from `before` reaches `v`, and of two nodes reached
      alike `f` has the lower number. */
  ghost predicate NoFarther(g: Graph, w: Weight, before: seq<Node>, v: Node, f: Node) {
    && (forall r: int | Reaches(g, w, before, f, r) :: Reaches(g, w, before, v, r))
    && ((forall r: int :: Reaches(g, w, before, f, r) <==> Reaches(g, w, before, v, r)) ==> f <= v)
  }

  ghost predicate IsFarthest(g: Graph, w: Weight, before: seq<Node>, nodes: seq<Node>, f: Node) {
    forall v | v in nodes :: NoFarther(g, w, before, v, f)
  }

  /** The lowest node first, then always the farthest from the centers so far. */
  ghost predicate FarthestFirst(g: Graph, w: Weight, centers: seq<Node>, nodes: seq<Node>) {
    && (centers != [] ==> forall v | v in nodes :: centers[0] <= v)
    && (forall i | 0 < i < |centers| :: IsFarthest(g, w, centers[..i], nodes, centers[i]))
  }

  // ---------- distances and radii ----------

  lemma DistanceRadius(g: Graph, w: Weight, c: Node, dist: Distances, v: Node, r: int)
    requires AreDistances(g, w, c, dist)
    ensures Close(dist, v, r) <==> Within(g, w, c, v, r)
  {
    hide Walk;
    if v in dist && dist[v] <= r {
      assert IsDistance(g, w, c, v, dist[v]);
    }
    if Within(g, w, c, v, r) {
      assert Reachable(g, c, v);
      assert IsDistance(g, w, c, v, dist[v]);
    }
  }

  lemma WithinSymmetric(g: Graph, w: Weight, a: Node, b: Node, r: int)
    requires Symmetric(g) && SymmetricWeight(w) && Within(g, w, a, b, r)
    ensures Within(g, w, b, a, r)
  {
    var p :| Walk(g, a, b, p) && Cost(w, p) <= r;
    ReverseWalk(g, w, a, b, p);
  }

  lemma WithinTriangle(g: Graph, w: Weight, a: Node, b: Node, c: Node, r: int, q: int)
    requires Within(g, w, a, b, r) && Within(g, w, b, c, q)
    ensures Within(g, w, a, c, r + q)
  {
    var x :| Walk(g, a, b, x) && Cost(w, x) <= r;
    var y :| Walk(g, b, c, y) && Cost(w, y) <= q;
    Join(g, w, a, b, c, x, y);
  }

  lemma WithinSelf(g: Graph, w: Weight, a: Node)
    ensures Within(g, w, a, a, 0)
  {
    assert Walk(g, a, a, [a]) && Cost(w, [a]) == 0;
  }

  lemma WithinZero(g: Graph, w: Weight, a: Node, b: Node)
    requires PositiveWeight(w) && Within(g, w, a, b, 0)
    ensures a == b
  {
    var p :| Walk(g, a, b, p) && Cost(w, p) <= 0;
    PositiveCost(w, p);
  }

  lemma PositiveCost(w: Weight, p: Path)
    requires PositiveWeight(w)
    ensures |p| > 1 ==> Cost(w, p) > 0
  {
    if |p| > 1 { assert w(p[|p| - 2], p[|p| - 1]) > 0; }
  }

  // ---------- the approximation argument ----------

  lemma {:induction false} Pigeonhole(xs: seq<Node>, s: set<Node>) returns (i: nat, j: nat)
    requires |xs| > |s| && forall x | x in xs :: x in s
    ensures i < j < |xs| && xs[i] == xs[j]
    decreases |s|
  {
    var last := xs[|xs| - 1];
    if k :| 0 <= k < |xs| - 1 && xs[k] == last {
      i, j := k, |xs| - 1;
    } else {
      var front := xs[..|xs| - 1];
      i, j := Pigeonhole(front, s - {last});
    }
  }

  /** More nodes than sites: two of them share a site, so they lie within 2r. */
  lemma Crowded(g: Graph, w: Weight, far: seq<Node>, sites: seq<Node>, r: int) returns (i: nat, j: nat)
    requires Symmetric(g) && SymmetricWeight(w)
    requires |far| > |Elements(sites)| && CoversAll(g, w, sites, far, r)
    ensures i < j < |far| && Within(g, w, far[i], far[j], 2 * r)
  {
    hide Within;
    var site: seq<Node> := [];
    while |site| < |far|
      invariant |site| <= |far|
      invariant forall i | 0 <= i < |site| :: site[i] in sites && Within(g, w, site[i], far[i], r)
    {
      assert Reaches(g, w, sites, far[|site|], r);
      var c :| c in sites && Within(g, w, c, far[|site|], r);
      site := site + [c];
    }
    i, j := Pigeonhole(site, Elements(sites));
    WithinSymmetric(g, w, site[i], far[i], r);
    WithinTriangle(g, w, far[i], site[i], far[j], r, r);
  }

  /** Full house: k spread centers cover within 2r whatever any k vertices cover within r. */
  lemma TwiceOptimal(g: Graph, w: Weight, centers: seq<Node>, nodes: seq<Node>, sites: seq<Node>, r: int)
    requires Symmetric(g) && SymmetricWeight(w)
    requires Spread(g, w, centers, nodes)
    requires forall c | c in centers :: c in nodes
    requires |Elements(sites)| <= |centers| && CoversAll(g, w, sites, nodes, r)
    ensures CoversAll(g, w, centers, nodes, 2 * r)
  {
    hide Within, Symmetric, SymmetricWeight;
    forall v | v in nodes ensures Reaches(g, w, centers, v, 2 * r) {
      var far := centers + [v];
      var i, j := Crowded(g, w, far, sites, r);
      assert far[i] in centers;
      assert j < |centers| ==> !Separated(g, w, centers, 2 * r);
    }
  }

  // ---------- select_k_centers ----------

  predicate Farther(m: Distances, a: Node, b: Node) {
    // key(a) <= key(b) for the key (min_dist.get(node, inf), -node)
    if a in m && b in m then m[a] < m[b] || (m[a] == m[b] && b <= a)
    else if a in m then true
    else if b in m then false
    else b <= a
  }

  /** max(nodes, key=...) */
  method Farthest(nodes: seq<Node>, m: Distances) returns (f: Node)
    requires nodes != []
    ensures f in nodes && forall v | v in nodes :: Farther(m, v, f)
  {
    f := nodes[0];
    for i := 1 to |nodes|
      invariant f in nodes && forall v | v in nodes[..i] :: Farther(m, v, f)
    {
      assert nodes[..i + 1] == nodes[..i] + [nodes[i]];
      if !Farther(m, nodes[i], f) {
        f := nodes[i];
      }
    }
    assert nodes[..|nodes|] == nodes;
  }

  /** `m` takes the smaller of the two distances of `v`. */
  ghost predicate MergedAt(m0: Distances, d: Distances, m: Distances, v: Node) {
    && (v in m <==> v in m0 || v in d)
    && (v in m0 ==> m[v] <= m0[v]) && (v in d ==> m[v] <= d[v])
    && (v in m ==> (v in m0 && m[v] == m0[v]) || (v in d && m[v] == d[v]))
  }

  method Merge(nodes: seq<Node>, m0: Distances, d: Distances) returns (m: Distances)
    ensures forall v | v in nodes :: MergedAt(m0, d, m, v)
  {
    m := m0;
    for i := 0 to |nodes|
      invariant forall v | v in nodes[..i] :: MergedAt(m0, d, m, v)
      invariant forall v | v !in nodes[..i] :: (v in m <==> v in m0) && (v in m ==> m[v] == m0[v])
    {
      var v := nodes[i];
      assert nodes[..i + 1] == nodes[..i] + [v];
      if v in d && (v !in m || d[v] < m[v]) {
        m := m[v := d[v]];
      }
    }
    assert nodes[..|nodes|] == nodes;
  }

  function WeightOf(weight: Option<Weight>): Weight {
    if weight.Some? then weight.value else UnitWeight()
  }

  /** min(k, n), and 0 for a non-positive k */
  function Wanted(k: int, n: nat): nat {
    if k <= 0 then 0 else if k < n then k else n
  }

  /** Whatever at most `k` vertices cover within r, `centers` cover within 2r. */
  ghost predicate TwoApproximates(g: Graph, w: Weight, centers: seq<Node>, nodes: seq<Node>, k: int) {
    forall sites: seq<Node>, r: nat | |Elements(sites)| <= k && CoversAll(g, w, sites, nodes, r) ::
      CoversAll(g, w, centers, nodes, 2 * r)
  }

  ghost predicate DistinctFrom(centers: seq<Node>, nodes: seq<Node>) {
    && (forall c | c in centers :: c in nodes)
    && (forall i, j | 0 <= i < j < |centers| :: centers[i] != centers[j])
  }

  /** Eligible are the sorted keys outside `exclude`. With zero-weight edges the
      selection may stop short, but only once every eligible node lies at
      distance 0 from a center. */
  method SelectKCenters(g: Graph, k: int, weight: Option<Weight>, exclude: set<Node>) returns (centers: seq<Node>)
    ensures DistinctFrom(centers, Sorted(g.Keys - exclude))
    ensures FarthestFirst(g, WeightOf(weight), centers, Sorted(g.Keys - exclude))
    ensures |centers| <= Wanted(k, |Sorted(g.Keys - exclude)|)
    ensures |centers| < Wanted(k, |Sorted(g.Keys - exclude)|) ==>
              CoversAll(g, WeightOf(weight), centers, Sorted(g.Keys - exclude), 0)
    ensures PositiveWeight(WeightOf(weight)) ==> |centers| == Wanted(k, |Sorted(g.Keys - exclude)|)
    ensures Symmetric(g) && SymmetricWeight(WeightOf(weight)) ==>
              TwoApproximates(g, WeightOf(weight), centers, Sorted(g.Keys - exclude), k)
  {
    hide AreDistances, Spread, Nearest, CoversAll, MergedAt, Farther, DistinctFrom, TwoApproximates, WeightOf,
         PositiveWeight, Symmetric, SymmetricWeight, FarthestFirst, IsFarthest;
    ghost var w := WeightOf(weight);
    WeightDefault(weight);
    var nodes := Sorted(g.Keys - exclude);
    if nodes == [] || k <= 0 {
      NoCenters(g, w, nodes, k);
      return [];
    }
    centers := [nodes[0]];
    var minDist := ComputeDistances(g, centers[0], weight);
    FirstCenter(g, w, nodes, nodes[0], minDist);
    LowestFirst(g, w, nodes);
    while |centers| < k
      invariant 0 < |centers| <= k
      invariant DistinctFrom(centers, nodes)
      invariant Spread(g, w, centers, nodes) && Nearest(g, w, centers, nodes, minDist)
      invariant FarthestFirst(g, w, centers, nodes)
    {
      var farthest := Farthest(nodes, minDist);
      if farthest in centers {
        AllAtZero(g, w, centers, nodes, minDist, farthest);
        break;
      }
      var distMap := ComputeDistances(g, farthest, weight);
      ghost var before := minDist;
      minDist := Merge(nodes, minDist, distMap);
      AddCenter(g, w, centers, nodes, before, farthest, distMap, minDist);
      FarthestIs(g, w, centers, nodes, before, farthest);
      NextFarthest(g, w, centers, nodes, farthest);
      centers := centers + [farthest];
    }
    Conclude(g, w, centers, nodes, k);
  }

  lemma WeightDefault(weight: Option<Weight>)
    ensures WeightOf(weight) == if weight.Some? then weight.value else UnitWeight()
  {
  }

  lemma NoCenters(g: Graph, w: Weight, nodes: seq<Node>, k: int)
    requires nodes == [] || k <= 0
    ensures DistinctFrom([], nodes) && TwoApproximates(g, w, [], nodes, k) && FarthestFirst(g, w, [], nodes)
  {
    forall sites: seq<Node>, r: nat | |Elements(sites)| <= k && CoversAll(g, w, sites, nodes, r)
      ensures CoversAll(g, w, [], nodes, 2 * r)
    {
      assert sites == [] || sites[0] in Elements(sites);
    }
  }

  lemma FirstCenter(g: Graph, w: Weight, nodes: seq<Node>, c: Node, m: Distances)
    requires AreDistances(g, w, c, m)
    ensures c in nodes ==> DistinctFrom([c], nodes)
    ensures Spread(g, w, [c], nodes) && Nearest(g, w, [c], nodes, m)
  {
    forall v, r | v in nodes ensures Close(m, v, r) <==> Reaches(g, w, [c], v, r) {
      DistanceRadius(g, w, c, m, v, r);
      assert c in [c];
    }
  }

  /** The farthest node is missed by every radius that misses some node. */
  lemma LowestFirst(g: Graph, w: Weight, nodes: seq<Node>)
    requires nodes != [] && Increasing(nodes)
    ensures FarthestFirst(g, w, [nodes[0]], nodes)
  {
    forall v | v in nodes
      ensures nodes[0] <= v
    {
      var i :| 0 <= i < |nodes| && nodes[i] == v;
    }
  }

  lemma FarthestIs(g: Graph, w: Weight, centers: seq<Node>, nodes: seq<Node>, m: Distances, f: Node)
    requires Nearest(g, w, centers, nodes, m) && f in nodes && forall v | v in nodes :: Farther(m, v, f)
    ensures IsFarthest(g, w, centers, nodes, f)
  {
    hide Reaches;
    forall v | v in nodes
      ensures NoFarther(g, w, centers, v, f)
    {
      assert Farther(m, v, f);
      forall r: int | Reaches(g, w, centers, f, r)
        ensures Reaches(g, w, centers, v, r)
      {
        assert Close(m, f, r);
        assert Close(m, v, r);
      }
      if forall r: int :: Reaches(g, w, centers, f, r) <==> Reaches(g, w, centers, v, r) {
        assert f in m ==> Close(m, f, m[f]) && Reaches(g, w, centers, f, m[f]) && Close(m, v, m[f]);
        assert v in m ==> Close(m, v, m[v]) && Reaches(g, w, centers, v, m[v]) && Close(m, f, m[v]);
      }
    }
  }

  lemma NextFarthest(g: Graph, w: Weight, centers: seq<Node>, nodes: seq<Node>, f: Node)
    requires FarthestFirst(g, w, centers, nodes) && IsFarthest(g, w, centers, nodes, f) && centers != []
    ensures FarthestFirst(g, w, centers + [f], nodes)
  {
    hide IsFarthest;
    var all := centers + [f];
    forall i | 0 < i < |all|
      ensures IsFarthest(g, w, all[..i], nodes, all[i])
    {
      assert all[..i] == if i < |centers| then centers[..i] else centers;
    }
  }

  lemma AddCenter(g: Graph, w: Weight, centers: seq<Node>, nodes: seq<Node>, m: Distances, f: Node, d: Distances, m': Distances)
    requires Spread(g, w, centers, nodes) && Nearest(g, w, centers, nodes, m)
    requires f in nodes && forall v | v in nodes :: Farther(m, v, f)
    requires AreDistances(g, w, f, d)
    requires forall v | v in nodes :: MergedAt(m, d, m', v)
    ensures DistinctFrom(centers, nodes) && f !in centers ==> DistinctFrom(centers + [f], nodes)
    ensures Spread(g, w, centers + [f], nodes) && Nearest(g, w, centers + [f], nodes, m')
  {
    hide Within, AreDistances;
    var all := centers + [f];
    forall v, r | v in nodes ensures Close(m', v, r) <==> Reaches(g, w, all, v, r) {
      assert MergedAt(m, d, m', v);
      assert Close(m, v, r) <==> Reaches(g, w, centers, v, r);
      DistanceRadius(g, w, f, d, v, r);
      ReachesMore(g, w, centers, f, v, r);
    }
    forall v, r | v in nodes && !Reaches(g, w, all, v, r) ensures Separated(g, w, all, r) {
      ReachesMore(g, w, centers, f, v, r);
      assert Separated(g, w, centers, r);
      assert !Close(m, v, r) && Farther(m, v, f);
      assert !Close(m, f, r);
      assert !Reaches(g, w, centers, f, r);
      forall i, j | 0 <= i < j < |all| ensures !Within(g, w, all[i], all[j], r) {
        assert all[i] in centers;
      }
    }
  }

  lemma ReachesMore(g: Graph, w: Weight, centers: seq<Node>, f: Node, v: Node, r: int)
    ensures Reaches(g, w, centers + [f], v, r) <==> Reaches(g, w, centers, v, r) || Within(g, w, f, v, r)
  {
    hide Within;
    assert f in centers + [f];
  }

  lemma AllAtZero(g: Graph, w: Weight, centers: seq<Node>, nodes: seq<Node>, m: Distances, f: Node)
    requires Nearest(g, w, centers, nodes, m)
    requires f in nodes && f in centers && forall v | v in nodes :: Farther(m, v, f)
    ensures CoversAll(g, w, centers, nodes, 0)
  {
    WithinSelf(g, w, f);
    hide Within;
    assert Reaches(g, w, centers, f, 0);
    forall v | v in nodes ensures Reaches(g, w, centers, v, 0) {
      assert Close(m, f, 0) && Farther(m, v, f);
      assert Close(m, v, 0);
    }
  }

  lemma Conclude(g: Graph, w: Weight, centers: seq<Node>, nodes: seq<Node>, k: int)
    requires Increasing(nodes) && |centers| <= k
    requires DistinctFrom(centers, nodes)
    requires Spread(g, w, centers, nodes)
    requires |centers| == k || CoversAll(g, w, centers, nodes, 0)
    ensures |centers| <= |nodes|
    ensures |centers| < k && |centers| < |nodes| ==> CoversAll(g, w, centers, nodes, 0)
    ensures PositiveWeight(w) ==> |centers| == if k < |nodes| then k else |nodes|
    ensures Symmetric(g) && SymmetricWeight(w) ==> TwoApproximates(g, w, centers, nodes, k)
  {
    hide Within, Spread;
    CountDistinct(centers, nodes);
    if PositiveWeight(w) && CoversAll(g, w, centers, nodes, 0) {
      forall v | v in nodes ensures v in centers {
        assert Reaches(g, w, centers, v, 0);
        var c :| c in centers && Within(g, w, c, v, 0);
        WithinZero(g, w, c, v);
      }
      CountDistinct(nodes, centers);
    }
    if Symmetric(g) && SymmetricWeight(w) {
      forall sites: seq<Node>, r: nat | |Elements(sites)| <= k && CoversAll(g, w, sites, nodes, r)
        ensures CoversAll(g, w, centers, nodes, 2 * r)
      {
        if |centers| == k {
          TwiceOptimal(g, w, centers, nodes, sites, r);
        } else {
          WidenCover(g, w, centers, nodes, 0, 2 * r);
        }
      }
    }
  }

  lemma WidenCover(g: Graph, w: Weight, centers: seq<Node>, nodes: seq<Node>, r: int, q: int)
    requires CoversAll(g, w, centers, nodes, r) && r <= q
    ensures CoversAll(g, w, centers, nodes, q)
  {
    forall v | v in nodes ensures Reaches(g, w, centers, v, q) {
      assert Reaches(g, w, centers, v, r);
      var c :| c in centers && Within(g, w, c, v, r);
      assert Within(g, w, c, v, q);
    }
  }

  lemma CountDistinct(xs: seq<Node>, ys: seq<Node>)
    requires forall i, j | 0 <= i < j < |xs| :: xs[i] != xs[j]
    requires forall x | x in xs :: x in ys
    ensures |xs| <= |ys|
  {
    if |xs| > |ys| {
      var s := Elements(ys);
      SetOfSeq(ys);
      var i, j := Pigeonhole(xs, s);
    }
  }

  lemma {:induction false} SetOfSeq(ys: seq<Node>)
    ensures |Elements(ys)| <= |ys|
  {
    if ys != [] {
      var front := ys[..|ys| - 1];
      SetOfSeq(front);
      assert Elements(ys) == Elements(front) + {ys[|ys| - 1]};
    } else {
      assert Elements(ys) == {};
    }
  }
}
