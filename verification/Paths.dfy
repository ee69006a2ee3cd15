/** Weighted graphs, walks and distances: the vocabulary in which the results of
    the search algorithms are stated. */
module Paths {

  import opened Ordering

  /** A dict from node to the set of its neighbours. */
  type Graph = map<Node, set<Node>>
  type Weight = (Node, Node) -> nat
  type Path = seq<Node>
  type Distances = map<Node, int>

  /** `graph.get(node, [])` */
  function Neighbors(g: Graph, n: Node): set<Node> {
    if n in g then g[n] else {}
  }

  /** `graph[node]` raises KeyError nowhere. */
  ghost predicate Closed(g: Graph) {
    forall n | n in g :: g[n] <= g.Keys
  }

  ghost predicate Symmetric(g: Graph) {
    forall a, b :: b in Neighbors(g, a) ==> a in Neighbors(g, b)
  }

  ghost predicate SymmetricWeight(w: Weight) {
    forall a, b :: w(a, b) == w(b, a)
  }

  ghost predicate PositiveWeight(w: Weight) {
    forall a, b :: w(a, b) > 0
  }

  /** The default weight function: every edge costs 1. */
  function UnitWeight(): (w: Weight) {
    (a, b) => 1
  }

  ghost predicate IsWalk(g: Graph, p: Path) {
    |p| > 0 && forall i | 0 <= i < |p| - 1 :: p[i + 1] in Neighbors(g, p[i])
  }

  ghost predicate Walk(g: Graph, a: Node, b: Node, p: Path) {
    IsWalk(g, p) && p[0] == a && p[|p| - 1] == b
  }

  ghost predicate Reachable(g: Graph, a: Node, b: Node) {
    exists p :: Walk(g, a, b, p)
  }

  ghost predicate Simple(p: Path) {
    forall i, j | 0 <= i < j < |p| :: p[i] != p[j]
  }

  /** path_cost: the sum of the edge weights along a path. */
  function Cost(w: Weight, p: Path): nat {
    if |p| < 2 then 0 else Cost(w, p[..|p| - 1]) + w(p[|p| - 2], p[|p| - 1])
  }

  /** `d` is the least cost of a walk from `a` to `b`. */
  ghost predicate IsDistance(g: Graph, w: Weight, a: Node, b: Node, d: int) {
    && (exists p :: Walk(g, a, b, p) && Cost(w, p) == d)
    && (forall p | Walk(g, a, b, p) :: d <= Cost(w, p))
  }

  /** `dist` lists exactly the nodes reachable from `s`, each with its distance. */
  ghost predicate AreDistances(g: Graph, w: Weight, s: Node, dist: Distances) {
    && (forall v :: v in dist <==> Reachable(g, s, v))
    && (forall v | v in dist :: IsDistance(g, w, s, v, dist[v]))
  }

  lemma DistanceUnique(g: Graph, w: Weight, a: Node, b: Node, d: int, e: int)
    requires IsDistance(g, w, a, b, d) && IsDistance(g, w, a, b, e)
    ensures d == e
  {
  }

  lemma DistancesUnique(g: Graph, w: Weight, s: Node, dist: Distances, other: Distances)
    requires AreDistances(g, w, s, dist) && AreDistances(g, w, s, other)
    ensures dist == other
  {
    assert dist.Keys == other.Keys;
    forall v | v in dist ensures dist[v] == other[v] {
      DistanceUnique(g, w, s, v, dist[v], other[v]);
    }
  }

  // ---------- concatenation and reversal ----------

  lemma ExtendWalk(g: Graph, w: Weight, a: Node, p: Path, v: Node)
    requires |p| > 0 && Walk(g, a, p[|p| - 1], p) && v in Neighbors(g, p[|p| - 1])
    ensures Walk(g, a, v, p + [v])
    ensures Cost(w, p + [v]) == Cost(w, p) + w(p[|p| - 1], v)
  {
    assert (p + [v])[..|p|] == p;
  }

  lemma {:induction false} CostAppend(w: Weight, p: Path, q: Path)
    requires |p| > 0 && |q| > 0 && p[|p| - 1] == q[0]
    ensures Cost(w, p[..|p| - 1] + q) == Cost(w, p) + Cost(w, q)
  {
    var r := p[..|p| - 1] + q;
    if |q| == 1 {
      assert r == p;
    } else {
      CostAppend(w, p, q[..|q| - 1]);
      assert r[..|r| - 1] == p[..|p| - 1] + q[..|q| - 1];
    }
  }

  /** Two walks that meet compose, and their costs add. */
  lemma Join(g: Graph, w: Weight, a: Node, b: Node, c: Node, p: Path, q: Path)
    requires Walk(g, a, b, p) && Walk(g, b, c, q)
    ensures Walk(g, a, c, p[..|p| - 1] + q)
    ensures Cost(w, p[..|p| - 1] + q) == Cost(w, p) + Cost(w, q)
  {
    CostAppend(w, p, q);
    var r := p[..|p| - 1] + q;
    assert r[0] == a;
    forall i | 0 <= i < |r| - 1 ensures r[i + 1] in Neighbors(g, r[i]) {
      if i < |p| - 1 {
        assert r[i + 1] == p[i + 1];
      } else {
        assert r[i + 1] == q[i + 1 - (|p| - 1)];
      }
    }
  }

  function Reverse(p: Path): (r: Path)
    ensures |r| == |p| && forall i | 0 <= i < |p| :: r[i] == p[|p| - 1 - i]
  {
    if p == [] then [] else Reverse(p[1..]) + [p[0]]
  }

  lemma {:induction false} CostFromFront(w: Weight, p: Path)
    requires |p| > 1
    ensures Cost(w, p) == w(p[0], p[1]) + Cost(w, p[1..])
  {
    CostAppend(w, p[..2], p[1..]);
    assert p[..2][..1] + p[1..] == p;
    assert Cost(w, p[..2][..1]) == 0;
  }

  lemma {:induction false} ReverseCost(w: Weight, p: Path)
    requires SymmetricWeight(w)
    ensures Cost(w, Reverse(p)) == Cost(w, p)
  {
    if |p| > 1 {
      ReverseCost(w, p[1..]);
      CostFromFront(w, p);
      assert Reverse(p)[..|p| - 1] == Reverse(p[1..]);
    }
  }

  lemma ReverseWalk(g: Graph, w: Weight, a: Node, b: Node, p: Path)
    requires Symmetric(g) && Walk(g, a, b, p)
    ensures Walk(g, b, a, Reverse(p))
    ensures SymmetricWeight(w) ==> Cost(w, Reverse(p)) == Cost(w, p)
  {
    var r := Reverse(p);
    forall i | 0 <= i < |r| - 1 ensures r[i + 1] in Neighbors(g, r[i]) {
      assert p[|p| - 1 - i] in Neighbors(g, p[|p| - 2 - i]);
    }
    if SymmetricWeight(w) { ReverseCost(w, p); }
  }

  /** A set of distances that is tight and closed under relaxation is right. */
  ghost predicate Relaxed(g: Graph, w: Weight, dist: Distances, u: Node)
    requires u in dist
  {
    forall v | v in Neighbors(g, u) :: v in dist && dist[v] <= dist[u] + w(u, v)
  }

  lemma {:induction false} LowerBound(g: Graph, w: Weight, s: Node, dist: Distances, p: Path)
    requires s in dist && dist[s] == 0
    requires forall u | u in dist :: Relaxed(g, w, dist, u)
    requires IsWalk(g, p) && p[0] == s
    ensures p[|p| - 1] in dist && dist[p[|p| - 1]] <= Cost(w, p)
  {
    if |p| > 1 {
      LowerBound(g, w, s, dist, p[..|p| - 1]);
      assert p[|p| - 1] in Neighbors(g, p[|p| - 2]);
      assert Relaxed(g, w, dist, p[|p| - 2]);
    }
  }

  lemma TightAndRelaxed(g: Graph, w: Weight, s: Node, dist: Distances)
    requires s in dist && dist[s] == 0
    requires forall u | u in dist :: Relaxed(g, w, dist, u)
    requires forall v | v in dist :: exists p :: Walk(g, s, v, p) && Cost(w, p) == dist[v]
    ensures AreDistances(g, w, s, dist)
  {
    forall v, p | Walk(g, s, v, p) ensures v in dist && dist[v] <= Cost(w, p) {
      LowerBound(g, w, s, dist, p);
    }
  }
}
