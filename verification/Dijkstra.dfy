/** Lazy-deletion Dijkstra: shortest_path, dijkstra_all and compute_distances.
    All three loops pop (distance, node) entries, skip stale ones, and relax the
    neighbours of the popped node; they share the invariant `Search`. */
module Dijkstra {
  import opened Ordering
  import opened Paths
  import opened Wrappers

  datatype Entry = Entry(dist: int, node: Node)

  /** Tuple order of heap entries. */
  predicate EntryLeq(a: Entry, b: Entry) {
    a.dist < b.dist || (a.dist == b.dist && a.node <= b.node)
  }

  type Parents = map<Node, Option<Node>>

  // ---------- the graph that remains under bans ----------

  /** frozenset edges exclude both directions; a banned node may still be the target. */
  predicate Passes(n: Node, m: Node, target: Node, bannedEdges: set<set<Node>>, bannedNodes: set<Node>) {
    {n, m} !in bannedEdges && (m !in bannedNodes || m == target)
  }

  ghost function Allowed(g: Graph, target: Node, bannedEdges: set<set<Node>>, bannedNodes: set<Node>): Graph {
    map n | n in g :: set m | m in g[n] && Passes(n, m, target, bannedEdges, bannedNodes)
  }

  lemma AllowedNeighbors(g: Graph, target: Node, bannedEdges: set<set<Node>>, bannedNodes: set<Node>, n: Node, m: Node)
    ensures m in Neighbors(Allowed(g, target, bannedEdges, bannedNodes), n)
       <==> m in Neighbors(g, n) && Passes(n, m, target, bannedEdges, bannedNodes)
  {
  }

  lemma NothingBanned(g: Graph, target: Node)
    ensures Allowed(g, target, {}, {}) == g
  {
    forall n | n in g ensures Allowed(g, target, {}, {})[n] == g[n] {
    }
  }

  // ---------- the search invariant ----------

  /** The local variables of a search: distances, parents and the heap. */
  datatype State = State(dist: Distances, parents: Parents, heap: multiset<Entry>)

  /** A simple walk of cost `d` whose nodes before the last are settled. */
  ghost predicate Branch(g: Graph, w: Weight, s: Node, v: Node, d: int, settled: set<Node>, p: Path) {
    && Walk(g, s, v, p) && Cost(w, p) == d && Simple(p)
    && forall x | x in p :: x == v || x in settled
  }

  /** Node `v` carries, in the ghost `tree`, the branch that its parent chain spells. */
  ghost predicate NodeOk(g: Graph, w: Weight, s: Node, st: State, settled: set<Node>, tree: map<Node, Path>, v: Node) {
    && v in st.dist && v in st.parents && v in tree
    && Branch(g, w, s, v, st.dist[v], settled, tree[v])
    && (v == s ==> st.parents[v] == None)
    && (v != s ==> && st.parents[v].Some? && st.parents[v].value in settled && st.parents[v].value in tree
                   && tree[v] == tree[st.parents[v].value] + [v])
  }

  ghost predicate TreeOk(g: Graph, w: Weight, s: Node, st: State, settled: set<Node>, tree: map<Node, Path>) {
    && tree.Keys == st.dist.Keys && st.parents.Keys == st.dist.Keys && settled <= st.dist.Keys
    && s in st.dist && st.dist[s] == 0 && tree[s] == [s]
    && forall v {:trigger NodeOk(g, w, s, st, settled, tree, v)} | v in st.dist :: NodeOk(g, w, s, st, settled, tree, v)
  }

  /** The heap holds a current entry for every unsettled discovered node;
      `floor`, the last popped distance, separates settled nodes from entries. */
  ghost predicate HeapOk(st: State, settled: set<Node>, floor: int) {
    && settled <= st.dist.Keys
    && (forall e | e in st.heap :: e.node in st.dist && st.dist[e.node] <= e.dist && floor <= e.dist)
    && (forall v | v in st.dist ::
          if v in settled then st.dist[v] <= floor else Entry(st.dist[v], v) in st.heap)
  }

  ghost predicate AllRelaxed(g: Graph, w: Weight, dist: Distances, settled: set<Node>) {
    forall u | u in settled :: u in dist && Relaxed(g, w, dist, u)
  }

  ghost predicate Search(g: Graph, w: Weight, s: Node, st: State, settled: set<Node>, floor: int,
                         tree: map<Node, Path>) {
    && TreeOk(g, w, s, st, settled, tree)
    && HeapOk(st, settled, floor)
    && AllRelaxed(g, w, st.dist, settled)
  }

  /** `node` was just popped at its current distance; `done` of its neighbours
      have been looked at. */
  ghost predicate Scanning(g: Graph, w: Weight, s: Node, node: Node, done: set<Node>, st: State,
                           settled: set<Node>, tree: map<Node, Path>) {
    && TreeOk(g, w, s, st, settled + {node}, tree)
    && node in st.dist && HeapOk(st, settled + {node}, st.dist[node])
    && AllRelaxed(g, w, st.dist, settled)
    && (forall v | v in done :: v in st.dist && st.dist[v] <= st.dist[node] + w(node, v))
  }

  /** Nodes the search can ever meet. */
  ghost function Universe(g: Graph, s: Node): set<Node> {
    {s} + g.Keys + (set n, m | n in g && m in g[n] :: m)
  }

  lemma DiscoveredInUniverse(g: Graph, s: Node, v: Node, p: Path)
    requires Walk(g, s, v, p)
    ensures v in Universe(g, s)
  {
    if |p| > 1 { assert p[|p| - 2 + 1] in Neighbors(g, p[|p| - 2]); }
  }

  /** A search that starts inside a closed dict never looks up a missing key. */
  lemma {:induction false} StaysInside(g: Graph, a: Graph, s: Node, v: Node, p: Path)
    requires Closed(g) && s in g && Walk(a, s, v, p)
    requires forall n | n in a :: n in g && a[n] <= g[n]
    ensures v in g
    decreases |p|
  {
    if |p| > 1 {
      StaysInside(g, a, s, p[|p| - 2], p[..|p| - 1]);
      assert p[|p| - 2 + 1] in Neighbors(a, p[|p| - 2]);
    }
  }

  lemma EntryOrder()
    ensures TotalPreorder(EntryLeq)
  {
  }

  lemma Start(g: Graph, w: Weight, s: Node)
    ensures Search(g, w, s, State(map[s := 0], map[s := None], multiset{Entry(0, s)}), {}, 0, map[s := [s]])
  {
  }

  lemma TreeGrows(g: Graph, w: Weight, s: Node, st: State, heap: multiset<Entry>, v: Node,
                  settled: set<Node>, tree: map<Node, Path>)
    requires TreeOk(g, w, s, st, settled, tree) && v in st.dist
    ensures TreeOk(g, w, s, st.(heap := heap), settled, tree)
    ensures TreeOk(g, w, s, st.(heap := heap), settled + {v}, tree)
  {
    hide NodeOk;
    forall x | x in st.dist
      ensures NodeOk(g, w, s, st.(heap := heap), settled, tree, x)
      ensures NodeOk(g, w, s, st.(heap := heap), settled + {v}, tree, x)
    {
      NodeGrows(g, w, s, st, heap, v, settled, tree, x);
    }
  }

  lemma NodeGrows(g: Graph, w: Weight, s: Node, st: State, heap: multiset<Entry>, v: Node,
                  settled: set<Node>, tree: map<Node, Path>, x: Node)
    requires NodeOk(g, w, s, st, settled, tree, x)
    ensures NodeOk(g, w, s, st.(heap := heap), settled, tree, x)
    ensures NodeOk(g, w, s, st.(heap := heap), settled + {v}, tree, x)
  {
    hide Walk;
  }

  lemma Discovered(g: Graph, a: Graph, w: Weight, s: Node, st: State, settled: set<Node>, tree: map<Node, Path>, v: Node)
    requires TreeOk(a, w, s, st, settled, tree) && v in st.dist
    requires forall n | n in a :: n in g && a[n] <= g[n]
    ensures v in Universe(a, s)
    ensures Closed(g) && s in g ==> v in g
  {
    assert NodeOk(a, w, s, st, settled, tree, v);
    DiscoveredInUniverse(a, s, v, tree[v]);
    if Closed(g) && s in g { StaysInside(g, a, s, v, tree[v]); }
  }

  lemma SourceDistance(g: Graph, w: Weight, s: Node, st: State, settled: set<Node>, tree: map<Node, Path>, v: Node)
    requires TreeOk(g, w, s, st, settled, tree) && v in st.dist
    ensures s in st.dist && st.dist[s] == 0 && v in tree && st.dist[v] >= 0
  {
    assert NodeOk(g, w, s, st, settled, tree, v);
  }

  lemma HeapPop(st: State, e: Entry, settled: set<Node>, floor: int)
    requires HeapOk(st, settled, floor) && Least(EntryLeq, st.heap, e)
    ensures e.node in st.dist
    ensures if e.dist == st.dist[e.node]
            then HeapOk(st.(heap := st.heap - multiset{e}), settled + {e.node}, e.dist)
            else HeapOk(st.(heap := st.heap - multiset{e}), settled, floor)
  {
  }

  /** Popping a current entry starts a scan with nothing looked at yet;
      dropping a stale one keeps the invariant. */
  lemma Pop(g: Graph, w: Weight, s: Node, st: State, e: Entry, settled: set<Node>, floor: int, tree: map<Node, Path>)
    requires Search(g, w, s, st, settled, floor, tree)
    requires Least(EntryLeq, st.heap, e)
    ensures e.node in st.dist && e.node in Universe(g, s)
    ensures if e.dist == st.dist[e.node]
            then Scanning(g, w, s, e.node, {}, st.(heap := st.heap - multiset{e}), settled, tree)
            else Search(g, w, s, st.(heap := st.heap - multiset{e}), settled, floor, tree)
  {
    HeapPop(st, e, settled, floor);
    Discovered(g, g, w, s, st, settled, tree, e.node);
    hide TreeOk, AllRelaxed, Least;
    TreeGrows(g, w, s, st, st.heap - multiset{e}, e.node, settled, tree);
    hide HeapOk;
  }

  /** The state after an improving relaxation of the edge node -> v. */
  function Improved(w: Weight, st: State, node: Node, v: Node): State
    requires node in st.dist
  {
    var nd := st.dist[node] + w(node, v);
    State(st.dist[v := nd], st.parents[v := Some(node)], st.heap + multiset{Entry(nd, v)})
  }

  lemma BranchExtends(g: Graph, w: Weight, s: Node, u: Node, d: int, settled: set<Node>, p: Path, v: Node)
    requires Branch(g, w, s, u, d, settled, p) && u in settled && v !in settled && v in Neighbors(g, u)
    ensures Branch(g, w, s, v, d + w(u, v), settled, p + [v])
  {
    ExtendWalk(g, w, s, p, v);
    hide Walk;
  }

  lemma NodeJoins(g: Graph, w: Weight, s: Node, node: Node, v: Node, st: State,
                  settled: set<Node>, tree: map<Node, Path>)
    requires NodeOk(g, w, s, st, settled, tree, node)
    requires node in settled && v in Neighbors(g, node) && v !in settled && v != s
    ensures NodeOk(g, w, s, Improved(w, st, node, v), settled, tree[v := tree[node] + [v]], v)
  {
    BranchExtends(g, w, s, node, st.dist[node], settled, tree[node], v);
    hide Branch;
  }

  lemma NodeStays(g: Graph, w: Weight, s: Node, node: Node, v: Node, st: State,
                  settled: set<Node>, tree: map<Node, Path>, x: Node)
    requires NodeOk(g, w, s, st, settled, tree, x) && node in st.dist && node in tree
    requires v !in settled && x != v
    ensures NodeOk(g, w, s, Improved(w, st, node, v), settled, tree[v := tree[node] + [v]], x)
  {
    hide Branch;
  }

  lemma ImproveTree(g: Graph, w: Weight, s: Node, node: Node, v: Node, st: State,
                    settled: set<Node>, tree: map<Node, Path>)
    requires TreeOk(g, w, s, st, settled, tree)
    requires node in settled && v in Neighbors(g, node) && v !in settled && v != s
    ensures TreeOk(g, w, s, Improved(w, st, node, v), settled, tree[v := tree[node] + [v]])
  {
    hide NodeOk, Neighbors;
    var st', tree' := Improved(w, st, node, v), tree[v := tree[node] + [v]];
    forall x | x in st'.dist ensures NodeOk(g, w, s, st', settled, tree', x) {
      assert NodeOk(g, w, s, st, settled, tree, node);
      if x == v {
        NodeJoins(g, w, s, node, v, st, settled, tree);
      } else {
        NodeStays(g, w, s, node, v, st, settled, tree, x);
      }
    }
    assert tree'.Keys == st'.dist.Keys && st'.parents.Keys == st'.dist.Keys;
  }

  lemma ImproveHeap(w: Weight, node: Node, v: Node, st: State, settled: set<Node>)
    requires node in st.dist && HeapOk(st, settled, st.dist[node])
    requires node in settled
    requires v !in st.dist || st.dist[node] + w(node, v) < st.dist[v]
    ensures v !in settled
    ensures HeapOk(Improved(w, st, node, v), settled, st.dist[node])
  {
  }

  lemma StillRelaxed(g: Graph, w: Weight, node: Node, v: Node, st: State, settled: set<Node>)
    requires AllRelaxed(g, w, st.dist, settled) && v !in settled && node in st.dist && v in Neighbors(g, node)
    requires v !in st.dist || st.dist[node] + w(node, v) < st.dist[v]
    ensures node !in settled
    ensures AllRelaxed(g, w, Improved(w, st, node, v).dist, settled)
  {
    forall u | u in settled ensures Relaxed(g, w, Improved(w, st, node, v).dist, u) {
      assert Relaxed(g, w, st.dist, u);
    }
  }

  /** One improving relaxation keeps the scan invariant. */
  lemma Improve(g: Graph, w: Weight, s: Node, node: Node, done: set<Node>, v: Node, st: State,
                settled: set<Node>, tree: map<Node, Path>)
    requires Scanning(g, w, s, node, done, st, settled, tree)
    requires v in Neighbors(g, node)
    requires v !in st.dist || st.dist[node] + w(node, v) < st.dist[v]
    ensures node !in settled && node in tree
    ensures node in Improved(w, st, node, v).dist && Improved(w, st, node, v).dist[node] == st.dist[node]
    ensures Scanning(g, w, s, node, done + {v}, Improved(w, st, node, v), settled, tree[v := tree[node] + [v]])
  {
    hide TreeOk, HeapOk, AllRelaxed, Neighbors;
    SourceDistance(g, w, s, st, settled + {node}, tree, node);
    ImproveHeap(w, node, v, st, settled + {node});
    ImproveTree(g, w, s, node, v, st, settled + {node}, tree);
    StillRelaxed(g, w, node, v, st, settled);
  }

  /** The inner loop: relax every allowed neighbour of a freshly popped node. */
  method RelaxNeighbors(g: Graph, w: Weight, s: Node, node: Node, d: int, target: Node,
                        bannedEdges: set<set<Node>>, bannedNodes: set<Node>,
                        st0: State, ghost settled: set<Node>, ghost tree0: map<Node, Path>)
    returns (st: State, ghost tree: map<Node, Path>)
    requires Scanning(Allowed(g, target, bannedEdges, bannedNodes), w, s, node, {}, st0, settled, tree0)
    requires node in st0.dist && d == st0.dist[node]
    ensures Search(Allowed(g, target, bannedEdges, bannedNodes), w, s, st, settled + {node}, d, tree)
    ensures node in settled ==> st.heap == st0.heap
  {
    hide Scanning, Search, Allowed, Neighbors, Passes, Improved;
    ghost var a := Allowed(g, target, bannedEdges, bannedNodes);
    st, tree := st0, tree0;
    ghost var done: set<Node> := {};
    var ns := Sorted(Neighbors(g, node));
    for i := 0 to |ns|
      invariant Scanning(a, w, s, node, done, st, settled, tree)
      invariant forall m | m in ns[..i] :: m in done || m !in Neighbors(a, node)
      invariant node in st.dist && st.dist[node] == d
      invariant node in settled ==> st.heap == st0.heap
    {
      var v := ns[i];
      assert ns[..i + 1] == ns[..i] + [v];
      AllowedNeighbors(g, target, bannedEdges, bannedNodes, node, v);
      if Passes(node, v, target, bannedEdges, bannedNodes) {
        if v !in st.dist || d + w(node, v) < st.dist[v] {
          Improve(a, w, s, node, done, v, st, settled, tree);
          st, tree := Improved(w, st, node, v), tree[v := tree[node] + [v]];
        } else {
          NoImprovement(a, w, s, node, done, v, st, settled, tree);
        }
        done := done + {v};
      }
    }
    forall m | m in Neighbors(a, node) ensures m in done {
      AllowedNeighbors(g, target, bannedEdges, bannedNodes, node, m);
      assert ns[..|ns|] == ns;
    }
    ScanComplete(a, w, s, node, done, st, settled, tree);
  }

  lemma NoImprovement(g: Graph, w: Weight, s: Node, node: Node, done: set<Node>, v: Node, st: State,
                      settled: set<Node>, tree: map<Node, Path>)
    requires Scanning(g, w, s, node, done, st, settled, tree)
    requires v in st.dist && st.dist[v] <= st.dist[node] + w(node, v)
    ensures Scanning(g, w, s, node, done + {v}, st, settled, tree)
  {
    hide TreeOk, HeapOk, AllRelaxed;
  }

  lemma ScanComplete(g: Graph, w: Weight, s: Node, node: Node, done: set<Node>, st: State,
                     settled: set<Node>, tree: map<Node, Path>)
    requires Scanning(g, w, s, node, done, st, settled, tree)
    requires Neighbors(g, node) <= done
    ensures Search(g, w, s, st, settled + {node}, st.dist[node], tree)
  {
    hide TreeOk, HeapOk, AllRelaxed;
    AllRelaxedGrows(g, w, st.dist, settled, node, done);
  }

  lemma AllRelaxedGrows(g: Graph, w: Weight, dist: Distances, settled: set<Node>, node: Node, done: set<Node>)
    requires AllRelaxed(g, w, dist, settled) && node in dist
    requires forall v | v in done :: v in dist && dist[v] <= dist[node] + w(node, v)
    requires Neighbors(g, node) <= done
    ensures AllRelaxed(g, w, dist, settled + {node})
  {
  }

  /** When the heap is empty, the distances are the true ones. */
  lemma Finished(g: Graph, w: Weight, s: Node, st: State, settled: set<Node>, floor: int, tree: map<Node, Path>)
    requires Search(g, w, s, st, settled, floor, tree) && |st.heap| == 0
    ensures AreDistances(g, w, s, st.dist)
  {
    forall v | v in st.dist ensures exists p :: Walk(g, s, v, p) && Cost(w, p) == st.dist[v] {
      assert NodeOk(g, w, s, st, settled, tree, v);
    }
    TightAndRelaxed(g, w, s, st.dist);
  }

  // ---------- dijkstra_all ----------

  /** On a closed dict no search ever meets a missing key. */
  lemma ClosedHasKeys(g: Graph, target: Node, bannedEdges: set<set<Node>>, bannedNodes: set<Node>, s: Node)
    requires Closed(g) && s in g
    ensures forall v | Reachable(Allowed(g, target, bannedEdges, bannedNodes), s, v) :: v in g
  {
    var a := Allowed(g, target, bannedEdges, bannedNodes);
    forall v | Reachable(a, s, v)
      ensures v in g
    {
      var p :| Walk(a, s, v, p);
      StaysInside(g, a, s, v, p);
    }
  }

  /** A popped node is reachable. */
  lemma PoppedReachable(g: Graph, w: Weight, s: Node, st: State, settled: set<Node>, floor: int, tree: map<Node, Path>, v: Node)
    requires Search(g, w, s, st, settled, floor, tree) && v in st.dist
    ensures Reachable(g, s, v)
  {
    assert NodeOk(g, w, s, st, settled, tree, v);
  }

  /** With an empty heap everything reachable has been settled. */
  lemma AllSettled(g: Graph, w: Weight, s: Node, st: State, settled: set<Node>, floor: int, tree: map<Node, Path>)
    requires Search(g, w, s, st, settled, floor, tree) && |st.heap| == 0
    ensures forall v | Reachable(g, s, v) :: v in settled
  {
    Finished(g, w, s, st, settled, floor, tree);
    assert forall e :: e !in st.heap;
  }

  /** What the parents of dijkstra_all promise: each names the last hop
      of a least-cost walk. */
  ghost predicate ParentsOk(g: Graph, w: Weight, s: Node, dist: Distances, parents: Parents) {
    && parents.Keys == dist.Keys
    && s in parents && parents[s] == None
    && forall v | v in parents && v != s ::
         && parents[v].Some? && parents[v].value in dist
         && v in Neighbors(g, parents[v].value)
         && dist[v] == dist[parents[v].value] + w(parents[v].value, v)
  }

  lemma LastHops(g: Graph, w: Weight, s: Node, st: State, settled: set<Node>, floor: int, tree: map<Node, Path>)
    requires Search(g, w, s, st, settled, floor, tree)
    ensures ParentsOk(g, w, s, st.dist, st.parents)
  {
    hide HeapOk, AllRelaxed;
    assert NodeOk(g, w, s, st, settled, tree, s);
    forall v | v in st.parents && v != s
      ensures st.parents[v].Some? && st.parents[v].value in st.dist
      ensures v in Neighbors(g, st.parents[v].value)
      ensures st.dist[v] == st.dist[st.parents[v].value] + w(st.parents[v].value, v)
    {
      assert NodeOk(g, w, s, st, settled, tree, v);
      var u := st.parents[v].value;
      var p := tree[u];
      assert NodeOk(g, w, s, st, settled, tree, u);
      assert (p + [v])[|p| - 1 + 1] in Neighbors(g, (p + [v])[|p| - 1]);
      assert (p + [v])[..|p|] == p;
    }
  }

  /** `ok` is false where a KeyError escapes: exactly when some reachable node is no key. */
  method DijkstraAll(g: Graph, source: Node, w: Weight) returns (ok: bool, dist: Distances, parents: Parents)
    ensures ok <==> forall v | Reachable(g, source, v) :: v in g
    ensures ok ==> AreDistances(g, w, source, dist) && ParentsOk(g, w, source, dist, parents)
  {
    hide Search, Scanning, Reachable, ParentsOk, AreDistances, TotalPreorder, Least;
    NothingBanned(g, source);
    EntryOrder();
    Start(g, w, source);
    var st := State(map[source := 0], map[source := None], multiset{Entry(0, source)});
    ghost var settled: set<Node>, floor, tree: map<Node, Path> := {}, 0, map[source := [source]];
    while |st.heap| > 0
      invariant Search(g, w, source, st, settled, floor, tree) && settled <= g.Keys
      decreases Universe(g, source) - settled, |st.heap|
    {
      var e, rest := PopLeast(EntryLeq, st.heap);
      assert rest == st.heap - multiset{e};
      Pop(g, w, source, st, e, settled, floor, tree);
      if e.dist != st.dist[e.node] {
        st := st.(heap := rest);
        continue;
      }
      if e.node !in g {
        PoppedReachable(g, w, source, st, settled, floor, tree, e.node);
        return false, map[], map[];
      }
      st, tree := RelaxNeighbors(g, w, source, e.node, e.dist, source, {}, {}, st.(heap := rest), settled, tree);
      settled, floor := settled + {e.node}, e.dist;
    }
    Finished(g, w, source, st, settled, floor, tree);
    LastHops(g, w, source, st, settled, floor, tree);
    AllSettled(g, w, source, st, settled, floor, tree);
    return true, st.dist, st.parents;
  }

  // ---------- compute_distances ----------

  /** Distances from `source`: breadth first without a weight function, by
      Dijkstra's algorithm with one. A node missing from the dict has no neighbours. */
  method ComputeDistances(g: Graph, source: Node, weight: Option<Weight>) returns (dist: Distances)
    ensures AreDistances(g, if weight.Some? then weight.value else UnitWeight(), source, dist)
  {
    if weight.None? {
      dist := BreadthFirst(g, source);
    } else {
      dist := CheapestFirst(g, source, weight.value);
    }
  }

  method CheapestFirst(g: Graph, source: Node, w: Weight) returns (dist: Distances)
    ensures AreDistances(g, w, source, dist)
  {
    hide Search, Scanning, AreDistances, TotalPreorder, Least;
    NothingBanned(g, source);
    EntryOrder();
    Start(g, w, source);
    var st := State(map[source := 0], map[source := None], multiset{Entry(0, source)});
    ghost var settled: set<Node>, floor, tree: map<Node, Path> := {}, 0, map[source := [source]];
    while |st.heap| > 0
      invariant Search(g, w, source, st, settled, floor, tree)
      decreases Universe(g, source) - settled, |st.heap|
    {
      var e, rest := PopLeast(EntryLeq, st.heap);
      assert rest == st.heap - multiset{e};
      Pop(g, w, source, st, e, settled, floor, tree);
      if e.dist != st.dist[e.node] {
        st := st.(heap := rest);
        continue;
      }
      st, tree := RelaxNeighbors(g, w, source, e.node, e.dist, source, {}, {}, st.(heap := rest), settled, tree);
      settled, floor := settled + {e.node}, e.dist;
    }
    Finished(g, w, source, st, settled, floor, tree);
    return st.dist;
  }

  /** Discovered nodes carry a walk of their distance. */
  ghost predicate BfsTree(g: Graph, s: Node, dist: Distances, tree: map<Node, Path>) {
    && s in dist && dist[s] == 0 && tree.Keys == dist.Keys
    && forall v | v in dist :: BfsNode(g, s, dist, tree, v)
  }

  ghost predicate BfsNode(g: Graph, s: Node, dist: Distances, tree: map<Node, Path>, v: Node) {
    v in dist && v in tree && Walk(g, s, v, tree[v]) && Cost(UnitWeight(), tree[v]) == dist[v]
  }

  /** The queue lists the unprocessed nodes by distance, within one of each other. */
  ghost predicate BfsQueue(dist: Distances, queue: seq<Node>, processed: set<Node>) {
    && (forall v | v in dist :: v in processed || v in queue)
    && (forall v | v in queue :: v in dist)
    && (forall i, j | 0 <= i <= j < |queue| :: dist[queue[i]] <= dist[queue[j]] <= dist[queue[i]] + 1)
    && (forall u, v | u in processed && v in queue :: u in dist && dist[u] <= dist[v])
    && processed <= dist.Keys
  }

  /** `node` heads the queue and `done` of its neighbours have been looked at. */
  ghost predicate BfsScan(g: Graph, s: Node, node: Node, done: set<Node>, dist: Distances, queue: seq<Node>,
                          processed: set<Node>, tree: map<Node, Path>) {
    && BfsTree(g, s, dist, tree)
    && BfsQueue(dist, [node] + queue, processed)
    && AllRelaxed(g, UnitWeight(), dist, processed)
    && node in dist
    && (forall v | v in done :: v in dist && dist[v] <= dist[node] + 1)
  }

  lemma BfsStart(g: Graph, s: Node)
    ensures BfsScan(g, s, s, {}, map[s := 0], [], {}, map[s := [s]])
  {
  }

  lemma BfsDiscover(g: Graph, s: Node, node: Node, done: set<Node>, v: Node, dist: Distances, queue: seq<Node>,
                    processed: set<Node>, tree: map<Node, Path>)
    requires BfsScan(g, s, node, done, dist, queue, processed, tree) && v in Neighbors(g, node) && v !in dist
    ensures node in dist && node in tree && v in Universe(g, s)
    ensures BfsScan(g, s, node, done + {v}, dist[v := dist[node] + 1], queue + [v], processed, tree[v := tree[node] + [v]])
  {
    hide BfsTree, BfsQueue, AllRelaxed;
    BfsGrowTree(g, s, node, v, dist, tree);
    BfsAppend(dist, node, queue, processed, v);
    BfsStillRelaxed(g, dist, processed, v, dist[node] + 1);
  }

  lemma BfsGrowTree(g: Graph, s: Node, node: Node, v: Node, dist: Distances, tree: map<Node, Path>)
    requires BfsTree(g, s, dist, tree) && node in dist && v in Neighbors(g, node) && v !in dist
    ensures node in tree && v in Universe(g, s)
    ensures BfsTree(g, s, dist[v := dist[node] + 1], tree[v := tree[node] + [v]])
  {
    var dist', tree' := dist[v := dist[node] + 1], tree[v := tree[node] + [v]];
    assert BfsNode(g, s, dist, tree, node);
    ExtendWalk(g, UnitWeight(), s, tree[node], v);
    DiscoveredInUniverse(g, s, v, tree[node] + [v]);
    assert BfsNode(g, s, dist', tree', v);
    hide Walk, Neighbors;
    forall x | x in dist' ensures BfsNode(g, s, dist', tree', x) {
      if x != v { assert BfsNode(g, s, dist, tree, x); }
    }
    assert tree'.Keys == dist'.Keys;
  }

  lemma BfsStillRelaxed(g: Graph, dist: Distances, processed: set<Node>, v: Node, d: int)
    requires AllRelaxed(g, UnitWeight(), dist, processed) && v !in dist
    ensures AllRelaxed(g, UnitWeight(), dist[v := d], processed)
  {
    forall u | u in processed ensures Relaxed(g, UnitWeight(), dist[v := d], u) {
      assert u in dist && Relaxed(g, UnitWeight(), dist, u);
    }
  }

  lemma BfsAppend(dist: Distances, node: Node, queue: seq<Node>, processed: set<Node>, v: Node)
    requires BfsQueue(dist, [node] + queue, processed) && v !in dist && node in dist
    ensures BfsQueue(dist[v := dist[node] + 1], [node] + (queue + [v]), processed)
  {
    var q := [node] + queue;
    assert [node] + (queue + [v]) == q + [v];
    assert q[0] == node;
    forall x | x in q ensures dist[node] <= dist[x] <= dist[node] + 1 {
      var i :| 0 <= i < |q| && q[i] == x;
      assert dist[q[0]] <= dist[q[i]] <= dist[q[0]] + 1;
    }
  }

  lemma BfsSeen(g: Graph, s: Node, node: Node, done: set<Node>, v: Node, dist: Distances, queue: seq<Node>,
                processed: set<Node>, tree: map<Node, Path>)
    requires BfsScan(g, s, node, done, dist, queue, processed, tree) && v in dist
    ensures BfsScan(g, s, node, done + {v}, dist, queue, processed, tree)
  {
    hide BfsTree, AllRelaxed;
    var q := [node] + queue;
    assert q[0] == node;
    if v in q {
      var i :| 0 <= i < |q| && q[i] == v;
      assert dist[q[0]] <= dist[q[i]] <= dist[q[0]] + 1;
    }
  }

  /** All neighbours looked at: the next queue entry, if any, becomes the node to scan. */
  lemma BfsNext(g: Graph, s: Node, node: Node, done: set<Node>, dist: Distances, queue: seq<Node>,
                processed: set<Node>, tree: map<Node, Path>)
    requires BfsScan(g, s, node, done, dist, queue, processed, tree) && Neighbors(g, node) <= done
    ensures queue == [] ==> AreDistances(g, UnitWeight(), s, dist)
    ensures queue != [] ==> BfsScan(g, s, queue[0], {}, dist, queue[1..], processed + {node}, tree)
  {
    AllRelaxedGrows(g, UnitWeight(), dist, processed, node, done);
    hide AllRelaxed, Neighbors, BfsTree;
    BfsShift(dist, node, queue, processed);
    hide BfsQueue;
    if queue == [] {
      BfsFinished(g, s, dist, processed + {node}, tree);
    } else {
      assert [queue[0]] + queue[1..] == queue;
      assert queue[0] in queue;
    }
  }

  lemma BfsShift(dist: Distances, node: Node, queue: seq<Node>, processed: set<Node>)
    requires BfsQueue(dist, [node] + queue, processed)
    ensures BfsQueue(dist, queue, processed + {node})
    ensures forall v | v in queue :: v in dist
    ensures queue == [] ==> dist.Keys == processed + {node}
  {
    var q := [node] + queue;
    assert q[0] == node;
    assert forall i | 0 <= i < |queue| :: queue[i] == q[i + 1];
    forall i, j | 0 <= i <= j < |queue| ensures dist[queue[i]] <= dist[queue[j]] <= dist[queue[i]] + 1 {
      assert dist[q[i + 1]] <= dist[q[j + 1]] <= dist[q[i + 1]] + 1;
    }
    forall v | v in queue ensures dist[node] <= dist[v] {
      var i :| 0 <= i < |queue| && queue[i] == v;
      assert dist[q[0]] <= dist[q[i + 1]];
    }
  }

  lemma BfsFinished(g: Graph, s: Node, dist: Distances, processed: set<Node>, tree: map<Node, Path>)
    requires BfsTree(g, s, dist, tree) && AllRelaxed(g, UnitWeight(), dist, processed) && dist.Keys == processed
    ensures AreDistances(g, UnitWeight(), s, dist)
  {
    hide Neighbors;
    forall v | v in dist ensures exists p :: Walk(g, s, v, p) && Cost(UnitWeight(), p) == dist[v] {
      assert BfsNode(g, s, dist, tree, v);
    }
    TightAndRelaxed(g, UnitWeight(), s, dist);
  }

  method BreadthFirst(g: Graph, source: Node) returns (dist: Distances)
    ensures AreDistances(g, UnitWeight(), source, dist)
  {
    hide BfsScan, AreDistances;
    dist := map[source := 0];
    var queue: seq<Node> := [source];
    ghost var processed: set<Node>, tree: map<Node, Path> := {}, map[source := [source]];
    BfsStart(g, source);
    assert queue[1..] == [];
    while queue != []
      invariant if queue == [] then AreDistances(g, UnitWeight(), source, dist)
                else BfsScan(g, source, queue[0], {}, dist, queue[1..], processed, tree)
      decreases Universe(g, source) - dist.Keys, |queue|
    {
      var node := queue[0];
      queue := queue[1..];
      ghost var dist0, queue0 := dist, queue;
      ghost var done: set<Node> := {};
      var ns := Sorted(Neighbors(g, node));
      for i := 0 to |ns|
        invariant BfsScan(g, source, node, done, dist, queue, processed, tree)
        invariant forall v | v in ns[..i] :: v in done
        invariant (dist == dist0 && queue == queue0) || Universe(g, source) - dist.Keys < Universe(g, source) - dist0.Keys
      {
        var v := ns[i];
        assert ns[..i + 1] == ns[..i] + [v];
        if v !in dist {
          BfsDiscover(g, source, node, done, v, dist, queue, processed, tree);
          assert v in Universe(g, source) - dist.Keys;
          dist, queue, tree := dist[v := dist[node] + 1], queue + [v], tree[v := tree[node] + [v]];
          assert v !in Universe(g, source) - dist.Keys;
        } else {
          BfsSeen(g, source, node, done, v, dist, queue, processed, tree);
        }
        done := done + {v};
      }
      assert ns[..|ns|] == ns;
      BfsNext(g, source, node, done, dist, queue, processed, tree);
      processed := processed + {node};
    }
  }

  // ---------- shortest_path ----------

  /** Either the walk stays inside the settled region, or it has already cost as
      much as some discovered node outside it. */
  lemma {:induction false} Frontier(g: Graph, w: Weight, s: Node, dist: Distances, settled: set<Node>, p: Path)
    returns (x: Node)
    requires s in dist && dist[s] == 0 && AllRelaxed(g, w, dist, settled)
    requires IsWalk(g, p) && p[0] == s
    ensures x in dist && dist[x] <= Cost(w, p) && (x == p[|p| - 1] || x !in settled)
  {
    if |p| == 1 {
      x := s;
    } else {
      x := Frontier(g, w, s, dist, settled, p[..|p| - 1]);
      assert p[|p| - 2 + 1] in Neighbors(g, p[|p| - 2]);
      if x in settled {
        assert Relaxed(g, w, dist, x);
        x := p[|p| - 1];
      }
    }
  }

  /** A least-cost path from `s` to `t` in `g`, all walks considered. */
  ghost predicate IsShortest(g: Graph, w: Weight, s: Node, t: Node, p: Path) {
    && Walk(g, s, t, p) && Simple(p)
    && forall q | Walk(g, s, t, q) :: Cost(w, p) <= Cost(w, q)
  }

  /** Popping the target means its distance is final. */
  lemma TargetPopped(g: Graph, w: Weight, s: Node, st: State, e: Entry, settled: set<Node>, floor: int, tree: map<Node, Path>)
    requires Search(g, w, s, st, settled, floor, tree)
    requires Least(EntryLeq, st.heap, e) && e.node !in settled
    ensures e.node in st.parents && e.node in tree
    ensures IsShortest(g, w, s, e.node, tree[e.node]) && Reachable(g, s, e.node)
  {
    assert NodeOk(g, w, s, st, settled, tree, e.node);
    hide NodeOk, TreeOk;
    SourceDistance(g, w, s, st, settled, tree, e.node);
    forall p | Walk(g, s, e.node, p) ensures st.dist[e.node] <= Cost(w, p) {
      var x := Frontier(g, w, s, st.dist, settled, p);
      if x != e.node {
        assert Entry(st.dist[x], x) in st.heap;
      }
    }
  }

  lemma StandStill(g: Graph, w: Weight, s: Node)
    ensures Reachable(g, s, s) && IsShortest(g, w, s, s, [s])
  {
    assert Walk(g, s, s, [s]);
  }

  lemma NotFound(g: Graph, w: Weight, s: Node, st: State, settled: set<Node>, floor: int, tree: map<Node, Path>, t: Node)
    requires Search(g, w, s, st, settled, floor, tree) && |st.heap| == 0 && t !in settled
    ensures t !in st.parents && !Reachable(g, s, t)
  {
    Finished(g, w, s, st, settled, floor, tree);
  }

  lemma ParentStep(g: Graph, w: Weight, s: Node, st: State, settled: set<Node>, floor: int, tree: map<Node, Path>, v: Node)
    requires Search(g, w, s, st, settled, floor, tree) && v in st.parents
    ensures v in tree
    ensures match st.parents[v]
            case None => tree[v] == [v]
            case Some(u) => u in st.parents && u in tree && tree[v] == tree[u] + [v]
  {
    assert NodeOk(g, w, s, st, settled, tree, v);
    hide HeapOk, AllRelaxed, Branch, NodeOk;
  }

  /** Follow the recorded parents back from the target. */
  method Backtrack(ghost g: Graph, ghost w: Weight, ghost s: Node, t: Node, st: State,
                   ghost settled: set<Node>, ghost floor: int, ghost tree: map<Node, Path>) returns (path: Path)
    requires Search(g, w, s, st, settled, floor, tree) && t in st.parents && t in tree
    ensures path == tree[t]
  {
    hide Search;
    var rev: Path := [];
    var node := Some(t);
    while node.Some?
      invariant node.Some? ==> node.value in st.parents && node.value in tree && tree[t] == tree[node.value] + Reverse(rev)
      invariant node.None? ==> tree[t] == Reverse(rev)
      decreases if node.Some? then 1 + |tree[node.value]| else 0
    {
      ParentStep(g, w, s, st, settled, floor, tree, node.value);
      ReverseSnoc(rev, node.value);
      rev := rev + [node.value];
      node := st.parents[node.value];
    }
    path := Reverse(rev);
  }

  lemma ReverseSnoc(p: Path, v: Node)
    ensures Reverse(p + [v]) == [v] + Reverse(p)
  {
  }

  /** A missing key as near as the target: what a KeyError of shortest_path shows. */
  ghost predicate MissingNear(g: Graph, a: Graph, w: Weight, s: Node, t: Node) {
    exists v, q :: v !in g && v != t && Walk(a, s, v, q) && forall p | Walk(a, s, t, p) :: Cost(w, q) <= Cost(w, p)
  }

  /** Every missing key is at least as far as the path is long. */
  ghost predicate MissingFar(g: Graph, a: Graph, w: Weight, s: Node, t: Node, path: Path) {
    forall v, q | v !in g && v != t && Walk(a, s, v, q) :: Cost(w, path) <= Cost(w, q)
  }

  /** Found a path, found none, or a KeyError escaped. */
  datatype Answer = Found(path: Path) | NoPath | KeyMissing

  /** The popped node that is no key is as near as the target can be. */
  lemma MissingPopped(g: Graph, a: Graph, w: Weight, s: Node, st: State, e: Entry, settled: set<Node>, floor: int, tree: map<Node, Path>, t: Node)
    requires Search(a, w, s, st, settled, floor, tree) && Least(EntryLeq, st.heap, e) && settled <= g.Keys
    requires e.node !in g && e.node != t && t !in settled
    ensures MissingNear(g, a, w, s, t)
  {
    TargetPopped(a, w, s, st, e, settled, floor, tree);
    assert NodeOk(a, w, s, st, settled, tree, e.node);
    hide NodeOk, TreeOk;
    SourceDistance(a, w, s, st, settled, tree, e.node);
    var q := tree[e.node];
    assert Walk(a, s, e.node, q) && Cost(w, q) == st.dist[e.node];
    forall p | Walk(a, s, t, p)
      ensures Cost(w, q) <= Cost(w, p)
    {
      var x := Frontier(a, w, s, st.dist, settled, p);
      assert Entry(st.dist[x], x) in st.heap;
      assert st.dist[e.node] <= e.dist;
    }
  }

  /** No missing key is nearer than the popped target. */
  lemma TargetFirst(g: Graph, a: Graph, w: Weight, s: Node, st: State, e: Entry, settled: set<Node>, floor: int, tree: map<Node, Path>)
    requires Search(a, w, s, st, settled, floor, tree) && Least(EntryLeq, st.heap, e) && settled <= g.Keys && e.node !in settled
    ensures e.node in tree && MissingFar(g, a, w, s, e.node, tree[e.node])
  {
    assert NodeOk(a, w, s, st, settled, tree, e.node);
    hide NodeOk, TreeOk;
    SourceDistance(a, w, s, st, settled, tree, e.node);
    forall v, q | v !in g && v != e.node && Walk(a, s, v, q)
      ensures Cost(w, tree[e.node]) <= Cost(w, q)
    {
      var x := Frontier(a, w, s, st.dist, settled, q);
      assert Entry(st.dist[x], x) in st.heap;
      assert st.dist[e.node] <= e.dist;
    }
  }

  /** shortest_path. A KeyError escapes only if a missing key is as near as the
      target, and certainly if one is nearer. */
  method ShortestPath(g: Graph, source: Node, target: Node,
                      bannedEdges: set<set<Node>>, bannedNodes: set<Node>, w: Weight)
    returns (r: Answer)
    ensures var a := Allowed(g, target, bannedEdges, bannedNodes);
            match r
            case Found(p) => IsShortest(a, w, source, target, p) && Reachable(a, source, target)
                             && (source != target ==> MissingFar(g, a, w, source, target, p))
            case NoPath => !Reachable(a, source, target) && forall v | Reachable(a, source, v) :: v in g
            case KeyMissing => source != target && MissingNear(g, a, w, source, target)
  {
    ghost var a := Allowed(g, target, bannedEdges, bannedNodes);
    hide Search, Scanning, Reachable, IsShortest, TotalPreorder, Least, MissingNear, MissingFar;
    if source == target {
      StandStill(a, w, source);
      return Found([source]);
    }
    EntryOrder();
    Start(a, w, source);
    var st := State(map[source := 0], map[source := None], multiset{Entry(0, source)});
    ghost var settled: set<Node>, floor, tree: map<Node, Path> := {}, 0, map[source := [source]];
    while |st.heap| > 0
      invariant Search(a, w, source, st, settled, floor, tree)
      invariant target !in settled && settled <= g.Keys
      decreases Universe(a, source) - settled, |st.heap|
    {
      var e, rest := PopLeast(EntryLeq, st.heap);
      assert rest == st.heap - multiset{e};
      if e.node == target {
        TargetPopped(a, w, source, st, e, settled, floor, tree);
        TargetFirst(g, a, w, source, st, e, settled, floor, tree);
        break;
      }
      Pop(a, w, source, st, e, settled, floor, tree);
      if e.dist != st.dist[e.node] {
        st := st.(heap := rest);
        continue;
      }
      if e.node !in g {
        MissingPopped(g, a, w, source, st, e, settled, floor, tree, target);
        return KeyMissing;
      }
      st, tree := RelaxNeighbors(g, w, source, e.node, e.dist, target, bannedEdges, bannedNodes, st.(heap := rest), settled, tree);
      settled, floor := settled + {e.node}, e.dist;
    }
    if |st.heap| == 0 {
      NotFound(a, w, source, st, settled, floor, tree, target);
      AllSettled(a, w, source, st, settled, floor, tree);
    }
    if target !in st.parents {
      return NoPath;
    }
    var path := Backtrack(a, w, source, target, st, settled, floor, tree);
    r := Found(path);
  }
}
