/** Random draws, degree sums, and the host graph induced by switches. */
module MeshBase {
  import opened Ordering
  import opened Paths

  // ---------- rng.shuffle: any order it could give ----------

  method Shuffle(s: seq<Node>) returns (t: seq<Node>)
    ensures multiset(t) == multiset(s)
  {
    assert multiset(s) == multiset(s);
    t :| multiset(t) == multiset(s);
  }

  // ---------- degrees ----------

  /** Degrees by host number; the list `degrees` of the builder. */
  type Degrees = seq<int>

  /** degrees[h], 0 outside the list. */
  function At(d: Degrees, h: Node): int {
    if h as int < |d| then d[h as int] else 0
  }

  function Dec(d: Degrees, h: Node): Degrees
    requires Host(|d|, h)
  {
    d[h as int := d[h as int] - 1]
  }

  /** The total degree of the listed hosts. */
  function SumOver(hs: seq<Node>, d: Degrees): int {
    if hs == [] then 0 else SumOver(hs[..|hs| - 1], d) + At(d, hs[|hs| - 1])
  }

  function Total(d: Degrees): int {
    SumOver(Range(|d|), d)
  }

  lemma {:induction false} SumSplit(a: seq<Node>, b: seq<Node>, d: Degrees)
    ensures SumOver(a + b, d) == SumOver(a, d) + SumOver(b, d)
  {
    if b == [] {
      assert a + b == a;
    } else {
      SumSplit(a, b[..|b| - 1], d);
      assert (a + b)[..|a + b| - 1] == a + b[..|b| - 1];
    }
  }

  /** Taking one entry out of the list. */
  lemma SumWithout(b: seq<Node>, i: nat, d: Degrees)
    requires i < |b|
    ensures SumOver(b, d) == SumOver(b[..i] + b[i + 1..], d) + At(d, b[i])
  {
    assert b == (b[..i] + [b[i]]) + b[i + 1..];
    SumSplit(b[..i], b[i + 1..], d);
    SumSplit(b[..i] + [b[i]], b[i + 1..], d);
    assert (b[..i] + [b[i]])[..i] == b[..i];
  }

  /** The other list without its copy of the last entry. */
  lemma Unpermute(a: seq<Node>, b: seq<Node>) returns (i: nat)
    requires a != [] && multiset(a) == multiset(b)
    ensures i < |b| && b[i] == a[|a| - 1] && multiset(b[..i] + b[i + 1..]) == multiset(a[..|a| - 1])
  {
    var n := |a| - 1;
    assert a == a[..n] + [a[n]];
    assert a[n] in multiset(b);
    i :| 0 <= i < |b| && b[i] == a[n];
    assert b == b[..i] + [b[i]] + b[i + 1..];
    assert multiset(b[..i] + b[i + 1..]) == multiset(b) - multiset{a[n]} == multiset(a[..n]);
  }

  lemma {:induction false} SumPermuted(a: seq<Node>, b: seq<Node>, d: Degrees)
    requires multiset(a) == multiset(b)
    ensures SumOver(a, d) == SumOver(b, d)
  {
    if a == [] {
      assert |multiset(b)| == 0;
    } else {
      hide At;
      var i := Unpermute(a, b);
      SumWithout(b, i, d);
      SumPermuted(a[..|a| - 1], b[..i] + b[i + 1..], d);
    }
  }

  lemma {:induction false} SumAgrees(hs: seq<Node>, d: Degrees, e: Degrees)
    requires forall h | h in hs :: At(d, h) == At(e, h)
    ensures SumOver(hs, d) == SumOver(hs, e)
  {
    if hs != [] { SumAgrees(hs[..|hs| - 1], d, e); }
  }

  lemma {:induction false} SumDec(hs: seq<Node>, d: Degrees, h: Node)
    requires Distinct(hs) && Host(|d|, h)
    ensures SumOver(hs, Dec(d, h)) == SumOver(hs, d) - (if h in hs then 1 else 0)
  {
    if hs != [] {
      SumDec(hs[..|hs| - 1], d, h);
      assert hs == hs[..|hs| - 1] + [hs[|hs| - 1]];
    }
  }

  /** Bounds on every entry bound the sum. */
  lemma {:induction false} SumBounds(hs: seq<Node>, d: Degrees, lo: int, hi: int)
    requires forall h | h in hs :: lo <= At(d, h) <= hi
    ensures |hs| * lo <= SumOver(hs, d) <= |hs| * hi
  {
    if hs != [] {
      SumBounds(hs[..|hs| - 1], d, lo, hi);
      assert |hs| * lo == (|hs| - 1) * lo + lo && |hs| * hi == (|hs| - 1) * hi + hi;
    }
  }

  // ---------- switches ----------

  /** switch_hosts: the host sets of s0, s1, ... in creation order. */
  type Switches = seq<set<Node>>

  /** How many switches a host is attached to: its real degree. */
  function Load(sws: Switches, h: Node): nat {
    if sws == [] then 0 else Load(sws[..|sws| - 1], h) + (if h in sws[|sws| - 1] then 1 else 0)
  }

  lemma LoadSnoc(sws: Switches, s: set<Node>, h: Node)
    ensures Load(sws + [s], h) == Load(sws, h) + if h in s then 1 else 0
  {
    assert (sws + [s])[..|sws|] == sws;
  }

  lemma {:induction false} LoadUpdate(sws: Switches, i: nat, s: set<Node>, h: Node)
    requires i < |sws|
    ensures Load(sws[i := s], h) == Load(sws, h) - (if h in sws[i] then 1 else 0) + (if h in s then 1 else 0)
  {
    if i == |sws| - 1 {
      assert sws[i := s][..i] == sws[..i];
    } else {
      LoadUpdate(sws[..|sws| - 1], i, s, h);
      assert sws[i := s][..|sws| - 1] == sws[..|sws| - 1][i := s];
    }
  }

  /** Every switch holds only real hosts, at least one and at most `cap` of them. */
  ghost predicate WithinCapacity(sws: Switches, n: nat, cap: nat) {
    forall i | 0 <= i < |sws| :: 0 < |sws[i]| <= cap && forall h | h in sws[i] :: Host(n, h)
  }

  /** No host is attached more often than its degree budget has been spent. */
  ghost predicate WithinBudget(sws: Switches, drawn: Degrees, left: Degrees) {
    |drawn| == |left| && forall h | Host(|drawn|, h) :: 0 <= At(left, h) && Load(sws, h) + At(left, h) <= At(drawn, h)
  }

  ghost predicate Meet(sws: Switches, a: Node, b: Node) {
    exists i :: 0 <= i < |sws| && a in sws[i] && b in sws[i]
  }

  /** The host graph: two hosts are neighbours when they share a switch. */
  ghost function HostGraph(sws: Switches, n: nat): Graph {
    map h: Node | h in Elements(Range(n)) :: set k | k in Elements(Range(n)) && k != h && Meet(sws, h, k)
  }

  ghost predicate AllConnected(sws: Switches, n: nat) {
    forall a, b | Host(n, a) && Host(n, b) :: Reachable(HostGraph(sws, n), a, b)
  }

  lemma MeetNeighbors(sws: Switches, n: nat, a: Node, b: Node)
    requires Host(n, a) && Host(n, b) && a != b && Meet(sws, a, b)
    ensures b in Neighbors(HostGraph(sws, n), a)
  {
    InRange(n, a);
    InRange(n, b);
  }

  /** Switches that only gain hosts keep hosts reachable. */
  lemma ReachableGrows(sws: Switches, more: Switches, n: nat, a: Node, b: Node)
    requires Reachable(HostGraph(sws, n), a, b)
    requires |sws| <= |more| && forall i | 0 <= i < |sws| :: sws[i] <= more[i]
    ensures Reachable(HostGraph(more, n), a, b)
  {
    var p :| Walk(HostGraph(sws, n), a, b, p);
    forall i | 0 <= i < |p| - 1 ensures p[i + 1] in Neighbors(HostGraph(more, n), p[i]) {
      assert p[i + 1] in Neighbors(HostGraph(sws, n), p[i]);
      var j :| 0 <= j < |sws| && p[i] in sws[j] && p[i + 1] in sws[j];
      assert p[i] in more[j] && p[i + 1] in more[j];
    }
    assert Walk(HostGraph(more, n), a, b, p);
  }

  lemma HostGraphSymmetric(sws: Switches, n: nat)
    ensures Symmetric(HostGraph(sws, n))
  {
  }

  lemma ReachableTrans(g: Graph, a: Node, b: Node, c: Node)
    requires Reachable(g, a, b) && Reachable(g, b, c)
    ensures Reachable(g, a, c)
  {
    var p :| Walk(g, a, b, p);
    var q :| Walk(g, b, c, q);
    Join(g, UnitWeight(), a, b, c, p, q);
  }

  lemma ReachableSym(g: Graph, a: Node, b: Node)
    requires Symmetric(g) && Reachable(g, a, b)
    ensures Reachable(g, b, a)
  {
    var p :| Walk(g, a, b, p);
    ReverseWalk(g, UnitWeight(), a, b, p);
  }

  /** Everyone reachable from one hub means everyone reachable from everyone. */
  lemma HubConnects(sws: Switches, n: nat, hub: Node)
    requires forall h | Host(n, h) :: Reachable(HostGraph(sws, n), hub, h)
    ensures AllConnected(sws, n)
  {
    hide Reachable, HostGraph;
    HostGraphSymmetric(sws, n);
    forall a, b | Host(n, a) && Host(n, b) ensures Reachable(HostGraph(sws, n), a, b) {
      ReachableSym(HostGraph(sws, n), hub, a);
      ReachableTrans(HostGraph(sws, n), a, hub, b);
    }
  }
}
