/** The spanning phase of MeshTopo.build: a tree within the drawn degrees. */
module MeshTree {
  import opened Ordering
  import opened Paths
  import opened Wrappers
  import opened MeshBase

  function ByDegree(d: Degrees): (Node, Node) -> bool {
    (a, b) => At(d, a) >= At(d, b)
  }

  lemma DegreeOrder(d: Degrees)
    ensures TotalPreorder(ByDegree(d))
  {
  }

  /** Entry i has the largest residual degree, and is the first that has it. */
  predicate FirstLargest(c: seq<Node>, d: Degrees, i: nat) {
    && i < |c| && (forall j | 0 <= j < i :: At(d, c[j]) < At(d, c[i]))
    && (forall j | i <= j < |c| :: At(d, c[j]) <= At(d, c[i]))
  }

  /** The first entry of largest residual degree. */
  ghost predicate BestOf(c: seq<Node>, d: Degrees, p: Node) {
    exists i: nat :: FirstLargest(c, d, i) && c[i] == p
  }

  lemma SortSnoc(d: Degrees, c: seq<Node>, x: Node)
    requires TotalPreorder(ByDegree(d))
    ensures var t := Sort(ByDegree(d), c);
            Sort(ByDegree(d), c + [x]) != [] && Sort(ByDegree(d), c + [x])[0] == if t == [] || At(d, t[0]) < At(d, x) then x else t[0]
  {
    hide TotalPreorder, At, Ordered;
    assert (c + [x])[..|c + [x]| - 1] == c;
    var t := Sort(ByDegree(d), c);
    assert Sort(ByDegree(d), c + [x]) == Push(ByDegree(d), t, x);
    hide Sort;
    PushHead(d, t, x);
  }

  lemma PushHead(d: Degrees, t: seq<Node>, x: Node)
    requires TotalPreorder(ByDegree(d)) && Ordered(ByDegree(d), t)
    ensures Push(ByDegree(d), t, x) != [] && Push(ByDegree(d), t, x)[0] == if t == [] || At(d, t[0]) < At(d, x) then x else t[0]
  {
    hide TotalPreorder, At, Ordered;
  }

  /** The sort is stable: its head is the first of the largest. */
  lemma {:induction false} SortHead(d: Degrees, c: seq<Node>) returns (i: nat)
    requires c != [] && TotalPreorder(ByDegree(d))
    ensures FirstLargest(c, d, i) && Sort(ByDegree(d), c) != [] && Sort(ByDegree(d), c)[0] == c[i]
  {
    hide Sort, TotalPreorder, At, Ordered;
    var n := |c| - 1;
    assert c == c[..n] + [c[n]];
    SortSnoc(d, c[..n], c[n]);
    if n == 0 {
      i := 0;
    } else {
      i := SortHead(d, c[..n]);
      if At(d, c[i]) < At(d, c[n]) { i := n; }
    }
  }

  lemma HeadLargest(d: Degrees, c: seq<Node>, i: nat)
    requires Ordered(ByDegree(d), c) && i < |c|
    ensures At(d, c[0]) >= At(d, c[i])
  {
    if i > 0 { assert ByDegree(d)(c[0], c[i]); }
  }

  lemma SortedLargest(d: Degrees, c: seq<Node>)
    requires TotalPreorder(ByDegree(d))
    ensures var q := Sort(ByDegree(d), c); q != [] ==> BestOf(c, d, q[0]) && q[0] in c && forall x | x in c :: At(d, x) <= At(d, q[0])
  {
    hide TotalPreorder, At, Sort, Ordered;
    if c != [] {
      var i := SortHead(d, c);
      assert c[i] in c;
    }
  }

  lemma LargestFirst(d: Degrees, c: seq<Node>, i: nat)
    requires TotalPreorder(ByDegree(d)) && i < |Sort(ByDegree(d), c)|
    ensures At(d, Sort(ByDegree(d), c)[i]) <= At(d, Sort(ByDegree(d), c)[0])
  {
    hide TotalPreorder, At, Sort;
    HeadLargest(d, Sort(ByDegree(d), c), i);
  }

  /** The first candidate, by descending residual degree, that has budget left. */
  method PickPartner(connected: seq<Node>, d: Degrees, host: Node) returns (partner: Option<Node>)
    requires forall c | c in connected :: Host(|d|, c)
    ensures partner.None? <==> (At(d, host) <= 0 || forall c | c in connected :: At(d, c) <= 0)
    ensures partner.Some? ==> partner.value in connected && At(d, partner.value) > 0
                              && (forall c | c in connected :: At(d, c) <= At(d, partner.value))
                              && At(d, host) > 0 && BestOf(connected, d, partner.value)
  {
    hide TotalPreorder, BestOf, Sort, Ordered, At;
    DegreeOrder(d);
    var candidates := Sort(ByDegree(d), connected);
    SortedLargest(d, connected);
    for i := 0 to |candidates|
      invariant forall c | c in candidates[..i] :: At(d, c) <= 0 || At(d, host) <= 0
      invariant i > 0 ==> At(d, candidates[0]) <= 0 || At(d, host) <= 0
    {
      var cand := candidates[i];
      assert candidates[..i + 1] == candidates[..i] + [cand];
      LargestFirst(d, connected, i);
      if At(d, cand) > 0 && At(d, host) > 0 {
        return Some(cand);
      }
    }
    assert candidates[..|candidates|] == candidates;
    return None;
  }

  /** The first switch with room for the new host that already holds the partner. */
  method PickSwitch(sws: Switches, capacity: nat, partner: Node) returns (sw: Option<nat>)
    ensures sw.Some? ==> sw.value < |sws| && |sws[sw.value]| + 2 <= capacity && partner in sws[sw.value]
                         && forall j | 0 <= j < sw.value :: |sws[j]| + 2 > capacity || partner !in sws[j]
    ensures sw.None? ==> forall i | 0 <= i < |sws| :: |sws[i]| + 2 > capacity || partner !in sws[i]
  {
    for i := 0 to |sws|
      invariant forall j | 0 <= j < i :: |sws[j]| + 2 > capacity || partner !in sws[j]
    {
      if |sws[i]| + 2 <= capacity && partner in sws[i] {
        return Some(i);
      }
    }
    return None;
  }

  /** Attach `host` and `partner` to the chosen switch, or to a new one. */
  function Attach(sws: Switches, sw: Option<nat>, host: Node, partner: Node): Switches
    requires sw.Some? ==> sw.value < |sws|
  {
    if sw.Some? then sws[sw.value := sws[sw.value] + {host, partner}] else sws + [{host, partner}]
  }

  lemma AttachAdds(sws: Switches, sw: Option<nat>, host: Node, partner: Node)
    requires sw.Some? ==> sw.value < |sws|
    ensures |Attach(sws, sw, host, partner)| <= |sws| + 1
  {
  }

  // ---------- the run of the loop ----------

  /** What one host finds when it joins, and the partner it takes. */
  datatype Step = Step(sws: Switches, left: Degrees, partner: Node)

  predicate Roomy(sws: Switches, capacity: nat, partner: Node, i: nat) {
    i < |sws| && |sws[i]| + 2 <= capacity && partner in sws[i]
  }

  predicate FirstRoomy(sws: Switches, capacity: nat, partner: Node, i: nat) {
    Roomy(sws, capacity, partner, i) && forall j: nat | j < i :: !Roomy(sws, capacity, partner, j)
  }

  /** `host` and its partner meet on the partner's first switch with room for two, or
      on a new one where there is none, and each spends one degree. */
  ghost predicate StepOk(connected: seq<Node>, host: Node, capacity: nat, s: Step, sws: Switches, left: Degrees) {
    && BestOf(connected, s.left, s.partner)
    && At(s.left, s.partner) > 0 && At(s.left, host) > 0 && host as int < |s.left| && s.partner != host
    && left == s.left[host as int := At(s.left, host) - 1][s.partner as int := At(s.left, s.partner) - 1]
    && (forall i: nat | FirstRoomy(s.sws, capacity, s.partner, i) :: sws == s.sws[i := s.sws[i] + {host, s.partner}])
    && ((forall i: nat :: !Roomy(s.sws, capacity, s.partner, i)) ==> sws == s.sws + [{host, s.partner}])
  }

  /** The hosts join in the given order, from no switch and the full degrees on. */
  ghost predicate TreeRun(order: seq<Node>, drawn: Degrees, capacity: nat, steps: seq<Step>, sws: Switches, left: Degrees) {
    && |steps| + 1 <= |order|
    && (if steps == [] then sws == [] && left == drawn else steps[0].sws == [] && steps[0].left == drawn)
    && forall i | 0 <= i < |steps| ::
         if i + 1 < |steps| then StepOk(order[..i + 1], order[i + 1], capacity, steps[i], steps[i + 1].sws, steps[i + 1].left)
         else StepOk(order[..i + 1], order[i + 1], capacity, steps[i], sws, left)
  }

  lemma RunStarts(order: seq<Node>, drawn: Degrees, capacity: nat)
    requires order != []
    ensures TreeRun(order, drawn, capacity, [], [], drawn)
  {
  }

  lemma RunGrows(order: seq<Node>, drawn: Degrees, capacity: nat, steps: seq<Step>, sws: Switches, left: Degrees,
                 partner: Node, sws': Switches, left': Degrees)
    requires TreeRun(order, drawn, capacity, steps, sws, left) && |steps| + 1 < |order|
    requires StepOk(order[..|steps| + 1], order[|steps| + 1], capacity, Step(sws, left, partner), sws', left')
    ensures TreeRun(order, drawn, capacity, steps + [Step(sws, left, partner)], sws', left')
  {
    hide StepOk;
    var more := steps + [Step(sws, left, partner)];
    forall i | 0 <= i < |more|
      ensures if i + 1 < |more| then StepOk(order[..i + 1], order[i + 1], capacity, more[i], more[i + 1].sws, more[i + 1].left)
              else StepOk(order[..i + 1], order[i + 1], capacity, more[i], sws', left')
    {
      if i < |steps| { assert more[i] == steps[i]; }
    }
  }

  /** The loop body does such a step. */
  lemma BodyIsStep(connected: seq<Node>, host: Node, capacity: nat, sws: Switches, left: Degrees, partner: Node, chosen: Option<nat>)
    requires Host(|left|, host) && Host(|left|, partner) && partner != host && At(left, host) > 0 && At(left, partner) > 0
    requires BestOf(connected, left, partner)
    requires chosen.Some? ==> FirstRoomy(sws, capacity, partner, chosen.value)
    requires chosen.None? ==> forall i: nat :: !Roomy(sws, capacity, partner, i)
    ensures StepOk(connected, host, capacity, Step(sws, left, partner), Attach(sws, chosen, host, partner), Dec(Dec(left, host), partner))
  {
    hide BestOf;
    if chosen.Some? {
      forall i: nat | FirstRoomy(sws, capacity, partner, i) ensures i == chosen.value {
        OneFirstRoomy(sws, capacity, partner, i, chosen.value);
      }
    }
  }

  lemma OneFirstRoomy(sws: Switches, capacity: nat, partner: Node, i: nat, j: nat)
    requires FirstRoomy(sws, capacity, partner, i) && FirstRoomy(sws, capacity, partner, j)
    ensures i == j
  {
    hide Roomy;
  }

  // ---------- the invariant ----------

  /** The processing order: all hosts, by descending drawn degree. */
  ghost predicate OrderOk(order: seq<Node>, drawn: Degrees) {
    && multiset(order) == multiset(Range(|drawn|)) && Distinct(order)
    && (forall h :: h in order <==> Host(|drawn|, h))
    && (forall i, j | 0 <= i < j < |order| :: At(drawn, order[i]) >= At(drawn, order[j]))
    && (forall h | h in order :: At(drawn, h) >= 1)
  }

  /** After `j` hosts are in the tree. */
  ghost predicate Growing(order: seq<Node>, drawn: Degrees, left: Degrees, sws: Switches, capacity: nat, j: nat) {
    && 1 <= j <= |order| && |left| == |drawn|
    && SumOver(order, left) == SumOver(order, drawn) - 2 * (j - 1)
    && (forall h | h in order[j..] :: At(left, h) == At(drawn, h))
    && WithinBudget(sws, drawn, left) && WithinCapacity(sws, |drawn|, capacity)
    && (forall h | h in order[..j] :: Reachable(HostGraph(sws, |drawn|), order[0], h))
  }

  lemma PermutationDistinct(order: seq<Node>, base: seq<Node>)
    requires multiset(order) == multiset(base) && Distinct(base)
    ensures Distinct(order) && forall h :: h in order <==> h in base
  {
    forall h ensures h in order <==> h in base {
      assert h in multiset(order) <==> h in multiset(base);
    }
    forall i, j | 0 <= i < j < |order| ensures order[i] != order[j] {
      if order[i] == order[j] {
        var h := order[i];
        assert order == order[..i] + [h] + order[i + 1..j] + [h] + order[j + 1..];
        assert multiset(order)[h] >= 2;
        OnceOnly(base, h);
      }
    }
  }

  lemma {:induction false} OnceOnly(base: seq<Node>, h: Node)
    requires Distinct(base)
    ensures multiset(base)[h] <= 1
  {
    if base != [] {
      var front, last := base[..|base| - 1], base[|base| - 1];
      assert base == front + [last];
      OnceOnly(front, h);
      if last == h { assert h !in front && multiset(front)[h] == 0; }
    }
  }

  lemma Sorted0(drawn: Degrees, shuffled: seq<Node>, order: seq<Node>)
    requires forall h | Host(|drawn|, h) :: At(drawn, h) >= 1
    requires multiset(shuffled) == multiset(Range(|drawn|)) && multiset(order) == multiset(shuffled)
    requires Ordered(ByDegree(drawn), order)
    ensures OrderOk(order, drawn) && |order| == |drawn|
  {
    RangeHosts(|drawn|);
    PermutationDistinct(order, Range(|drawn|));
    assert |order| == |multiset(order)| == |multiset(Range(|drawn|))|;
    forall i, j | 0 <= i < j < |order| ensures At(drawn, order[i]) >= At(drawn, order[j]) {
      assert ByDegree(drawn)(order[i], order[j]);
    }
  }

  lemma TreeStart(order: seq<Node>, drawn: Degrees, capacity: nat)
    requires OrderOk(order, drawn) && order != []
    ensures Growing(order, drawn, drawn, [], capacity, 1)
  {
    var g := HostGraph([], |drawn|);
    assert Walk(g, order[0], order[0], [order[0]]);
    assert order[..1] == [order[0]];
    assert forall h | Host(|drawn|, h) :: h in order;
  }

  /** One host joins through a partner with budget left. */
  lemma TreeStep(order: seq<Node>, drawn: Degrees, left: Degrees, sws: Switches, capacity: nat, j: nat,
                 partner: Node, sw: Option<nat>)
    requires OrderOk(order, drawn) && Growing(order, drawn, left, sws, capacity, j) && j < |order|
    requires partner in order[..j] && At(left, partner) > 0 && capacity >= 2
    requires sw.Some? ==> sw.value < |sws| && |sws[sw.value]| + 2 <= capacity && partner in sws[sw.value]
    ensures Host(|left|, order[j]) && Host(|left|, partner)
    ensures Growing(order, drawn, Dec(Dec(left, order[j]), partner), Attach(sws, sw, order[j], partner), capacity, j + 1)
  {
    var host := order[j];
    var left' := Dec(Dec(left, host), partner);
    var sws' := Attach(sws, sw, host, partner);
    hide WithinBudget, WithinCapacity, Reachable, HostGraph, OrderOk, Distinct;
    OrderAt(order, drawn, j, partner);
    StepSum(order, drawn, left, j, partner);
    StepBudget(drawn, left, sws, host, partner, sw);
    AttachCapacity(sws, sw, host, partner, |drawn|, capacity);
    StepHub(order, sws, sw, |drawn|, j, partner);
    hide Dec, Attach;
  }

  lemma StepHub(order: seq<Node>, sws: Switches, sw: Option<nat>, n: nat, j: nat, partner: Node)
    requires j < |order| && partner in order[..j] && Host(n, order[j]) && Host(n, partner) && order[j] != partner
    requires sw.Some? ==> sw.value < |sws|
    requires forall h | h in order[..j] :: Reachable(HostGraph(sws, n), order[0], h)
    ensures forall h | h in order[..j + 1] :: Reachable(HostGraph(Attach(sws, sw, order[j], partner), n), order[0], h)
  {
    hide Reachable, HostGraph, Attach;
    assert order[..j + 1] == order[..j] + [order[j]];
    forall h | h in order[..j + 1] ensures Reachable(HostGraph(Attach(sws, sw, order[j], partner), n), order[0], h) {
      StepReach(sws, sw, n, order[0], order[j], partner, if h == order[j] then partner else h);
    }
  }

  lemma OrderAt(order: seq<Node>, drawn: Degrees, j: nat, partner: Node)
    requires OrderOk(order, drawn) && j < |order| && partner in order[..j]
    ensures Distinct(order) && order[j] in order[j..] && order[j] != partner
    ensures Host(|drawn|, order[j]) && Host(|drawn|, partner) && At(drawn, order[j]) >= 1
  {
    assert order[j] in order && partner in order;
  }

  lemma StepSum(order: seq<Node>, drawn: Degrees, left: Degrees, j: nat, partner: Node)
    requires Distinct(order) && j < |order| && |left| == |drawn|
    requires Host(|left|, order[j]) && Host(|left|, partner) && partner in order[..j]
    requires forall h | h in order[j..] :: At(left, h) == At(drawn, h)
    ensures var left' := Dec(Dec(left, order[j]), partner);
            SumOver(order, left') == SumOver(order, left) - 2 && forall h | h in order[j + 1..] :: At(left', h) == At(drawn, h)
  {
    SumDec(order, left, order[j]);
    SumDec(order, Dec(left, order[j]), partner);
    forall h | h in order[j + 1..] ensures h in order[j..] && h != order[j] && h != partner {
      var i :| 0 <= i < |order[j + 1..]| && order[j + 1..][i] == h;
      assert order[j + 1 + i] == h && h == order[j..][1 + i];
    }
  }

  lemma StepBudget(drawn: Degrees, left: Degrees, sws: Switches, host: Node, partner: Node, sw: Option<nat>)
    requires WithinBudget(sws, drawn, left) && host != partner && Host(|drawn|, host) && Host(|drawn|, partner)
    requires At(left, host) > 0 && At(left, partner) > 0
    requires sw.Some? ==> sw.value < |sws| && partner in sws[sw.value]
    ensures WithinBudget(Attach(sws, sw, host, partner), drawn, Dec(Dec(left, host), partner))
  {
    forall h | Host(|drawn|, h)
      ensures Load(Attach(sws, sw, host, partner), h) + At(Dec(Dec(left, host), partner), h) <= At(drawn, h)
    {
      AttachLoad(sws, sw, host, partner, h);
    }
  }

  lemma StepReach(sws: Switches, sw: Option<nat>, n: nat, hub: Node, host: Node, partner: Node, via: Node)
    requires Host(n, host) && Host(n, partner) && host != partner
    requires sw.Some? ==> sw.value < |sws|
    requires Reachable(HostGraph(sws, n), hub, via)
    ensures Reachable(HostGraph(Attach(sws, sw, host, partner), n), hub, via)
    ensures via == partner ==> Reachable(HostGraph(Attach(sws, sw, host, partner), n), hub, host)
  {
    var sws' := Attach(sws, sw, host, partner);
    ReachableGrows(sws, sws', n, hub, via);
    if via == partner {
      AttachMeets(sws, sw, host, partner);
      MeetNeighbors(sws', n, partner, host);
      hide HostGraph;
      var p :| Walk(HostGraph(sws', n), hub, partner, p);
      ExtendWalk(HostGraph(sws', n), UnitWeight(), hub, p, host);
    }
  }

  lemma AttachLoad(sws: Switches, sw: Option<nat>, host: Node, partner: Node, h: Node)
    requires sw.Some? ==> sw.value < |sws| && partner in sws[sw.value]
    ensures Load(Attach(sws, sw, host, partner), h) <= Load(sws, h) + if h == host || h == partner then 1 else 0
  {
    if sw.Some? {
      LoadUpdate(sws, sw.value, sws[sw.value] + {host, partner}, h);
    } else {
      LoadSnoc(sws, {host, partner}, h);
    }
  }

  lemma AttachCapacity(sws: Switches, sw: Option<nat>, host: Node, partner: Node, n: nat, capacity: nat)
    requires WithinCapacity(sws, n, capacity) && Host(n, host) && Host(n, partner) && capacity >= 2
    requires sw.Some? ==> sw.value < |sws| && |sws[sw.value]| + 2 <= capacity
    ensures WithinCapacity(Attach(sws, sw, host, partner), n, capacity)
  {
    if sw.Some? {
      var s := sws[sw.value];
      assert s + {host, partner} == (s + {host}) + {partner};
      assert |s + {host}| <= |s| + 1;
    }
  }

  lemma AttachMeets(sws: Switches, sw: Option<nat>, host: Node, partner: Node)
    requires sw.Some? ==> sw.value < |sws|
    ensures Meet(Attach(sws, sw, host, partner), partner, host)
  {
    var sws' := Attach(sws, sw, host, partner);
    var i := if sw.Some? then sw.value else |sws|;
    assert host in sws'[i] && partner in sws'[i];
  }

  /** No budget left in the tree although a host remains: the draw was too small. */
  lemma Stuck(order: seq<Node>, drawn: Degrees, left: Degrees, sws: Switches, capacity: nat, j: nat)
    requires OrderOk(order, drawn) && Growing(order, drawn, left, sws, capacity, j) && j < |order|
    requires At(left, order[j]) <= 0 || forall c | c in order[..j] :: At(left, c) <= 0
    ensures SumOver(order, drawn) < 2 * (|order| - 1)
  {
    hide Reachable, HostGraph, WithinCapacity;
    var rest, tree := order[j..], order[..j];
    assert order[j] in rest && order == tree + rest;
    assert forall c | c in tree :: c in order;
    assert forall c | c in rest :: c in order;
    SumSplit(tree, rest, left);
    SumSplit(tree, rest, drawn);
    SumAgrees(rest, left, drawn);
    SumBounds(tree, left, 0, 0);
    assert SumOver(tree, drawn) == 2 * (j - 1);
    if forall c | c in tree :: At(drawn, c) >= 2 {
      SumAtLeast(tree, drawn, 2);
    } else {
      var c :| c in tree && At(drawn, c) < 2;
      forall h | h in rest ensures 1 <= At(drawn, h) <= 1 {
        Later(order, drawn, j, c, h);
      }
      SumBounds(rest, drawn, 1, 1);
    }
  }

  lemma {:induction false} SumAtLeast(hs: seq<Node>, d: Degrees, lo: int)
    requires forall h | h in hs :: At(d, h) >= lo
    ensures SumOver(hs, d) >= lo * |hs|
  {
    if hs != [] {
      SumAtLeast(hs[..|hs| - 1], d, lo);
      assert lo * |hs| == lo * (|hs| - 1) + lo;
    }
  }

  lemma Later(order: seq<Node>, drawn: Degrees, j: nat, c: Node, h: Node)
    requires OrderOk(order, drawn) && j <= |order| && c in order[..j] && h in order[j..]
    ensures 1 <= At(drawn, h) <= At(drawn, c)
  {
    var i :| 0 <= i < j && order[i] == c;
    var k :| 0 <= k < |order[j..]| && order[j..][k] == h;
    assert order[j + k] == h && h in order;
  }

  lemma TreeDone(order: seq<Node>, drawn: Degrees, left: Degrees, sws: Switches, capacity: nat)
    requires OrderOk(order, drawn) && Growing(order, drawn, left, sws, capacity, |order|)
    ensures SumOver(order, drawn) >= 2 * (|order| - 1)
    ensures AllConnected(sws, |drawn|)
    ensures WithinBudget(sws, drawn, left) && WithinCapacity(sws, |drawn|, capacity)
    ensures Total(left) == SumOver(order, drawn) - 2 * (|order| - 1)
  {
    hide Reachable, HostGraph, WithinCapacity;
    SumPermuted(order, Range(|left|), left);
    assert order[..|order|] == order;
    assert forall h | h in order :: At(left, h) >= 0;
    SumAtLeast(order, left, 0);
    HubConnects(sws, |drawn|, order[0]);
  }

  /** A shuffle, then a sort by descending drawn degree. */
  method HostOrder(drawn: Degrees) returns (order: seq<Node>)
    requires forall h | Host(|drawn|, h) :: At(drawn, h) >= 1
    ensures OrderOk(order, drawn) && |order| == |drawn| && SumOver(order, drawn) == Total(drawn)
  {
    hide OrderOk, TotalPreorder, SumOver, Ordered;
    var shuffled := Shuffle(Range(|drawn|));
    DegreeOrder(drawn);
    order := Sort(ByDegree(drawn), shuffled);
    Sorted0(drawn, shuffled, order);
    SumPermuted(order, Range(|drawn|), drawn);
  }

  /** Builds the tree, or reports that no tree fits the drawn degrees: exactly
      when they sum to less than 2 * (hosts - 1). The tree spends two degrees for each
      host but the first, and adds at most one switch for it; `order` and `steps` are
      its run. */
  method SpanningTree(drawn: Degrees, capacity: nat)
    returns (built: bool, left: Degrees, sws: Switches, ghost order: seq<Node>, ghost steps: seq<Step>)
    requires |drawn| >= 1 && (|drawn| >= 2 ==> capacity >= 2)
    requires forall h | Host(|drawn|, h) :: At(drawn, h) >= 1
    ensures built <==> Total(drawn) >= 2 * (|drawn| - 1)
    ensures built ==> AllConnected(sws, |drawn|) && WithinBudget(sws, drawn, left) && WithinCapacity(sws, |drawn|, capacity)
    ensures OrderOk(order, drawn) && TreeRun(order, drawn, capacity, steps, sws, left) && (built ==> |steps| + 1 == |order|)
    ensures built ==> |sws| <= |drawn| - 1 && Total(left) == Total(drawn) - 2 * (|drawn| - 1)
  {
    hide OrderOk, Growing, AllConnected, WithinBudget, WithinCapacity, SumOver, Total, Attach, TreeRun, StepOk, BestOf;
    var hostOrder := HostOrder(drawn);
    TreeStart(hostOrder, drawn, capacity);
    left, sws, order, steps := drawn, [], hostOrder, [];
    RunStarts(order, drawn, capacity);
    for j := 1 to |hostOrder|
      invariant Growing(hostOrder, drawn, left, sws, capacity, j) && |left| == |drawn| && |sws| <= j - 1
      invariant order == hostOrder && TreeRun(order, drawn, capacity, steps, sws, left) && |steps| == j - 1
    {
      var host, connected := hostOrder[j], hostOrder[..j];
      ConnectedAreHosts(hostOrder, drawn, j);
      var partner := PickPartner(connected, left, host);
      if partner.None? {
        Stuck(hostOrder, drawn, left, sws, capacity, j);
        return false, left, sws, order, steps;
      }
      var chosen := PickSwitch(sws, capacity, partner.value);
      TreeStep(hostOrder, drawn, left, sws, capacity, j, partner.value, chosen);
      AttachAdds(sws, chosen, host, partner.value);
      OrderAt(hostOrder, drawn, j, partner.value);
      BodyIsStep(connected, host, capacity, sws, left, partner.value, chosen);
      RunGrows(order, drawn, capacity, steps, sws, left, partner.value, Attach(sws, chosen, host, partner.value), Dec(Dec(left, host), partner.value));
      steps := steps + [Step(sws, left, partner.value)];
      sws := Attach(sws, chosen, host, partner.value);
      left := Dec(Dec(left, host), partner.value);
    }
    TreeDone(hostOrder, drawn, left, sws, capacity);
    return true, left, sws, order, steps;
  }

  lemma ConnectedAreHosts(order: seq<Node>, drawn: Degrees, j: nat)
    requires OrderOk(order, drawn) && j <= |order|
    ensures forall c | c in order[..j] :: Host(|drawn|, c)
  {
    forall c | c in order[..j] ensures c in order {
    }
  }
}
