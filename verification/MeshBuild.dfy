/** The remaining phases of MeshTopo.build (leftover packing, extra switches,
    link records) and ExplicitLinksTopo.build. */
module MeshBuild {
  import opened Ordering
  import opened Paths
  import opened Wrappers
  import opened MeshBase
  import opened MeshTree
  import opened Topology

  // ---------- leftover degrees ----------

  /** [h for h in hs if degrees[h] > 0] */
  function Positive(hs: seq<Node>, d: Degrees): (r: seq<Node>)
    ensures forall h :: h in r <==> h in hs && At(d, h) > 0
    ensures Distinct(hs) ==> Distinct(r)
  {
    if hs == [] then []
    else
      var t := Positive(hs[..|hs| - 1], d);
      assert hs == hs[..|hs| - 1] + [hs[|hs| - 1]];
      if At(d, hs[|hs| - 1]) > 0 then t + [hs[|hs| - 1]] else t
  }

  ghost predicate SpentOn(d: Degrees, members: set<Node>, left: Degrees) {
    |left| == |d| && forall h :: At(left, h) == At(d, h) - if h in members then 1 else 0
  }

  /** Fill one new switch from the shuffled hosts that have budget left. */
  method FillSwitch(hs: seq<Node>, d: Degrees, capacity: nat) returns (members: set<Node>, left: Degrees)
    requires Distinct(hs) && forall h | h in hs :: Host(|d|, h) && At(d, h) > 0
    requires hs != [] && capacity > 0
    ensures members <= Elements(hs) && |members| == if capacity < |hs| then capacity else |hs|
    ensures SpentOn(d, members, left) && Total(left) == Total(d) - |members|
  {
    hide Total, SpentOn, Distinct, At;
    members, left := {}, d;
    NothingSpent(d);
    var capLeft := capacity;
    for i := 0 to |hs|
      invariant members <= Elements(hs[..i]) && |members| == i && i + capLeft == capacity && capLeft > 0
      invariant SpentOn(d, members, left) && Total(left) == Total(d) - |members|
    {
      var host := hs[i];
      assert hs[..i + 1] == hs[..i] + [host];
      FillOne(hs, d, members, left, i);
      if At(left, host) > 0 && capLeft > 0 {
        TotalDec(left, host);
        members := members + {host};
        left := Dec(left, host);
        capLeft := capLeft - 1;
      }
      if capLeft == 0 {
        assert forall h | h in hs[..i + 1] :: h in hs;
        return;
      }
    }
    assert hs[..|hs|] == hs;
  }

  lemma NothingSpent(d: Degrees)
    ensures SpentOn(d, {}, d)
  {
  }

  lemma FillOne(hs: seq<Node>, d: Degrees, members: set<Node>, left: Degrees, i: nat)
    requires Distinct(hs) && i < |hs| && members <= Elements(hs[..i]) && SpentOn(d, members, left)
    requires forall h | h in hs :: Host(|d|, h) && At(d, h) > 0
    ensures hs[i] !in members && Host(|left|, hs[i]) && At(left, hs[i]) > 0
    ensures SpentOn(d, members + {hs[i]}, Dec(left, hs[i]))
  {
    assert hs[i] in hs;
  }

  lemma TotalDec(d: Degrees, h: Node)
    requires Host(|d|, h)
    ensures Total(Dec(d, h)) == Total(d) - 1
  {
    RangeHosts(|d|);
    SumDec(Range(|d|), d, h);
  }

  /** Every remaining degree becomes one attachment to a new switch. */
  ghost predicate Spends(sws: Switches, d: Degrees, more: Switches, left: Degrees) {
    && |left| == |d| && sws <= more
    && forall h | Host(|d|, h) :: At(left, h) >= 0 && Load(more, h) + At(left, h) == Load(sws, h) + At(d, h)
  }

  /** The hosts with budget left after the switches `added`. */
  ghost function Needy(d: Degrees, added: Switches): set<Node> {
    set h | h in AllHosts(|d|) && At(d, h) > Load(added, h)
  }

  /** Each added switch holds hosts with budget left: `capacity` of them, or all. */
  ghost predicate Packing(d: Degrees, added: Switches, capacity: nat) {
    forall i | 0 <= i < |added| :: FilledUp(added[i], Needy(d, added[..i]), capacity)
  }

  predicate FilledUp(s: set<Node>, needy: set<Node>, capacity: nat) {
    s != {} && s <= needy && |s| <= capacity && (|s| == capacity || s == needy)
  }

  /** Packs what is left of the degrees, `top` at most for each host: full switches
      first, as long as `capacity` hosts have budget, so their number is bounded. */
  method PackLeftovers(d: Degrees, sws0: Switches, capacity: nat, ghost top: nat) returns (sws: Switches, ghost left: Degrees)
    requires capacity > 0 && WithinCapacity(sws0, |d|, capacity)
    requires forall h | Host(|d|, h) :: 0 <= At(d, h) <= top
    ensures WithinCapacity(sws, |d|, capacity)
    ensures Spends(sws0, d, sws, left) && forall h | Host(|d|, h) :: At(left, h) == 0
    ensures |sws| >= |sws0| && sws[..|sws0|] == sws0 && Packing(d, sws[|sws0|..], capacity)
    ensures |sws| - |sws0| <= Total(d) && capacity * (|sws| - |sws0|) <= Total(d) + (capacity - 1) * top
  {
    hide Total, PackState, WithinCapacity, Spends, Packing, SpentOn, Distinct, At;
    var degrees := d;
    sws := sws0;
    RangeHosts(|d|);
    PackBegins(sws0, d, capacity, top);
    var hostsWithDeg := Positive(Range(|d|), degrees);
    ghost var added: Switches, max: nat := [], top;
    assert sws0 + added == sws0;
    while hostsWithDeg != []
      invariant |degrees| == |d| && sws == sws0 + added && PackState(sws0, d, added, degrees, capacity, max, top)
      invariant Distinct(hostsWithDeg) && forall h :: h in hostsWithDeg <==> Host(|d|, h) && At(degrees, h) > 0
      decreases Total(degrees)
    {
      var shuffled := Shuffle(hostsWithDeg);
      PermutationDistinct(shuffled, hostsWithDeg);
      ghost var before := degrees;
      var members;
      members, degrees := FillSwitch(shuffled, degrees, capacity);
      PackRound(sws0, d, added, before, shuffled, members, degrees, capacity, max, top);
      if |members| < capacity { max := max - 1; }
      assert sws0 + added + [members] == sws0 + (added + [members]);
      added := added + [members];
      sws := sws + [members];
      hostsWithDeg := Positive(shuffled, degrees);
    }
    PackEnds(sws0, d, added, degrees, capacity, max, top);
    left := degrees;
    assert sws[|sws0|..] == added;
  }

  /** The loop state: `max` bounds what a host has left. */
  ghost predicate PackState(sws0: Switches, d: Degrees, added: Switches, degrees: Degrees, capacity: nat, max: nat, top: nat)
    requires capacity > 0
  {
    && |degrees| == |d| && WithinCapacity(sws0 + added, |d|, capacity) && Spends(sws0, d, sws0 + added, degrees)
    && Packing(d, added, capacity) && Total(degrees) >= 0 && |added| <= Total(d) - Total(degrees)
    && max <= top && (forall h | Host(|d|, h) :: At(degrees, h) <= max)
    && Room(capacity, |added|, Total(d) - Total(degrees), top - max)
  }

  lemma PackBegins(sws0: Switches, d: Degrees, capacity: nat, top: nat)
    requires capacity > 0 && WithinCapacity(sws0, |d|, capacity) && forall h | Host(|d|, h) :: 0 <= At(d, h) <= top
    ensures PackState(sws0, d, [], d, capacity, top, top)
  {
    hide Total, WithinCapacity, Spends, At;
    assert sws0 + [] == sws0;
    PackStart(sws0, d);
  }

  lemma PackRound(sws0: Switches, d: Degrees, added: Switches, before: Degrees, hs: seq<Node>, members: set<Node>, after: Degrees,
                  capacity: nat, max: nat, top: nat)
    requires capacity > 0 && PackState(sws0, d, added, before, capacity, max, top) && Distinct(hs) && hs != []
    requires SpentOn(before, members, after) && Total(after) == Total(before) - |members|
    requires members <= Elements(hs) && |members| == if capacity < |hs| then capacity else |hs|
    requires forall h :: h in hs <==> Host(|d|, h) && At(before, h) > 0
    ensures |after| == |d| && Total(after) >= 0 && members != {}
    ensures |members| < capacity ==> max >= 1
    ensures PackState(sws0, d, added + [members], after, capacity, if |members| < capacity then max - 1 else max, top)
    ensures forall h :: (h in hs && At(after, h) > 0) <==> Host(|d|, h) && At(after, h) > 0
  {
    hide Total, WithinCapacity, Spends, SpentOn, Packing, Room, Distinct, At;
    DistinctCount(hs);
    WholeSet(members, Elements(hs));
    PackStep(sws0, d, sws0 + added, before, members, after, capacity, hs);
    MaxFalls(before, hs, members, after, max, capacity);
    PackMore(sws0, d, added, before, hs, members, capacity);
    RoomStep(capacity, |added|, Total(d) - Total(before), top - max, |members|);
    assert sws0 + added + [members] == sws0 + (added + [members]);
    SameLength(before, members, after);
  }

  lemma SameLength(before: Degrees, members: set<Node>, after: Degrees)
    requires SpentOn(before, members, after)
    ensures |after| == |before|
  {
  }

  lemma PackEnds(sws0: Switches, d: Degrees, added: Switches, left: Degrees, capacity: nat, max: nat, top: nat)
    requires capacity > 0 && PackState(sws0, d, added, left, capacity, max, top)
    requires forall h | Host(|d|, h) :: At(left, h) <= 0
    ensures WithinCapacity(sws0 + added, |d|, capacity) && Spends(sws0, d, sws0 + added, left) && Packing(d, added, capacity)
    ensures forall h | Host(|d|, h) :: At(left, h) == 0
    ensures |added| <= Total(d) && capacity * |added| <= Total(d) + (capacity - 1) * top
  {
    hide Total, WithinCapacity, Spends, Packing, At;
    AllSpent(sws0, d, sws0 + added, left);
    RoomAtEnd(capacity, |added|, Total(d), Total(d) - Total(left), top - max, top);
  }

  /** `n` switches spent `spent` degrees, `falls` of them less than full. */
  predicate Room(capacity: nat, n: nat, spent: int, falls: nat)
    requires capacity > 0
  {
    capacity * n <= spent + (capacity - 1) * falls
  }

  lemma RoomStep(capacity: nat, n: nat, spent: int, falls: nat, size: nat)
    requires capacity > 0 && Room(capacity, n, spent, falls) && 0 < size <= capacity
    ensures Room(capacity, n + 1, spent + size, if size < capacity then falls + 1 else falls)
  {
    assert capacity * (n + 1) == capacity * n + capacity;
    assert (capacity - 1) * (falls + 1) == (capacity - 1) * falls + (capacity - 1);
  }

  lemma RoomAtEnd(capacity: nat, n: nat, total: int, spent: int, falls: nat, top: nat)
    requires capacity > 0 && Room(capacity, n, spent, falls) && spent <= total && falls <= top
    ensures capacity * n <= total + (capacity - 1) * top
  {
    Scales(capacity - 1, falls, top);
  }

  lemma Scales(c: nat, m: int, n: int)
    requires m <= n
    ensures c * m <= c * n
  {
  }

  lemma WholeSet(members: set<Node>, hosts: set<Node>)
    requires members <= hosts
    ensures |members| == |hosts| ==> members == hosts
  {
    assert hosts == members + (hosts - members);
  }

  /** A switch that is not full leaves every host with one degree less to spend. */
  lemma MaxFalls(before: Degrees, hs: seq<Node>, members: set<Node>, after: Degrees, max: nat, capacity: nat)
    requires SpentOn(before, members, after) && hs != []
    requires forall h :: h in hs <==> Host(|before|, h) && At(before, h) > 0
    requires |members| == capacity || members == Elements(hs)
    requires forall h | Host(|before|, h) :: At(before, h) <= max
    ensures forall h | Host(|before|, h) :: At(after, h) <= max
    ensures |members| < capacity ==> max >= 1 && forall h | Host(|before|, h) :: At(after, h) <= max - 1
  {
    assert hs[0] in hs;
  }

  lemma PackMore(sws0: Switches, d: Degrees, added: Switches, before: Degrees, hs: seq<Node>, members: set<Node>, capacity: nat)
    requires Packing(d, added, capacity) && Spends(sws0, d, sws0 + added, before) && members <= Elements(hs)
    requires forall h :: h in hs <==> Host(|d|, h) && At(before, h) > 0
    requires 0 < |members| <= capacity && (|members| == capacity || members == Elements(hs))
    ensures Packing(d, added + [members], capacity)
  {
    hide FilledUp;
    forall h
      ensures h in Elements(hs) <==> h in Needy(d, added)
    {
      LoadAppend(sws0, added, h);
      AllHostsCount(|d|);
    }
    assert Elements(hs) == Needy(d, added);
    var more := added + [members];
    forall i | 0 <= i < |more|
      ensures FilledUp(more[i], Needy(d, more[..i]), capacity)
    {
      if i < |added| {
        assert more[..i] == added[..i] && more[i] == added[i];
      } else {
        assert more[..i] == added;
        IsFilled(members, Needy(d, added), capacity);
      }
    }
  }

  lemma IsFilled(s: set<Node>, needy: set<Node>, capacity: nat)
    requires s <= needy && 0 < |s| <= capacity && (|s| == capacity || s == needy)
    ensures FilledUp(s, needy, capacity)
  {
  }

  lemma {:induction false} LoadAppend(a: Switches, b: Switches, h: Node)
    ensures Load(a + b, h) == Load(a, h) + Load(b, h)
  {
    if b == [] {
      assert a + b == a;
    } else {
      LoadAppend(a, b[..|b| - 1], h);
      assert (a + b)[..|a + b| - 1] == a + b[..|b| - 1];
    }
  }

  lemma PackStart(sws: Switches, d: Degrees)
    requires forall h | Host(|d|, h) :: At(d, h) >= 0
    ensures Spends(sws, d, sws, d) && Total(d) >= 0
  {
    RangeHosts(|d|);
    SumAtLeast(Range(|d|), d, 0);
  }

  lemma PackStep(sws0: Switches, d: Degrees, sws: Switches, before: Degrees, members: set<Node>, after: Degrees,
                 capacity: nat, hs: seq<Node>)
    requires Spends(sws0, d, sws, before) && WithinCapacity(sws, |d|, capacity) && SpentOn(before, members, after)
    requires members <= Elements(hs) && 0 < |members| <= capacity
    requires forall h :: h in hs <==> Host(|d|, h) && At(before, h) > 0
    ensures Spends(sws0, d, sws + [members], after) && WithinCapacity(sws + [members], |d|, capacity)
    ensures Total(after) >= 0
    ensures forall h :: (h in hs && At(after, h) > 0) <==> Host(|d|, h) && At(after, h) > 0
  {
    hide Spends, WithinCapacity;
    PackSpends(sws0, d, sws, before, members, after, hs);
    PackCapacity(sws, |d|, capacity, members, hs);
    SpentNonNegative(sws0, d, sws + [members], after);
    assert |after| == |d|;
    RangeHosts(|d|);
    SumAtLeast(Range(|after|), after, 0);
  }

  lemma PackSpends(sws0: Switches, d: Degrees, sws: Switches, before: Degrees, members: set<Node>, after: Degrees, hs: seq<Node>)
    requires Spends(sws0, d, sws, before) && SpentOn(before, members, after) && members <= Elements(hs)
    requires forall h :: h in hs <==> Host(|d|, h) && At(before, h) > 0
    ensures Spends(sws0, d, sws + [members], after)
  {
    forall h | Host(|d|, h)
      ensures At(after, h) >= 0 && Load(sws + [members], h) + At(after, h) == Load(sws0, h) + At(d, h)
    {
      LoadSnoc(sws, members, h);
    }
  }

  lemma PackCapacity(sws: Switches, n: nat, capacity: nat, members: set<Node>, hs: seq<Node>)
    requires WithinCapacity(sws, n, capacity) && members <= Elements(hs) && 0 < |members| <= capacity
    requires forall h | h in hs :: Host(n, h)
    ensures WithinCapacity(sws + [members], n, capacity)
  {
  }

  lemma SpentNonNegative(sws: Switches, d: Degrees, more: Switches, left: Degrees)
    requires Spends(sws, d, more, left)
    ensures |left| == |d| && forall h | Host(|d|, h) :: At(left, h) >= 0
  {
  }

  lemma AllSpent(sws0: Switches, d: Degrees, sws: Switches, left: Degrees)
    requires Spends(sws0, d, sws, left)
    requires forall h | Host(|d|, h) :: At(left, h) <= 0
    ensures forall h | Host(|d|, h) :: At(left, h) == 0
  {
  }

  // ---------- switch_use_all ----------

  /** A heap entry [deg, tie, host]. */
  datatype Slot = Slot(deg: int, tie: real, host: Node)

  predicate SlotLeq(a: Slot, b: Slot) {
    a.deg < b.deg || (a.deg == b.deg && (a.tie < b.tie || (a.tie == b.tie && a.host <= b.host)))
  }

  lemma SlotOrder()
    ensures TotalPreorder(SlotLeq)
  {
  }

  method RandomTie() returns (t: real)
  {
    t := *;
  }

  ghost function SlotSet(cur: Degrees, tie: map<Node, real>, pending: set<Node>): set<Slot> {
    set h | h in pending && h in tie :: Slot(At(cur, h), tie[h], h)
  }

  /** The heap holds exactly one entry, with its current degree, for each pending host. */
  ghost predicate HeapFor(heap: multiset<Slot>, cur: Degrees, tie: map<Node, real>, pending: set<Node>) {
    pending <= tie.Keys && heap == multiset(SlotSet(cur, tie, pending))
  }

  lemma HeapPop(heap: multiset<Slot>, cur: Degrees, tie: map<Node, real>, pending: set<Node>, e: Slot)
    requires HeapFor(heap, cur, tie, pending) && Least(SlotLeq, heap, e)
    ensures e.host in pending && e.deg == At(cur, e.host)
    ensures forall h | h in pending :: At(cur, e.host) <= At(cur, h)
    ensures HeapFor(heap - multiset{e}, cur, tie, pending - {e.host})
  {
    var all := SlotSet(cur, tie, pending);
    assert e in all;
    forall h | h in pending ensures At(cur, e.host) <= At(cur, h) {
      assert Slot(At(cur, h), tie[h], h) in all;
      assert Slot(At(cur, h), tie[h], h) in heap;
    }
    assert SlotSet(cur, tie, pending - {e.host}) == all - {e};
  }

  lemma HeapPush(heap: multiset<Slot>, cur: Degrees, tie: map<Node, real>, pending: set<Node>, h: Node, cur': Degrees, t: real)
    requires HeapFor(heap, cur, tie, pending) && h !in pending
    requires forall k | k in pending :: At(cur', k) == At(cur, k)
    ensures HeapFor(heap + multiset{Slot(At(cur', h), t, h)}, cur', tie[h := t], pending + {h})
  {
    var e := Slot(At(cur', h), t, h);
    var all := SlotSet(cur, tie, pending);
    assert SlotSet(cur', tie[h := t], pending + {h}) == all + {e} by {
      forall k | k in pending ensures Slot(At(cur', k), tie[h := t][k], k) in all && Slot(At(cur, k), tie[k], k) in SlotSet(cur', tie[h := t], pending + {h}) {
        assert Slot(At(cur, k), tie[k], k) in all;
        assert Slot(At(cur', k), tie[h := t][k], k) in SlotSet(cur', tie[h := t], pending + {h});
      }
      assert e in SlotSet(cur', tie[h := t], pending + {h}) by {
        assert h in pending + {h} && h in tie[h := t];
      }
    }
    assert e !in all;
  }

  lemma HeapSize(heap: multiset<Slot>, cur: Degrees, tie: map<Node, real>, pending: set<Node>)
    requires HeapFor(heap, cur, tie, pending) && pending != {}
    ensures |heap| > 0
  {
    var h :| h in pending;
    assert Slot(At(cur, h), tie[h], h) in SlotSet(cur, tie, pending);
    assert Slot(At(cur, h), tie[h], h) in heap;
  }

  /** `members` are hosts of least load, and each gains one attachment. */
  ghost predicate Raised(cur: Degrees, members: set<Node>, cur': Degrees) {
    && |cur'| == |cur| && (forall h :: At(cur', h) == At(cur, h) + if h in members then 1 else 0)
  }

  ghost predicate Lowest(cur: Degrees, members: set<Node>) {
    forall p, q | p in members && Host(|cur|, q) && q !in members :: At(cur, p) <= At(cur, q)
  }

  predicate Popped(popped: seq<Slot>, cur: Degrees, used: set<Node>) {
    && (forall i | 0 <= i < |popped| :: Host(|cur|, popped[i].host) && popped[i].deg == At(cur, popped[i].host))
    && (forall i, j | 0 <= i < j < |popped| :: popped[i].host != popped[j].host)
    && used == set i | 0 <= i < |popped| :: popped[i].host
  }

  /** Pop the least loaded hosts for one extra switch. */
  method PopLowest(heap0: multiset<Slot>, cur: Degrees, ghost tie: map<Node, real>, capacity: nat)
    returns (heap: multiset<Slot>, popped: seq<Slot>, used: set<Node>)
    requires HeapFor(heap0, cur, tie, AllHosts(|cur|))
    ensures used <= AllHosts(|cur|) && |used| == if capacity < |cur| then capacity else |cur|
    ensures Popped(popped, cur, used) && Lowest(cur, used)
    ensures HeapFor(heap, cur, tie, AllHosts(|cur|) - used)
  {
    hide HeapFor, Popped, TotalPreorder, Least, AllHosts, Lowest;
    ghost var all := AllHosts(|cur|);
    var capLeft := if capacity < |cur| then capacity else |cur|;
    heap, popped, used := heap0, [], {};
    AllHostsCount(|cur|);
    SlotOrder();
    PoppedNone(cur);
    assert all - used == all;
    while capLeft > 0 && |heap| > 0
      invariant capLeft >= 0 && used <= all && |used| + capLeft == if capacity < |cur| then capacity else |cur|
      invariant Popped(popped, cur, used) && Lowest(cur, used)
      invariant HeapFor(heap, cur, tie, all - used)
    {
      var e, rest := PopLeast(SlotLeq, heap);
      PopStep(heap, rest, cur, tie, popped, used, e);
      heap, popped, used := rest, popped + [e], used + {e.host};
      capLeft := capLeft - 1;
    }
    if capLeft > 0 {
      SomePending(|cur|, used);
      HeapSize(heap, cur, tie, all - used);
    }
  }

  lemma SomePending(n: nat, used: set<Node>)
    requires |used| < n
    ensures AllHosts(n) - used != {}
  {
    AllHostsCount(n);
    if AllHosts(n) - used == {} {
      assert forall h | h in AllHosts(n) :: h in used || h in AllHosts(n) - used;
      SubsetCount(AllHosts(n), used);
    }
  }

  lemma SubsetCount(a: set<Node>, b: set<Node>)
    requires a <= b
    ensures |a| <= |b|
  {
    assert b == a + (b - a);
  }

  lemma PopStep(heap: multiset<Slot>, rest: multiset<Slot>, cur: Degrees, tie: map<Node, real>,
                popped: seq<Slot>, used: set<Node>, e: Slot)
    requires used <= AllHosts(|cur|) && HeapFor(heap, cur, tie, AllHosts(|cur|) - used)
    requires Least(SlotLeq, heap, e) && heap == rest + multiset{e}
    requires Popped(popped, cur, used) && Lowest(cur, used)
    ensures e.host in AllHosts(|cur|) && e.host !in used
    ensures Popped(popped + [e], cur, used + {e.host}) && Lowest(cur, used + {e.host})
    ensures HeapFor(rest, cur, tie, AllHosts(|cur|) - (used + {e.host}))
  {
    hide HeapFor, Popped, Least, AllHosts;
    AllHostsCount(|cur|);
    assert rest == heap - multiset{e};
    HeapPop(heap, cur, tie, AllHosts(|cur|) - used, e);
    PoppedOne(popped, cur, used, e);
    assert AllHosts(|cur|) - used - {e.host} == AllHosts(|cur|) - (used + {e.host});
  }

  lemma PoppedNone(cur: Degrees)
    ensures Popped([], cur, {}) && Lowest(cur, {})
  {
  }

  lemma PoppedOne(popped: seq<Slot>, cur: Degrees, used: set<Node>, e: Slot)
    requires Popped(popped, cur, used) && e.host !in used && Host(|cur|, e.host) && e.deg == At(cur, e.host)
    ensures Popped(popped + [e], cur, used + {e.host})
  {
    var p := popped + [e];
    forall i | 0 <= i < |popped| ensures popped[i].host in used {
    }
    assert forall i | 0 <= i < |popped| :: p[i] == popped[i];
    var hosts := set i | 0 <= i < |p| :: p[i].host;
    forall h ensures h in hosts <==> h in used + {e.host} {
      if h in used {
        var i :| 0 <= i < |popped| && popped[i].host == h;
        assert p[i].host == h;
      }
      if h == e.host { assert p[|popped|].host == h; }
    }
  }

  /** Put the popped hosts back one attachment heavier, onto the new switch. */
  method PushBack(heap0: multiset<Slot>, cur0: Degrees, ghost tie0: map<Node, real>, popped: seq<Slot>, ghost used: set<Node>)
    returns (heap: multiset<Slot>, cur: Degrees, members: set<Node>, ghost tie: map<Node, real>)
    requires Popped(popped, cur0, used) && used <= AllHosts(|cur0|)
    requires HeapFor(heap0, cur0, tie0, AllHosts(|cur0|) - used)
    ensures members == used && Raised(cur0, used, cur)
    ensures HeapFor(heap, cur, tie, AllHosts(|cur|))
  {
    hide HeapFor, Popped, AllHosts, Raised;
    heap, cur, members, tie := heap0, cur0, {}, tie0;
    ghost var rest := AllHosts(|cur0|) - used;
    assert rest + members == rest;
    RaisedNone(cur0);
    for i := 0 to |popped|
      invariant members == PoppedHosts(popped[..i]) && Raised(cur0, members, cur) && |cur| == |cur0|
      invariant HeapFor(heap, cur, tie, rest + members)
    {
      var s := popped[i];
      assert popped[..i + 1] == popped[..i] + [s];
      var t := RandomTie();
      PushStep(heap, cur0, cur, tie, popped, used, i, members, t);
      assert rest + members + {s.host} == rest + (members + {s.host});
      cur := cur[s.host as int := cur[s.host as int] + 1];
      members := members + {s.host};
      heap, tie := heap + multiset{Slot(s.deg + 1, t, s.host)}, tie[s.host := t];
    }
    assert popped[..|popped|] == popped;
    PoppedAll(popped, cur0, used);
    assert rest + used == AllHosts(|cur|);
  }

  function PoppedHosts(popped: seq<Slot>): set<Node> {
    set i | 0 <= i < |popped| :: popped[i].host
  }

  lemma PoppedAll(popped: seq<Slot>, cur: Degrees, used: set<Node>)
    requires Popped(popped, cur, used)
    ensures PoppedHosts(popped) == used
  {
  }

  lemma RaisedNone(cur: Degrees)
    ensures Raised(cur, {}, cur)
  {
  }

  lemma PushStep(heap: multiset<Slot>, cur0: Degrees, cur: Degrees, tie: map<Node, real>, popped: seq<Slot>,
                 used: set<Node>, i: nat, members: set<Node>, t: real)
    requires Popped(popped, cur0, used) && i < |popped| && members == PoppedHosts(popped[..i])
    requires Raised(cur0, members, cur)
    requires HeapFor(heap, cur, tie, AllHosts(|cur0|) - used + members)
    ensures var h := popped[i].host;
            && Host(|cur|, h) && members + {h} == PoppedHosts(popped[..i + 1])
            && Raised(cur0, members + {h}, cur[h as int := cur[h as int] + 1])
            && HeapFor(heap + multiset{Slot(popped[i].deg + 1, t, h)}, cur[h as int := cur[h as int] + 1],
                       tie[h := t], AllHosts(|cur0|) - used + members + {h})
  {
    var h := popped[i].host;
    hide HeapFor, AllHosts;
    PoppedPrefix(popped, i, cur0, used);
    var cur' := cur[h as int := cur[h as int] + 1];
    assert forall k | k != h :: At(cur', k) == At(cur, k);
    HeapPush(heap, cur, tie, AllHosts(|cur0|) - used + members, h, cur', t);
  }

  lemma PoppedPrefix(popped: seq<Slot>, i: nat, cur: Degrees, used: set<Node>)
    requires Popped(popped, cur, used) && i < |popped|
    ensures popped[i].host in used && popped[i].host !in PoppedHosts(popped[..i])
    ensures PoppedHosts(popped[..i + 1]) == PoppedHosts(popped[..i]) + {popped[i].host}
  {
    var p, q := popped[..i], popped[..i + 1];
    forall h ensures h in PoppedHosts(q) <==> h in PoppedHosts(p) + {popped[i].host} {
      if h in PoppedHosts(q) {
        var j :| 0 <= j < |q| && q[j].host == h;
        if j < i { assert p[j].host == h; }
      }
      if h in PoppedHosts(p) {
        var j :| 0 <= j < |p| && p[j].host == h;
        assert q[j].host == h;
      }
      if h == popped[i].host { assert q[i].host == h; }
    }
  }

  /** The loads of any two hosts differ by at most `s`. */
  ghost predicate SpreadWithin(sws: Switches, n: nat, s: int) {
    forall a, b | Host(n, a) && Host(n, b) :: Load(sws, a) - Load(sws, b) <= s
  }

  ghost predicate IsLoad(cur: Degrees, sws: Switches) {
    forall h | Host(|cur|, h) :: At(cur, h) == Load(sws, h)
  }

  /** current_deg: attachments counted from the switch table. */
  method CurrentDegrees(sws: Switches, n: nat, ghost cap: nat) returns (cur: Degrees)
    requires WithinCapacity(sws, n, cap)
    ensures |cur| == n && IsLoad(cur, sws)
  {
    hide Load, IsLoad, Raised;
    cur := seq(n, _ => 0);
    NoLoad(cur);
    for i := 0 to |sws|
      invariant |cur| == n && IsLoad(cur, sws[..i])
    {
      ghost var before := cur;
      cur := CountSwitch(cur, sws[i]);
      assert sws[..i + 1] == sws[..i] + [sws[i]];
      LoadRaised(before, sws[..i], sws[i], cur);
    }
    assert sws[..|sws|] == sws;
  }

  method CountSwitch(cur0: Degrees, members: set<Node>) returns (cur: Degrees)
    requires forall h | h in members :: Host(|cur0|, h)
    ensures |cur| == |cur0| && Raised(cur0, members, cur)
  {
    hide Raised;
    cur := cur0;
    var hs := Sorted(members);
    RaisedNone(cur0);
    assert Elements(hs[..0]) == {} && Elements(hs) == members;
    for j := 0 to |hs|
      invariant |cur| == |cur0| && Raised(cur0, Elements(hs[..j]), cur)
    {
      assert hs[..j + 1] == hs[..j] + [hs[j]];
      assert Elements(hs[..j + 1]) == Elements(hs[..j]) + {hs[j]};
      assert hs[j] in members && hs[j] !in hs[..j];
      RaisedOne(cur0, Elements(hs[..j]), cur, hs[j]);
      cur := cur[hs[j] as int := cur[hs[j] as int] + 1];
    }
    assert hs[..|hs|] == hs;
  }

  lemma RaisedOne(cur0: Degrees, members: set<Node>, cur: Degrees, h: Node)
    requires Raised(cur0, members, cur) && h !in members && Host(|cur0|, h)
    ensures Host(|cur|, h) && Raised(cur0, members + {h}, cur[h as int := cur[h as int] + 1])
  {
  }

  lemma NoLoad(cur: Degrees)
    requires forall i | 0 <= i < |cur| :: cur[i] == 0
    ensures IsLoad(cur, [])
  {
  }

  lemma LoadRaised(cur: Degrees, sws: Switches, members: set<Node>, cur': Degrees)
    requires IsLoad(cur, sws) && Raised(cur, members, cur')
    ensures IsLoad(cur', sws + [members])
  {
    forall h | Host(|cur|, h) ensures At(cur', h) == Load(sws + [members], h) {
      LoadSnoc(sws, members, h);
    }
  }

  /** Raising a lowest set never widens a spread of at least 1. */
  lemma SpreadStep(cur: Degrees, sws: Switches, members: set<Node>, s: int)
    requires IsLoad(cur, sws) && Lowest(cur, members) && SpreadWithin(sws, |cur|, s) && s >= 1
    ensures SpreadWithin(sws + [members], |cur|, s)
  {
    forall a, b | Host(|cur|, a) && Host(|cur|, b) ensures Load(sws + [members], a) - Load(sws + [members], b) <= s {
      LoadSnoc(sws, members, a);
      LoadSnoc(sws, members, b);
      assert Load(sws, a) - Load(sws, b) <= s;
    }
  }

  /** Add switches until there are `target`, each over the least loaded hosts. */
  /** From switch number `from` on, each switch holds as many hosts as fit, and no host
      left out had fewer attachments than one taken. */
  ghost predicate Evened(sws: Switches, from: nat, n: nat, capacity: nat) {
    forall i | from <= i < |sws| :: TakesLowest(sws[..i], sws[i], n, capacity)
  }

  ghost predicate TakesLowest(before: Switches, s: set<Node>, n: nat, capacity: nat) {
    && s <= AllHosts(n) && |s| == (if capacity < n then capacity else n)
    && forall p, q | p in s && Host(n, q) && q !in s :: Load(before, p) <= Load(before, q)
  }

  lemma EvenedNone(sws: Switches, n: nat, capacity: nat)
    ensures Evened(sws, |sws|, n, capacity)
  {
  }

  lemma EvenedMore(sws: Switches, from: nat, n: nat, capacity: nat, cur: Degrees, members: set<Node>)
    requires Evened(sws, from, n, capacity) && IsLoad(cur, sws) && |cur| == n && Lowest(cur, members)
    requires members <= AllHosts(n) && |members| == if capacity < n then capacity else n
    ensures Evened(sws + [members], from, n, capacity)
  {
    AllHostsCount(n);
    hide Load;
    var more := sws + [members];
    forall i | from <= i < |more|
      ensures TakesLowest(more[..i], more[i], n, capacity)
    {
      if i < |sws| {
        assert more[..i] == sws[..i];
      } else {
        assert more[..i] == sws;
      }
    }
  }

  method AddExtraSwitches(sws0: Switches, n: nat, capacity: nat, target: int) returns (sws: Switches)
    requires WithinCapacity(sws0, n, capacity) && n > 0 && capacity > 0
    ensures sws0 <= sws && WithinCapacity(sws, n, capacity)
    ensures |sws| == if target > |sws0| then target else |sws0|
    ensures Evened(sws, |sws0|, n, capacity)
    ensures forall s: nat | s >= 1 && SpreadWithin(sws0, n, s) :: SpreadWithin(sws, n, s)
  {
    hide WithinCapacity, HeapFor, Popped, AllHosts, Raised, Lowest, IsLoad, SpreadWithin, Evened;
    sws := sws0;
    EvenedNone(sws0, n, capacity);
    if target <= |sws| {
      return;
    }
    var cur := CurrentDegrees(sws, n, capacity);
    ghost var tie: map<Node, real>;
    var heap;
    heap, tie := InitialHeap(cur);
    while |sws| < target
      invariant sws0 <= sws && |sws| <= target && |cur| == n && WithinCapacity(sws, n, capacity)
      invariant Evened(sws, |sws0|, n, capacity)
      invariant IsLoad(cur, sws) && HeapFor(heap, cur, tie, AllHosts(n))
      invariant forall s: nat | s >= 1 && SpreadWithin(sws0, n, s) :: SpreadWithin(sws, n, s)
    {
      ghost var before := cur;
      var popped, members;
      var used;
      heap, popped, used := PopLowest(heap, cur, tie, capacity);
      heap, cur, members, tie := PushBack(heap, cur, tie, popped, used);
      RoundKeeps(sws, before, members, cur, capacity);
      EvenedMore(sws, |sws0|, n, capacity, before, members);
      forall s: nat | s >= 1 && SpreadWithin(sws, n, s) ensures SpreadWithin(sws + [members], n, s) {
        SpreadStep(before, sws, members, s);
      }
      sws := sws + [members];
    }
  }

  lemma RoundKeeps(sws: Switches, cur: Degrees, members: set<Node>, cur': Degrees, capacity: nat)
    requires WithinCapacity(sws, |cur|, capacity) && IsLoad(cur, sws) && Raised(cur, members, cur')
    requires members <= AllHosts(|cur|) && 0 < |members| <= capacity
    ensures |cur'| == |cur| && WithinCapacity(sws + [members], |cur|, capacity) && IsLoad(cur', sws + [members])
  {
    AllHostsCount(|cur|);
    LoadRaised(cur, sws, members, cur');
  }

  method InitialHeap(cur: Degrees) returns (heap: multiset<Slot>, ghost tie: map<Node, real>)
    ensures HeapFor(heap, cur, tie, AllHosts(|cur|))
  {
    hide HeapFor;
    heap, tie := multiset{}, map[];
    var hosts := Range(|cur|);
    RangeHosts(|cur|);
    EmptyHeap(cur);
    assert Elements(hosts[..0]) == {};
    for i := 0 to |hosts|
      invariant HeapFor(heap, cur, tie, Elements(hosts[..i]))
    {
      var t := RandomTie();
      assert hosts[..i + 1] == hosts[..i] + [hosts[i]];
      assert Elements(hosts[..i + 1]) == Elements(hosts[..i]) + {hosts[i]};
      HeapPush(heap, cur, tie, Elements(hosts[..i]), hosts[i], cur, t);
      heap, tie := heap + multiset{Slot(At(cur, hosts[i]), t, hosts[i])}, tie[hosts[i] := t];
    }
    assert hosts[..|hosts|] == hosts;
  }

  lemma EmptyHeap(cur: Degrees)
    ensures HeapFor(multiset{}, cur, map[], {})
  {
    assert SlotSet(cur, map[], {}) == {};
  }

  // ---------- link records ----------

  /** The record of switch `i`: its hosts in order, and the interface each uses
      on it, which is the number of earlier switches of that host. */
  ghost predicate RecordOf(link: Link, sws: Switches, i: nat)
    requires i < |sws|
  {
    && link.switch == Some(i) && link.subnet == Some(i + 1)
    && link.hosts == Sorted(sws[i]) && link.hostEth.Keys == sws[i]
    && forall h | h in sws[i] :: link.hostEth[h] == Load(sws[..i], h)
  }

  ghost predicate RecordsOf(links: seq<Link>, sws: Switches) {
    |links| == |sws| && forall i | 0 <= i < |sws| :: RecordOf(links[i], sws, i)
  }

  /** The interface indices of a host, in the order its links were added. */
  function Interfaces(links: seq<Link>, h: Node): seq<nat> {
    if links == [] then []
    else Interfaces(links[..|links| - 1], h)
         + (if h in links[|links| - 1].hostEth then [links[|links| - 1].hostEth[h]] else [])
  }

  /** They are exactly 0, 1, ..., in order: what the h<i>-eth<n> names rely on. */
  lemma {:induction false} InterfacesConsecutive(links: seq<Link>, sws: Switches, h: Node)
    requires RecordsOf(links, sws)
    ensures |Interfaces(links, h)| == Load(sws, h)
    ensures forall k | 0 <= k < Load(sws, h) :: Interfaces(links, h)[k] == k
  {
    if links != [] {
      var n := |links| - 1;
      RecordsBefore(links, sws);
      InterfacesConsecutive(links[..n], sws[..n], h);
      assert RecordOf(links[n], sws, n);
    }
  }

  lemma RecordsBefore(links: seq<Link>, sws: Switches)
    requires RecordsOf(links, sws) && links != []
    ensures |sws| == |links| && RecordsOf(links[..|links| - 1], sws[..|links| - 1])
  {
    hide Load;
    var n := |links| - 1;
    forall i | 0 <= i < n ensures RecordOf(links[..n][i], sws[..n], i) {
      assert RecordOf(links[i], sws, i);
      assert sws[..n][..i] == sws[..i];
    }
  }

  function PortAt(ports: seq<nat>, h: Node): nat {
    if h as int < |ports| then ports[h as int] else 0
  }

  ghost predicate PortsAre(ports: seq<nat>, sws: Switches) {
    forall h | Host(|ports|, h) :: PortAt(ports, h) == Load(sws, h)
  }

  /** Every member took its next free port. */
  ghost predicate Numbered(members: set<Node>, before: seq<nat>, hostEth: map<Node, nat>, after: seq<nat>) {
    && hostEth.Keys == members && |after| == |before|
    && (forall h | h in members :: hostEth[h] == PortAt(before, h))
    && (forall h | Host(|before|, h) :: PortAt(after, h) == PortAt(before, h) + if h in members then 1 else 0)
  }

  /** The final loop: number interfaces per host and record each switch. */
  method EmitLinks(sws: Switches, n: nat, ghost cap: nat) returns (links: seq<Link>)
    requires WithinCapacity(sws, n, cap)
    ensures RecordsOf(links, sws)
  {
    hide Load, PortsAre, RecordOf, Numbered;
    var hostPorts: seq<nat> := seq(n, _ => 0);
    links := [];
    NoPorts(hostPorts);
    for idx := 0 to |sws|
      invariant |links| == idx && |hostPorts| == n && PortsAre(hostPorts, sws[..idx])
      invariant forall i | 0 <= i < idx :: RecordOf(links[i], sws, i)
    {
      var hostEth;
      ghost var before := hostPorts;
      hostEth, hostPorts := NumberPorts(sws[idx], hostPorts);
      assert sws[..idx + 1] == sws[..idx] + [sws[idx]];
      RecordMade(sws, idx, before, hostEth, hostPorts);
      links := links + [Link(Some(idx), Some(idx + 1), Sorted(sws[idx]), hostEth)];
    }
    assert sws[..|sws|] == sws;
  }

  method NumberPorts(members: set<Node>, ports0: seq<nat>) returns (hostEth: map<Node, nat>, ports: seq<nat>)
    requires forall h | h in members :: Host(|ports0|, h)
    ensures Numbered(members, ports0, hostEth, ports) && |ports| == |ports0|
  {
    hide Numbered, PortAt, Increasing, Sorted;
    hostEth, ports := map[], ports0;
    var hs := Sorted(members);
    SortedApart(hs);
    NumberedNone(ports0);
    assert Elements(hs[..0]) == {} && Elements(hs) == members;
    for j := 0 to |hs|
      invariant |ports| == |ports0| && Numbered(Elements(hs[..j]), ports0, hostEth, ports)
    {
      var h := hs[j];
      assert hs[..j + 1] == hs[..j] + [h];
      assert Elements(hs[..j + 1]) == Elements(hs[..j]) + {h};
      assert h in members && h !in hs[..j];
      NumberedOne(Elements(hs[..j]), ports0, hostEth, ports, h);
      hostEth := hostEth[h := PortAt(ports, h)];
      ports := ports[h as int := ports[h as int] + 1];
    }
    assert hs[..|hs|] == hs;
  }

  lemma SortedApart(hs: seq<Node>)
    requires Increasing(hs)
    ensures forall j | 0 <= j < |hs| :: hs[j] !in hs[..j]
  {
  }

  lemma NumberedNone(ports: seq<nat>)
    ensures Numbered({}, ports, map[], ports)
  {
  }

  lemma NumberedOne(members: set<Node>, before: seq<nat>, hostEth: map<Node, nat>, after: seq<nat>, h: Node)
    requires Numbered(members, before, hostEth, after) && h !in members && Host(|before|, h)
    ensures Host(|after|, h)
    ensures Numbered(members + {h}, before, hostEth[h := PortAt(after, h)], after[h as int := after[h as int] + 1])
  {
    assert hostEth[h := PortAt(after, h)].Keys == members + {h};
  }

  lemma NoPorts(ports: seq<nat>)
    requires forall i | 0 <= i < |ports| :: ports[i] == 0
    ensures PortsAre(ports, [])
  {
  }

  lemma RecordMade(sws: Switches, i: nat, before: seq<nat>, hostEth: map<Node, nat>, after: seq<nat>)
    requires i < |sws| && PortsAre(before, sws[..i]) && Numbered(sws[i], before, hostEth, after)
    requires forall h | h in sws[i] :: Host(|before|, h)
    ensures RecordOf(Link(Some(i), Some(i + 1), Sorted(sws[i]), hostEth), sws, i)
    ensures PortsAre(after, sws[..i] + [sws[i]])
  {
    forall h | Host(|after|, h) ensures PortAt(after, h) == Load(sws[..i] + [sws[i]], h) {
      LoadSnoc(sws[..i], sws[i], h);
    }
  }

  // ---------- MeshTopo.build ----------

  datatype MeshError = BadDegreeRange | BadCapacity | TreeBudget | TooManySwitches
  datatype MeshResult = Built(links: seq<Link>) | Failed(error: MeshError)

  function Capacity(nodePerSwitch: int, hosts: nat): nat {
    if nodePerSwitch > 0 then nodePerSwitch else hosts
  }

  predicate BadDegrees(degreeMin: int, degreeMax: int) {
    degreeMin < 1 || degreeMax < degreeMin
  }

  /** One value of rng.randint(degreeMin, degreeMax) per host. */
  predicate Draws(drawn: Degrees, hosts: nat, degreeMin: int, degreeMax: int) {
    |drawn| == hosts && (!BadDegrees(degreeMin, degreeMax) ==> forall d | d in drawn :: degreeMin <= d <= degreeMax)
  }

  lemma DrawsAtLeast(drawn: Degrees, hosts: nat, degreeMin: int, degreeMax: int)
    requires Draws(drawn, hosts, degreeMin, degreeMax) && !BadDegrees(degreeMin, degreeMax)
    ensures |drawn| == hosts && forall h | Host(|drawn|, h) :: At(drawn, h) >= 1
  {
    forall h | Host(|drawn|, h) ensures At(drawn, h) >= 1 {
      assert drawn[h as int] in drawn;
    }
  }

  /** How the tree was built: the hosts' order, each host's step, the switches of the
      tree and the degrees it left. */
  datatype MeshRun = MeshRun(order: seq<Node>, steps: seq<Step>, tree: Switches, left: Degrees)

  ghost predicate RunOk(run: MeshRun, drawn: Degrees, capacity: nat) {
    && OrderOk(run.order, drawn) && |run.steps| + 1 == |run.order|
    && TreeRun(run.order, drawn, capacity, run.steps, run.tree, run.left)
    && |run.tree| <= |drawn| - 1 && WithinBudget(run.tree, drawn, run.left) && Total(run.left) == Total(drawn) - 2 * (|drawn| - 1)
  }

  /** What a host may have left after the tree. */
  function Spare(hosts: nat, degreeMax: int): nat {
    if degreeMax <= 0 then 0 else if hosts > 1 then degreeMax - 1 else degreeMax
  }

  /** Every host of a tree of two or more has spent a degree. */
  lemma TreeSpends(tree: Switches, drawn: Degrees, left: Degrees, degreeMin: int, degreeMax: int)
    requires Draws(drawn, |drawn|, degreeMin, degreeMax) && !BadDegrees(degreeMin, degreeMax)
    requires WithinBudget(tree, drawn, left) && AllConnected(tree, |drawn|)
    ensures |left| == |drawn| && forall h | Host(|left|, h) :: 0 <= At(left, h) <= Spare(|drawn|, degreeMax)
  {
    hide AllConnected;
    forall h | Host(|left|, h)
      ensures 0 <= At(left, h) <= Spare(|drawn|, degreeMax)
    {
      assert drawn[h as int] in drawn;
      if |drawn| > 1 { LoadedOnce(tree, |drawn|, h); }
    }
  }

  lemma LoadedOnce(sws: Switches, n: nat, h: Node)
    requires AllConnected(sws, n) && Host(n, h) && n > 1
    ensures Load(sws, h) >= 1
  {
    hide Load;
    var other: Node := if h == 0 then 1 else 0;
    assert Reachable(HostGraph(sws, n), h, other);
    var p :| Walk(HostGraph(sws, n), h, other, p);
    assert p[0 + 1] in Neighbors(HostGraph(sws, n), p[0]);
    var i :| 0 <= i < |sws| && h in sws[i];
    MemberLoads(sws, i, h);
  }

  lemma {:induction false} MemberLoads(sws: Switches, i: nat, h: Node)
    requires i < |sws| && h in sws[i]
    ensures Load(sws, h) >= 1
  {
    if i < |sws| - 1 { MemberLoads(sws[..|sws| - 1], i, h); }
  }

  lemma PrefixOf(a: Switches, b: Switches)
    requires |a| <= |b| && b[..|a|] == a
    ensures a <= b
  {
  }

  /** Random mesh over the degrees `drawn`, which rng.randint returns one by one; the
      shuffles and heap ties are arbitrary. `run` is how the tree came about, `packed`
      are the switches before switch_use_all adds any, `sws` the final ones. */
  method BuildMesh(hosts: nat, switchNum: int, nodePerSwitch: int, degreeMin: int, degreeMax: int, useAll: bool, drawn: Degrees)
    returns (r: MeshResult, ghost run: MeshRun, ghost packed: Switches, ghost sws: Switches)
    requires hosts >= 1 && Draws(drawn, hosts, degreeMin, degreeMax)
    ensures r == Failed(BadDegreeRange) <==> BadDegrees(degreeMin, degreeMax)
    ensures r == Failed(BadCapacity) <==> !BadDegrees(degreeMin, degreeMax) && nodePerSwitch == 1
    ensures !BadDegrees(degreeMin, degreeMax) && nodePerSwitch != 1 ==>
              && (r == Failed(TreeBudget) <==> Total(drawn) < 2 * (hosts - 1))
              && (Total(drawn) >= 2 * (hosts - 1) ==>
                    && RunOk(run, drawn, Capacity(nodePerSwitch, hosts)) && run.tree <= packed
                    && Packing(run.left, packed[|run.tree|..], Capacity(nodePerSwitch, hosts))
                    && |packed| <= Total(drawn) - (hosts - 1)
                    && (r == Failed(TooManySwitches) <==> switchNum != 0 && |packed| > switchNum)
                    && AllConnected(packed, hosts) && WithinCapacity(packed, hosts, Capacity(nodePerSwitch, hosts))
                    && (forall h | Host(hosts, h) :: Load(packed, h) <= At(drawn, h)))
    ensures r == Failed(TooManySwitches) ==> switchNum < Total(drawn) - (hosts - 1)
    ensures r == Failed(TooManySwitches) ==>
              Capacity(nodePerSwitch, hosts) * (switchNum + 1 - (hosts - 1))
                <= Total(drawn) - 2 * (hosts - 1) + (Capacity(nodePerSwitch, hosts) - 1) * Spare(hosts, degreeMax)
    ensures r.Built? ==>
              && RecordsOf(r.links, sws) && packed <= sws
              && AllConnected(sws, hosts) && WithinCapacity(sws, hosts, Capacity(nodePerSwitch, hosts))
              && (switchNum != 0 ==> |sws| <= switchNum)
              && (if useAll && switchNum != 0 then |sws| == switchNum && Evened(sws, |packed|, hosts, Capacity(nodePerSwitch, hosts)) else sws == packed)
              && (forall s: nat | s >= 1 && SpreadWithin(packed, hosts, s) :: SpreadWithin(sws, hosts, s))
  {
    hide Total, AllConnected, WithinCapacity, WithinBudget, RecordsOf, SpreadWithin, Spends, Draws, TreeRun, Packing, Evened, OrderOk, At;
    run, packed, sws := MeshRun([], [], [], []), [], [];
    if degreeMin < 1 || degreeMax < degreeMin {
      r := Failed(BadDegreeRange);
      return;
    }
    if nodePerSwitch == 1 {
      r := Failed(BadCapacity);
      return;
    }
    var capacity := Capacity(nodePerSwitch, hosts);
    DrawsAtLeast(drawn, hosts, degreeMin, degreeMax);
    ghost var order, steps;
    var built, left, switches;
    built, left, switches, order, steps := SpanningTree(drawn, capacity);
    if !built {
      r := Failed(TreeBudget);
      return;
    }
    ghost var tree := switches;
    BudgetLeft(tree, drawn, left);
    TreeSpends(tree, drawn, left, degreeMin, degreeMax);
    run := MeshRun(order, steps, tree, left);
    ghost var rest;
    switches, rest := PackLeftovers(left, switches, capacity, Spare(hosts, degreeMax));
    PackingKeeps(tree, drawn, left, switches, rest);
    packed, sws := switches, switches;
    assert tree <= packed by { PrefixOf(tree, packed); }
    if switchNum != 0 && |switches| > switchNum {
      Scales(capacity, switchNum + 1 - (hosts - 1), |packed| - |tree|);
      r := Failed(TooManySwitches);
      return;
    }
    if useAll && switchNum != 0 {
      switches := AddExtraSwitches(switches, hosts, capacity, switchNum);
      StillConnected(packed, switches, hosts);
      sws := switches;
    }
    var links := EmitLinks(switches, hosts, capacity);
    r := Built(links);
  }

  lemma BudgetLeft(sws: Switches, drawn: Degrees, left: Degrees)
    requires WithinBudget(sws, drawn, left)
    ensures |left| == |drawn| && forall h | Host(|left|, h) :: At(left, h) >= 0
  {
  }

  lemma PackingKeeps(tree: Switches, drawn: Degrees, left: Degrees, sws: Switches, rest: Degrees)
    requires WithinBudget(tree, drawn, left) && Spends(tree, left, sws, rest) && AllConnected(tree, |drawn|)
    requires forall h | Host(|left|, h) :: At(rest, h) == 0
    ensures AllConnected(sws, |drawn|) && forall h | Host(|drawn|, h) :: Load(sws, h) <= At(drawn, h)
  {
    StillConnected(tree, sws, |drawn|);
    hide AllConnected;
  }

  lemma StillConnected(sws: Switches, more: Switches, n: nat)
    requires AllConnected(sws, n) && sws <= more
    ensures AllConnected(more, n)
  {
    forall a, b | Host(n, a) && Host(n, b) ensures Reachable(HostGraph(more, n), a, b) {
      ReachableGrows(sws, more, n, a, b);
    }
  }

  // ---------- ExplicitLinksTopo.build ----------

  /** One switch per configured pair; the validator has already refused indices out
      of range and links of a host to itself. */
  method BuildExplicit(hosts: nat, pairs: seq<(Node, Node)>) returns (links: seq<Link>)
    requires forall p | p in pairs :: Host(hosts, p.0) && Host(hosts, p.1) && p.0 != p.1
    ensures RecordsOf(links, PairSwitches(pairs))
  {
    PairsFit(hosts, pairs);
    links := EmitLinks(PairSwitches(pairs), hosts, 2);
  }

  function PairSwitches(pairs: seq<(Node, Node)>): (sws: Switches)
    ensures |sws| == |pairs| && forall i | 0 <= i < |pairs| :: sws[i] == {pairs[i].0, pairs[i].1}
  {
    seq(|pairs|, i requires 0 <= i < |pairs| => {pairs[i].0, pairs[i].1})
  }

  lemma PairsFit(hosts: nat, pairs: seq<(Node, Node)>)
    requires forall p | p in pairs :: Host(hosts, p.0) && Host(hosts, p.1)
    ensures WithinCapacity(PairSwitches(pairs), hosts, 2)
  {
    forall i | 0 <= i < |pairs| ensures |PairSwitches(pairs)[i]| <= 2 && forall h | h in PairSwitches(pairs)[i] :: Host(hosts, h) {
      assert pairs[i] in pairs;
    }
  }
}
