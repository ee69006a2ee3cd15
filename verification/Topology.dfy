/** The mesh_links schema and the queries over it: TopologyModel. */
module Topology {
  import opened Ordering
  import opened Wrappers

  /** One switch-mediated link. Switches are numbered; a missing key is None. */
  datatype Link = Link(switch: Option<nat>, subnet: Option<int>, hosts: seq<Node>, hostEth: map<Node, nat>)

  /** The two dict shapes of a raw link. */
  datatype RawLink =
    | MultiHost(switch: Option<nat>, subnet: Option<int>, hosts: seq<Node>, hostEth: map<Node, nat>)
    | PointToPoint(switch: Option<nat>, subnet: Option<int>, hostA: Node, hostB: Node, ethA: Option<nat>, ethB: Option<nat>)

  predicate NodeLeq(a: Node, b: Node) {
    a <= b
  }

  lemma NodeOrder()
    ensures TotalPreorder(NodeLeq)
  {
  }

  function Put(m: map<Node, nat>, h: Node, eth: Option<nat>): map<Node, nat> {
    if eth.Some? then m[h := eth.value] else m
  }

  /** Both shapes normalize to a link with its hosts in ascending order. */
  function Normalize(raw: RawLink): (link: Link)
    ensures Ordered(NodeLeq, link.hosts)
    ensures match raw
            case MultiHost(_, _, hosts, eth) => multiset(link.hosts) == multiset(hosts) && link.hostEth == eth
            case PointToPoint(_, _, a, b, ethA, ethB) =>
              && multiset(link.hosts) == multiset{a, b} && link.hostEth.Keys <= {a, b}
              && (ethB.Some? ==> b in link.hostEth && link.hostEth[b] == ethB.value)
              && (ethA.Some? && (a != b || ethB.None?) ==> a in link.hostEth && link.hostEth[a] == ethA.value)
              && (a != b ==> (a in link.hostEth <==> ethA.Some?) && (b in link.hostEth <==> ethB.Some?))
    ensures link.switch == raw.switch && link.subnet == raw.subnet
  {
    NodeOrder();
    match raw
    case MultiHost(switch, subnet, hosts, eth) => Link(switch, subnet, Sort(NodeLeq, hosts), eth)
    case PointToPoint(switch, subnet, a, b, ethA, ethB) =>
      Link(switch, subnet, Sort(NodeLeq, [a, b]), Put(Put(map[], a, ethA), b, ethB))
  }

  /** What normalization guarantees of every link, and what host_count demands:
      max() over a link without hosts raises TypeError. */
  ghost predicate WellFormed(links: seq<Link>) {
    forall i | 0 <= i < |links| :: Ordered(NodeLeq, links[i].hosts) && links[i].hosts != []
  }

  // ---------- edges ----------

  datatype Edge = Edge(a: Node, b: Node, link: nat)

  /** `e` joins two different positions of the host list of link number `e.link`. */
  ghost predicate IsEdge(links: seq<Link>, e: Edge) {
    && e.link < |links|
    && exists i, j :: 0 <= i < j < |links[e.link].hosts| && links[e.link].hosts[i] == e.a && links[e.link].hosts[j] == e.b
  }

  /** Every pair of hosts that share a switch, in mesh_links order. */
  method Edges(links: seq<Link>) returns (es: seq<Edge>)
    ensures forall e :: e in es <==> IsEdge(links, e)
    ensures forall i, j | 0 <= i < j < |es| :: es[i].link <= es[j].link
  {
    es := [];
    for l := 0 to |links|
      invariant forall e :: e in es <==> e.link < l && IsEdge(links, e)
      invariant forall i, j | 0 <= i < j < |es| :: es[i].link <= es[j].link
    {
      var pairs := PairsFrom(links[l].hosts, l);
      forall e ensures e in pairs <==> e.link == l && IsEdge(links, e) {
      }
      es := es + pairs;
    }
  }

  /** All pairs of one host list. */
  method PairsFrom(hosts: seq<Node>, l: nat) returns (es: seq<Edge>)
    ensures forall e :: e in es <==> e.link == l && PairBefore(hosts, e.a, e.b, |hosts|)
  {
    es := [];
    for i := 0 to |hosts|
      invariant forall e :: e in es <==> e.link == l && PairBefore(hosts, e.a, e.b, i)
    {
      ghost var before := es;
      for j := i + 1 to |hosts|
        invariant forall e :: e in es <==> e in before || (e.link == l && e.a == hosts[i] && exists k :: i < k < j && hosts[k] == e.b)
      {
        es := es + [Edge(hosts[i], hosts[j], l)];
      }
    }
  }

  ghost predicate PairBefore(hosts: seq<Node>, a: Node, b: Node, n: int) {
    exists i, j :: 0 <= i < j < |hosts| && i < n && hosts[i] == a && hosts[j] == b
  }

  // ---------- host_count ----------

  ghost predicate Attached(links: seq<Link>, h: Node) {
    exists i :: 0 <= i < |links| && h in links[i].hosts
  }

  /** One more than the largest host number on any link. */
  method HostCount(links: seq<Link>) returns (n: nat)
    requires WellFormed(links)
    ensures forall h | Attached(links, h) :: h as int < n
    ensures n > 0 ==> Attached(links, (n - 1) as Node)
  {
    var highest: int := -1;
    for l := 0 to |links|
      invariant highest >= -1
      invariant forall i, h | 0 <= i < l && h in links[i].hosts :: h as int <= highest
      invariant highest >= 0 ==> Attached(links, highest as Node)
    {
      var hosts := links[l].hosts;
      for j := 0 to |hosts|
        invariant highest >= -1
        invariant forall i, h | 0 <= i < l && h in links[i].hosts :: h as int <= highest
        invariant forall h | h in hosts[..j] :: h as int <= highest
        invariant highest >= 0 ==> Attached(links, highest as Node)
      {
        assert hosts[..j + 1] == hosts[..j] + [hosts[j]];
        if hosts[j] as int > highest {
          highest := hosts[j] as int;
          assert hosts[j] in links[l].hosts;
        }
      }
      assert hosts[..|hosts|] == hosts;
    }
    n := highest + 1;
  }
}
