/** What the mesh builder hands to the routing stack: on every mesh it builds, every
    host has a next hop towards every other. */
module MeshRouting {
  import opened Ordering
  import opened Paths
  import opened Topology
  import opened Fib
  import opened MeshBase
  import opened MeshBuild
  import opened Routing

  /** Two hosts of one switch are an edge of the topology model. */
  lemma SharedSwitchIsEdge(links: seq<Link>, sws: Switches, l: nat, a: Node, b: Node)
    requires RecordsOf(links, sws) && l < |sws| && a in sws[l] && b in sws[l] && a != b
    ensures Linked(links, a, b)
  {
    var hosts := links[l].hosts;
    assert RecordOf(links[l], sws, l);
    assert a in hosts && b in hosts;
    var i :| 0 <= i < |hosts| && hosts[i] == a;
    var j :| 0 <= j < |hosts| && hosts[j] == b;
    assert IsEdge(links, if i < j then Edge(a, b, l) else Edge(b, a, l));
    assert Joins(links, l, a, b);
  }

  /** Mesh links are what the topology model asks for: sorted, non-empty host lists. */
  lemma MeshWellFormed(links: seq<Link>, sws: Switches, n: nat, cap: nat)
    requires RecordsOf(links, sws) && WithinCapacity(sws, n, cap)
    ensures WellFormed(links)
  {
    forall i | 0 <= i < |links|
      ensures Ordered(NodeLeq, links[i].hosts) && links[i].hosts != []
    {
      assert RecordOf(links[i], sws, i);
    }
  }

  lemma MeshWalk(links: seq<Link>, sws: Switches, n: nat, t: Tables, a: Node, b: Node, p: Path)
    requires RecordsOf(links, sws) && TablesOk(links, t) && Walk(HostGraph(sws, n), a, b, p)
    ensures Walk(t.graph, a, b, p)
  {
    hide RecordsOf;
    forall i | 0 <= i < |p| - 1
      ensures p[i + 1] in Neighbors(t.graph, p[i])
    {
      assert p[i + 1] in Neighbors(HostGraph(sws, n), p[i]);
      var l :| 0 <= l < |sws| && p[i] in sws[l] && p[i + 1] in sws[l];
      SharedSwitchIsEdge(links, sws, l, p[i], p[i + 1]);
    }
  }

  /** A connected mesh is routed from everywhere to everywhere. */
  lemma MeshIsRouted(links: seq<Link>, sws: Switches, n: nat, t: Tables, a: Node, b: Node)
    requires RecordsOf(links, sws) && AllConnected(sws, n) && TablesOk(links, t)
    requires Host(n, a) && Host(n, b) && a != b
    ensures Known(t, a, b) && exists hop :: IsHop(t, Best(1), a, b, hop)
  {
    hide RecordsOf, TablesOk, HostGraph, Neighbors;
    var p :| Walk(HostGraph(sws, n), a, b, p);
    MeshWalk(links, sws, n, t, a, b, p);
    assert Reachable(t.graph, a, b) && p[1] in Neighbors(t.graph, a);
    NeighborIsHost(links, t, a, p[1]);
    KnownIffReachable(links, t, a, b);
    BestOneIsCloser(links, t, a, b);
  }

  /** The builder's mesh, taken through the topology tables: all pairs have a next hop. */
  method MeshTables(hosts: nat, switchNum: int, nodePerSwitch: int, degreeMin: int, degreeMax: int, useAll: bool, drawn: Degrees)
    returns (r: MeshResult, t: Tables)
    requires hosts >= 1 && Draws(drawn, hosts, degreeMin, degreeMax)
    ensures r.Built? ==> TablesOk(r.links, t)
    ensures r.Built? ==> forall a, b | Host(hosts, a) && Host(hosts, b) && a != b ::
              Known(t, a, b) && exists hop :: IsHop(t, Best(1), a, b, hop)
  {
    hide RecordsOf, AllConnected, WithinCapacity, TablesOk, WellFormed, Known, IsHop;
    ghost var run, packed, sws;
    r, run, packed, sws := BuildMesh(hosts, switchNum, nodePerSwitch, degreeMin, degreeMax, useAll, drawn);
    t := Tables(0, map[], map[], []);
    if r.Built? {
      MeshWellFormed(r.links, sws, hosts, Capacity(nodePerSwitch, hosts));
      t := BuildTables(r.links);
      forall a, b | Host(hosts, a) && Host(hosts, b) && a != b
        ensures Known(t, a, b) && exists hop :: IsHop(t, Best(1), a, b, hop)
      {
        MeshIsRouted(r.links, sws, hosts, t, a, b);
      }
    }
  }
}
