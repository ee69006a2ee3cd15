/** Link addresses below a /16 base, and the addresses interfaces receive. */
module Addressing {
  import opened Ordering
  import opened Wrappers
  import opened Topology

  /** The dotted quad, by octet. */
  datatype Ip = Ip(o0: int, o1: int, o2: int, o3: int)

  /** The network address of a /16 has zero third and fourth octets. */
  datatype Scheme = Scheme(o0: int, o1: int)

  /** host_ip; None where it raises ValueError. */
  function HostIp(scheme: Scheme, subnet: int, host: Node): (r: Option<Ip>)
    ensures r.Some? <==> 0 <= subnet <= 255 && host as int <= 253
  {
    var o2, o3 := 0 + subnet, host as int + 1;
    if !(0 <= o2 <= 255) then None
    else if !(1 <= o3 <= 254) then None
    else Some(Ip(scheme.o0, scheme.o1, o2, o3))
  }

  /** link_network: the /24 of a link, as its network address. */
  function LinkNetwork(scheme: Scheme, subnet: int): Option<Ip> {
    if 0 <= subnet <= 255 then Some(Ip(scheme.o0, scheme.o1, subnet, 0)) else None
  }

  predicate SameSlash24(a: Ip, b: Ip) {
    a.o0 == b.o0 && a.o1 == b.o1 && a.o2 == b.o2
  }

  /** The hosts of a link follow its network address one by one: .1, .2, ... */
  lemma HostsInOrder(scheme: Scheme, subnet: int, host: nat, before: Node)
    requires HostIp(scheme, subnet, host as Node).Some? && before as int == (if host > 0 then host - 1 else 0)
    ensures LinkNetwork(scheme, subnet) == Some(Ip(scheme.o0, scheme.o1, subnet, 0)) && HostIp(scheme, subnet, before).Some?
    ensures host == 0 ==> HostIp(scheme, subnet, 0).value == LinkNetwork(scheme, subnet).value.(o3 := 1)
    ensures host > 0 ==>
              HostIp(scheme, subnet, host as Node).value == HostIp(scheme, subnet, before).value.(o3 := HostIp(scheme, subnet, before).value.o3 + 1)
  {
  }

  /** An address names its link and its host, and lies in the link's /24. */
  lemma HostIpDecodes(scheme: Scheme, subnet: int, host: Node, subnet': int, host': Node)
    requires HostIp(scheme, subnet, host).Some? && HostIp(scheme, subnet', host') == HostIp(scheme, subnet, host)
    ensures subnet == subnet' && host == host'
    ensures LinkNetwork(scheme, subnet).Some?
            && SameSlash24(HostIp(scheme, subnet, host).value, LinkNetwork(scheme, subnet).value)
  {
  }

  /** `ip` is what host_ip yields for `host` on link number `l`. */
  predicate AddressOn(scheme: Scheme, links: seq<Link>, l: nat, host: Node, ip: Ip) {
    && l < |links| && host in links[l].hosts && links[l].subnet.Some?
    && HostIp(scheme, links[l].subnet.value, host) == Some(ip)
  }

  // ---------- apply_ip_addr ----------

  /** ifconfig <host>-eth<eth> <ip> */
  datatype Assignment = Assignment(host: Node, eth: nat, ip: Ip)

  ghost predicate AssignedOn(scheme: Scheme, links: seq<Link>, l: nat, a: Assignment) {
    AddressOn(scheme, links, l, a.host, a.ip) && a.host in links[l].hostEth && links[l].hostEth[a.host] == a.eth
  }

  /** An interface without an index, a subnet or an address in range. */
  ghost predicate Unassignable(scheme: Scheme, links: seq<Link>, l: nat, h: Node) {
    && l < |links| && h in links[l].hosts
    && (h !in links[l].hostEth || links[l].subnet.None? || HostIp(scheme, links[l].subnet.value, h).None?)
  }

  /** Assigns every interface of every link; None where an exception escapes
      (no interface index, no subnet, or an address out of range). */
  method ApplyIpAddr(links: seq<Link>, scheme: Scheme) returns (r: Option<seq<Assignment>>)
    ensures r.Some? ==> forall a :: a in r.value <==> exists l :: AssignedOn(scheme, links, l, a)
    ensures r.None? <==> exists l, h :: Unassignable(scheme, links, l, h)
  {
    var done: seq<Assignment> := [];
    for l := 0 to |links|
      invariant forall a :: a in done <==> exists k: nat :: k < l && AssignedOn(scheme, links, k, a)
      invariant forall k: nat, h | k < l :: !Unassignable(scheme, links, k, h)
    {
      var hosts := links[l].hosts;
      for j := 0 to |hosts|
        invariant forall a :: a in done <==> (exists k: nat :: k < l && AssignedOn(scheme, links, k, a))
                                             || (AssignedOn(scheme, links, l, a) && a.host in hosts[..j])
        invariant forall h | h in hosts[..j] :: !Unassignable(scheme, links, l, h)
      {
        var h := hosts[j];
        assert hosts[..j + 1] == hosts[..j] + [h];
        if h !in links[l].hostEth || links[l].subnet.None? {
          assert Unassignable(scheme, links, l, h);
          return None;
        }
        var ip := HostIp(scheme, links[l].subnet.value, h);
        if ip.None? {
          assert Unassignable(scheme, links, l, h);
          return None;
        }
        done := done + [Assignment(h, links[l].hostEth[h], ip.value)];
      }
      assert hosts[..|hosts|] == hosts;
    }
    return Some(done);
  }

  // ---------- canonical_host_ip ----------

  ghost predicate OnSubnet(links: seq<Link>, host: Node, subnet: int) {
    exists l :: 0 <= l < |links| && host in links[l].hosts && links[l].subnet == Some(subnet)
  }

  ghost predicate LowestSubnet(links: seq<Link>, host: Node, subnet: int) {
    OnSubnet(links, host, subnet) && forall s | OnSubnet(links, host, s) :: subnet <= s
  }

  /** The host's address on its lowest numbered subnet; None where ValueError is raised. */
  method CanonicalHostIp(links: seq<Link>, scheme: Scheme, host: Node) returns (r: Option<Ip>)
    ensures (forall s :: !OnSubnet(links, host, s)) ==> r == None
    ensures forall s | LowestSubnet(links, host, s) :: r == HostIp(scheme, s, host)
    ensures r.Some? ==> exists s :: LowestSubnet(links, host, s)
  {
    var lowest: Option<int> := None;
    for l := 0 to |links|
      invariant lowest.None? <==> forall s :: !OnSubnet(links[..l], host, s)
      invariant lowest.Some? ==> OnSubnet(links[..l], host, lowest.value) && forall s | OnSubnet(links[..l], host, s) :: lowest.value <= s
    {
      var link := links[l];
      OnSubnetMore(links, l, host);
      if host in link.hosts {
        if link.subnet.Some? {
          if lowest.None? || link.subnet.value < lowest.value {
            lowest := link.subnet;
          }
        }
      }
    }
    assert links[..|links|] == links;
    if lowest.None? {
      return None;
    }
    assert LowestSubnet(links, host, lowest.value);
    r := HostIp(scheme, lowest.value, host);
  }

  lemma OnSubnetMore(links: seq<Link>, l: nat, host: Node)
    requires l < |links|
    ensures forall s :: OnSubnet(links[..l + 1], host, s)
                  <==> OnSubnet(links[..l], host, s) || (host in links[l].hosts && links[l].subnet == Some(s))
  {
    var a, b := links[..l], links[..l + 1];
    assert forall i | 0 <= i < l :: a[i] == b[i] == links[i];
    assert b[l] == links[l];
    forall s ensures OnSubnet(b, host, s) <==> OnSubnet(a, host, s) || (host in links[l].hosts && links[l].subnet == Some(s)) {
      if OnSubnet(a, host, s) {
        var i :| 0 <= i < |a| && host in a[i].hosts && a[i].subnet == Some(s);
        assert host in b[i].hosts && b[i].subnet == Some(s);
      }
      if OnSubnet(b, host, s) {
        var i :| 0 <= i < |b| && host in b[i].hosts && b[i].subnet == Some(s);
        if i < l { assert host in a[i].hosts && a[i].subnet == Some(s); }
      }
      if host in links[l].hosts && links[l].subnet == Some(s) {
        assert host in b[l].hosts && b[l].subnet == Some(s);
      }
    }
  }
}
