/** The shared view of which hosts are down. */
module FlapState {
  import opened Wrappers
  import opened Ordering

  datatype View = View(down: seq<Node>, last: Option<Node>)

  function Updated(v: View, hosts: set<Node>, last: Option<Node>): View {
    View(Sorted(hosts), if last.Some? then last else v.last)
  }

  class State {
    var downHosts: seq<Node>
    var lastDownHost: Option<Node>

    ghost function Contents(): View
      reads this
    {
      View(downHosts, lastDownHost)
    }

    constructor ()
      ensures Contents() == View([], None)
    {
      downHosts, lastDownHost := [], None;
    }

    method Update(hosts: set<Node>, last: Option<Node>)
      modifies this
      ensures Increasing(downHosts) && forall h :: h in downHosts <==> h in hosts
      ensures lastDownHost == if last.Some? then last else old(lastDownHost)
      ensures Contents() == Updated(old(Contents()), hosts, last)
    {
      downHosts := Sorted(hosts);
      if last.Some? { lastDownHost := last; }
    }
  }

  /** The view names exactly the hosts of the last update, in ascending order. */
  lemma ViewIsSorted(v: View, hosts: set<Node>, last: Option<Node>, s: seq<Node>)
    requires Increasing(s) && forall h :: h in s <==> h in hosts
    ensures Updated(v, hosts, last).down == s
  {
    IncreasingUnique(Sorted(hosts), s);
  }
}
