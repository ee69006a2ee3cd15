/** Union by size with path halving: the UnionFind class. */
module UnionFind {

  /** A pair of elements joined by a call of union. */
  datatype Link = Link(a: nat, b: nat)

  function Pow2(n: nat): nat {
    if n == 0 then 1 else 2 * Pow2(n - 1)
  }

  // ---------- the reference: chains of unions ----------

  ghost predicate Adjacent(links: seq<Link>, x: nat, y: nat) {
    x == y || Link(x, y) in links || Link(y, x) in links
  }

  ghost predicate Chain(links: seq<Link>, p: seq<nat>, x: nat, y: nat) {
    && |p| > 0 && p[0] == x && p[|p| - 1] == y
    && forall i | 0 <= i < |p| - 1 :: Adjacent(links, p[i], p[i + 1])
  }

  /** `x` and `y` are joined by the unions so far. */
  ghost predicate Joined(links: seq<Link>, x: nat, y: nat) {
    exists p :: Chain(links, p, x, y)
  }

  lemma JoinedStep(links: seq<Link>, x: nat, y: nat)
    requires Adjacent(links, x, y)
    ensures Joined(links, x, y)
  {
    assert Chain(links, [x, y], x, y);
  }

  lemma JoinedTransitive(links: seq<Link>, x: nat, y: nat, z: nat)
    requires Joined(links, x, y) && Joined(links, y, z)
    ensures Joined(links, x, z)
  {
    var p :| Chain(links, p, x, y);
    var q :| Chain(links, q, y, z);
    var r := p + q;
    assert Chain(links, r, x, z) by {
      forall i | 0 <= i < |r| - 1 ensures Adjacent(links, r[i], r[i + 1]) {
        if i < |p| - 1 {
          assert r[i] == p[i] && r[i + 1] == p[i + 1];
        } else if i >= |p| {
          assert r[i] == q[i - |p|] && r[i + 1] == q[i - |p| + 1];
        }
      }
    }
  }

  lemma JoinedMonotone(links: seq<Link>, l: Link, x: nat, y: nat)
    requires Joined(links, x, y)
    ensures Joined(links + [l], x, y)
  {
    var p :| Chain(links, p, x, y);
    assert Chain(links + [l], p, x, y);
  }

  /** A labelling that is constant along every union is constant along every chain. */
  lemma {:induction false} ChainKeepsLabel(links: seq<Link>, root: seq<nat>, p: seq<nat>, x: nat, y: nat)
    requires Chain(links, p, x, y) && x < |root|
    requires forall l | l in links :: l.a < |root| && l.b < |root| && root[l.a] == root[l.b]
    ensures y < |root| && root[x] == root[y]
  {
    if |p| > 1 {
      ChainKeepsLabel(links, root, p[..|p| - 1], x, p[|p| - 2]);
      assert Adjacent(links, p[|p| - 2], p[|p| - 2 + 1]);
    }
  }

  /** The members of the class with representative `r`. */
  ghost function Class(root: seq<nat>, r: nat): set<nat> {
    set x: nat | 0 <= x < |root| && root[x] == r
  }

  /** Merge the class of `loser` into that of `winner`. */
  ghost function Relabel(root: seq<nat>, winner: nat, loser: nat): (r: seq<nat>)
    ensures |r| == |root|
    ensures forall x | 0 <= x < |root| :: r[x] == if root[x] == loser then winner else root[x]
  {
    seq(|root|, i requires 0 <= i < |root| => if root[i] == loser then winner else root[i])
  }

  lemma RelabelClass(root: seq<nat>, winner: nat, loser: nat)
    requires winner != loser
    ensures Class(Relabel(root, winner, loser), winner) == Class(root, winner) + Class(root, loser)
    ensures Class(root, winner) !! Class(root, loser)
    ensures forall r | r != winner && r != loser :: Class(Relabel(root, winner, loser), r) == Class(root, r)
  {
  }

  // ---------- the forest, on the contents of the two arrays ----------

  /** Parents stay in the class and lie strictly shallower; only representatives are their own parent. */
  ghost predicate Forest(parent: seq<nat>, root: seq<nat>, depth: seq<nat>) {
    && |parent| == |root| == |depth|
    && forall x | 0 <= x < |root| :: NodeOk(parent, root, depth, x)
  }

  ghost predicate NodeOk(parent: seq<nat>, root: seq<nat>, depth: seq<nat>, x: nat)
    requires |parent| == |root| == |depth| && x < |root|
  {
    && root[x] < |root| && root[root[x]] == root[x]
    && parent[x] < |root| && root[parent[x]] == root[x]
    && (parent[x] == x <==> root[x] == x)
    && (parent[x] != x ==> depth[parent[x]] < depth[x])
    && (root[x] == x ==> depth[x] == 0)
  }

  /** Sizes are exact at representatives, and a deep class is a large one. */
  ghost predicate Sized(size: seq<nat>, root: seq<nat>, depth: seq<nat>) {
    && |size| == |root| == |depth|
    && (forall x | 0 <= x < |root| :: root[x] < |root| && Pow2(depth[x]) <= size[root[x]])
    && (forall r | 0 <= r < |root| && root[r] == r :: size[r] == |Class(root, r)|)
  }

  /** The classes are exactly those generated by the unions. */
  ghost predicate Faithful(links: seq<Link>, root: seq<nat>) {
    && (forall l | l in links :: l.a < |root| && l.b < |root| && root[l.a] == root[l.b])
    && (forall x | 0 <= x < |root| :: Joined(links, x, root[x]) && Joined(links, root[x], x))
  }

  lemma Halve(parent: seq<nat>, root: seq<nat>, depth: seq<nat>, x: nat)
    requires Forest(parent, root, depth) && x < |root| && parent[x] != x
    ensures parent[x] < |parent| && parent[parent[x]] < |root|
    ensures root[parent[parent[x]]] == root[x] && depth[parent[parent[x]]] < depth[x]
    ensures Forest(parent[x := parent[parent[x]]], root, depth)
  {
    assert NodeOk(parent, root, depth, x);
    assert NodeOk(parent, root, depth, parent[x]);
    var p := parent[x := parent[parent[x]]];
    assert NodeOk(parent, root, depth, parent[parent[x]]);
    forall y | 0 <= y < |root| ensures NodeOk(p, root, depth, y) {
      assert NodeOk(parent, root, depth, y);
    }
  }

  /** How many parent links lead from `x` to its representative. */
  ghost function PathLength(parent: seq<nat>, root: seq<nat>, depth: seq<nat>, x: nat): nat
    requires Forest(parent, root, depth) && x < |root|
    decreases depth[x]
  {
    assert NodeOk(parent, root, depth, x);
    if parent[x] == x then 0 else 1 + PathLength(parent, root, depth, parent[x])
  }

  /** Halving at `x` leaves the way from any shallower node as it is. */
  lemma {:induction false} HalvingElsewhere(parent: seq<nat>, root: seq<nat>, depth: seq<nat>, x: nat, y: nat)
    requires Forest(parent, root, depth) && x < |root| && y < |root| && parent[x] != x && depth[y] < depth[x]
    ensures parent[x] < |parent| && Forest(parent[x := parent[parent[x]]], root, depth)
    ensures PathLength(parent[x := parent[parent[x]]], root, depth, y) == PathLength(parent, root, depth, y)
    decreases depth[y]
  {
    hide Forest;
    Halve(parent, root, depth, x);
    ParentShallower(parent, root, depth, y);
    if parent[y] != y { HalvingElsewhere(parent, root, depth, x, parent[y]); }
  }

  lemma ParentShallower(parent: seq<nat>, root: seq<nat>, depth: seq<nat>, y: nat)
    requires Forest(parent, root, depth) && y < |root|
    ensures |parent| == |root| == |depth| && parent[y] < |root| && (parent[y] != y ==> depth[parent[y]] < depth[y])
  {
    assert NodeOk(parent, root, depth, y);
  }

  lemma AtRoot(parent: seq<nat>, root: seq<nat>, depth: seq<nat>, x: nat)
    requires Forest(parent, root, depth) && x < |root| && parent[x] == x
    ensures PathLength(parent, root, depth, x) == 0
  {
  }

  /** One halving step saves two links, or the last one. */
  lemma HalveShortens(parent: seq<nat>, root: seq<nat>, depth: seq<nat>, x: nat)
    requires Forest(parent, root, depth) && x < |root| && parent[x] != x
    ensures parent[x] < |parent| && parent[parent[x]] < |root| && Forest(parent[x := parent[parent[x]]], root, depth)
    ensures (PathLength(parent, root, depth, x) + 1) / 2
         == 1 + (PathLength(parent[x := parent[parent[x]]], root, depth, parent[parent[x]]) + 1) / 2
  {
    Halve(parent, root, depth, x);
    assert NodeOk(parent, root, depth, x) && NodeOk(parent, root, depth, parent[x]);
    hide Forest, NodeOk;
    HalvingElsewhere(parent, root, depth, x, parent[parent[x]]);
  }

  /** One more level for the members of the class that is hung below another. */
  ghost function Deepen(depth: seq<nat>, root: seq<nat>, loser: nat): (d: seq<nat>)
    requires |depth| == |root|
    ensures |d| == |depth|
    ensures forall x | 0 <= x < |d| :: d[x] == if root[x] == loser then depth[x] + 1 else depth[x]
  {
    seq(|depth|, i requires 0 <= i < |depth| => if root[i] == loser then depth[i] + 1 else depth[i])
  }

  lemma HangForest(parent: seq<nat>, root: seq<nat>, depth: seq<nat>, winner: nat, loser: nat)
    requires Forest(parent, root, depth) && winner != loser
    requires winner < |root| && root[winner] == winner && loser < |root| && root[loser] == loser
    ensures Forest(parent[loser := winner], Relabel(root, winner, loser), Deepen(depth, root, loser))
  {
    var p, r, d := parent[loser := winner], Relabel(root, winner, loser), Deepen(depth, root, loser);
    assert NodeOk(parent, root, depth, winner) && NodeOk(parent, root, depth, loser);
    forall y | 0 <= y < |root| ensures NodeOk(p, r, d, y) {
      assert NodeOk(parent, root, depth, y);
      assert NodeOk(parent, root, depth, parent[y]);
    }
  }

  lemma HangSized(size: seq<nat>, root: seq<nat>, depth: seq<nat>, winner: nat, loser: nat)
    requires Sized(size, root, depth) && winner != loser
    requires winner < |root| && root[winner] == winner && loser < |root| && root[loser] == loser
    requires size[loser] <= size[winner]
    ensures Sized(size[winner := size[winner] + size[loser]], Relabel(root, winner, loser), Deepen(depth, root, loser))
  {
    hide Class;
    RelabelClass(root, winner, loser);
    var s, r, d := size[winner := size[winner] + size[loser]], Relabel(root, winner, loser), Deepen(depth, root, loser);
    ClassesApart(root, winner, loser);
    forall x | 0 <= x < |r|
      ensures r[x] < |r| && Pow2(d[x]) <= s[r[x]]
    {
      assert Pow2(depth[x]) <= size[root[x]];
    }
    forall x | 0 <= x < |r| && r[x] == x
      ensures s[x] == |Class(r, x)|
    {
      assert root[x] == x && x != loser;
    }
  }

  lemma ClassesApart(root: seq<nat>, winner: nat, loser: nat)
    requires winner != loser
    ensures |Class(Relabel(root, winner, loser), winner)| == |Class(root, winner)| + |Class(root, loser)|
  {
    RelabelClass(root, winner, loser);
    hide Class;
  }

  class UnionFind {
    var parent: array<nat>
    var size: array<nat>
    /** The representative of each element, a bound on its depth, and the history of union calls. */
    ghost var root: seq<nat>
    ghost var depth: seq<nat>
    ghost var links: seq<Link>

    ghost predicate Valid()
      reads this, parent, size
    {
      && parent != size
      && Forest(parent[..], root, depth) && Sized(size[..], root, depth) && Faithful(links, root)
    }

    constructor (n: nat)
      ensures Valid() && fresh(parent) && fresh(size)
      ensures |root| == n && links == []
    {
      parent := new nat[n](i => i);
      size := new nat[n](i => 1);
      root := seq(n, i => i);
      depth := seq(n, i => 0);
      links := [];
      new;
      forall x | 0 <= x < n ensures Joined(links, x, x) && Class(root, x) == {x} {
        JoinedStep(links, x, x);
      }
      assert forall x | 0 <= x < n :: NodeOk(parent[..], root, depth, x);
    }

    /** Path halving moves parents but no class. The loop takes one step per two links of
        the way to the representative, at most log2(class size) of them. */
    method Find(x: nat) returns (r: nat, ghost steps: nat)
      requires Valid() && x < |root|
      modifies parent
      ensures Valid() && r < |root| && r == root[x] && root[r] == r
      ensures steps == (old(PathLength(parent[..], root, depth, x)) + 1) / 2
      ensures Pow2(steps) <= |Class(root, r)|
    {
      hide Sized, Faithful, Forest, NodeOk, PathLength, Class;
      r, steps := x, 0;
      FindBounds(parent[..], size[..], root, depth, x, x);
      while r != parent[r]
        invariant Forest(parent[..], root, depth)
        invariant r < |root| == |depth| == parent.Length && root[r] == root[x]
        invariant steps + depth[r] <= depth[x]
        invariant steps + (PathLength(parent[..], root, depth, r) + 1) / 2 == (old(PathLength(parent[..], root, depth, x)) + 1) / 2
        decreases depth[r]
      {
        Halve(parent[..], root, depth, r);
        HalveShortens(parent[..], root, depth, r);
        ghost var next := parent[..][r := parent[parent[r]]];
        parent[r] := parent[parent[r]];
        assert parent[..] == next;
        r := parent[r];
        steps := steps + 1;
      }
      AtRoot(parent[..], root, depth, r);
      FindBounds(parent[..], size[..], root, depth, x, r);
      PowMonotone(steps, depth[x]);
    }

    method Connected(a: nat, b: nat) returns (same: bool)
      requires Valid() && a < |root| && b < |root|
      modifies parent
      ensures Valid()
      ensures same <==> Joined(links, a, b)
    {
      var ra, _ := Find(a);
      var rb, _ := Find(b);
      same := ra == rb;
      SameRootIffJoined(links, root, a, b);
    }

    method Union(a: nat, b: nat) returns (merged: bool)
      requires Valid() && a < |root| && b < |root|
      modifies this, parent, size
      ensures Valid() && parent == old(parent) && size == old(size) && |root| == old(|root|)
      ensures links == old(links) + [Link(a, b)]
      ensures merged <==> !old(Joined(links, a, b))
    {
      hide Sized, Faithful, Forest, NodeOk, PathLength, Class, Relabel, Deepen, Joined;
      SameRootIffJoined(links, root, a, b);
      var ra, _ := Find(a);
      var rb, _ := Find(b);
      Linked(links, Link(a, b), root);
      links := links + [Link(a, b)];
      if ra == rb {
        return false;
      }
      FindBounds(parent[..], size[..], root, depth, a, ra);
      if size[ra] < size[rb] {
        ra, rb := rb, ra;
      }
      ghost var p, s := parent[..][rb := ra], size[..][ra := size[ra] + size[rb]];
      HangForest(parent[..], root, depth, ra, rb);
      HangSized(size[..], root, depth, ra, rb);
      parent[rb] := ra;
      size[ra] := size[ra] + size[rb];
      assert parent[..] == p && size[..] == s;
      root, depth := Relabel(root, ra, rb), Deepen(depth, root, rb);
      return true;
    }
  }

  lemma FindBounds(parent: seq<nat>, size: seq<nat>, root: seq<nat>, depth: seq<nat>, x: nat, r: nat)
    requires Forest(parent, root, depth) && Sized(size, root, depth)
    requires x < |root| && r < |root| && root[r] == root[x]
    ensures |parent| == |size| == |root| == |depth|
    ensures parent[r] == r ==> r == root[x] && root[r] == r && Pow2(depth[x]) <= |Class(root, r)|
  {
    assert NodeOk(parent, root, depth, r);
  }

  lemma SameRootIffJoined(links: seq<Link>, root: seq<nat>, a: nat, b: nat)
    requires Faithful(links, root) && a < |root| && b < |root|
    ensures root[a] == root[b] <==> Joined(links, a, b)
  {
    if root[a] == root[b] {
      JoinedTransitive(links, a, root[a], b);
    }
    if Joined(links, a, b) {
      var p :| Chain(links, p, a, b);
      ChainKeepsLabel(links, root, p, a, b);
    }
  }

  /** Recording a union keeps the classes faithful: as they are when the two
      representatives agree, merged either way round when they do not. */
  lemma Linked(links: seq<Link>, l: Link, root: seq<nat>)
    requires Faithful(links, root) && l.a < |root| && l.b < |root|
    requires root[l.a] < |root| && root[l.b] < |root|
    ensures root[l.a] == root[l.b] ==> Faithful(links + [l], root)
    ensures root[l.a] != root[l.b] ==>
              && Faithful(links + [l], Relabel(root, root[l.a], root[l.b]))
              && Faithful(links + [l], Relabel(root, root[l.b], root[l.a]))
  {
    hide Joined;
    Extended(links, l, root);
    if root[l.a] != root[l.b] {
      Bridged(links, l, root, root[l.a], root[l.b]);
      Bridged(links, l, root, root[l.b], root[l.a]);
    }
  }

  lemma {:induction false} PowMonotone(m: nat, n: nat)
    requires m <= n
    ensures Pow2(m) <= Pow2(n)
  {
    if m < n { PowMonotone(m, n - 1); }
  }

  lemma Extended(links: seq<Link>, l: Link, root: seq<nat>)
    requires forall x | 0 <= x < |root| :: Joined(links, x, root[x]) && Joined(links, root[x], x)
    ensures forall x | 0 <= x < |root| :: Joined(links + [l], x, root[x]) && Joined(links + [l], root[x], x)
  {
    forall x | 0 <= x < |root| ensures Joined(links + [l], x, root[x]) && Joined(links + [l], root[x], x) {
      JoinedMonotone(links, l, x, root[x]);
      JoinedMonotone(links, l, root[x], x);
    }
  }

  /** With the new link the two old representatives are joined, hence their classes. */
  lemma Bridged(links: seq<Link>, l: Link, root: seq<nat>, winner: nat, loser: nat)
    requires l.a < |root| && l.b < |root|
    requires (root[l.a] == winner && root[l.b] == loser) || (root[l.a] == loser && root[l.b] == winner)
    requires forall x | 0 <= x < |root| :: Joined(links + [l], x, root[x]) && Joined(links + [l], root[x], x)
    ensures forall x | 0 <= x < |root| ::
              && Joined(links + [l], x, Relabel(root, winner, loser)[x])
              && Joined(links + [l], Relabel(root, winner, loser)[x], x)
  {
    var ls := links + [l];
    assert l in ls && l == Link(l.a, l.b);
    JoinedStep(ls, l.a, l.b);
    JoinedStep(ls, l.b, l.a);
    var x, y := if root[l.a] == winner then l.a else l.b, if root[l.a] == winner then l.b else l.a;
    JoinedTransitive(ls, loser, y, x);
    JoinedTransitive(ls, loser, x, winner);
    JoinedTransitive(ls, winner, x, y);
    JoinedTransitive(ls, winner, y, loser);
    forall z | 0 <= z < |root| && root[z] == loser ensures Joined(ls, z, winner) && Joined(ls, winner, z) {
      JoinedTransitive(ls, z, loser, winner);
      JoinedTransitive(ls, winner, loser, z);
    }
  }
}
