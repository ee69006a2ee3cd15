/** Sorted collections: `sorted(...)` over a set of node numbers, and the
    binary heap of Python's heapq, kept as a multiset (its only observable
    behaviour is that a pop takes out a least element). */
module Ordering {

  /** Host and node numbers. */
  newtype Node = x: int | 0 <= x

  function Elements(xs: seq<Node>): set<Node> {
    set x | x in xs
  }

  // ---------- hosts 0 .. n-1 ----------

  predicate Host(n: nat, h: Node) {
    h as int < n
  }

  /** range(n) as a list */
  function Range(n: nat): (r: seq<Node>)
    ensures |r| == n && forall i | 0 <= i < n :: r[i] as int == i
  {
    if n == 0 then [] else Range(n - 1) + [(n - 1) as Node]
  }

  ghost predicate Distinct(hs: seq<Node>) {
    forall i, j | 0 <= i < j < |hs| :: hs[i] != hs[j]
  }

  lemma InRange(n: nat, h: Node)
    ensures h in Elements(Range(n)) <==> Host(n, h)
  {
    if Host(n, h) { assert Range(n)[h as int] == h; }
  }

  lemma RangeHosts(n: nat)
    ensures Distinct(Range(n)) && forall h :: h in Range(n) <==> Host(n, h)
  {
    forall h ensures h in Range(n) <==> Host(n, h) {
      InRange(n, h);
    }
  }

  function AllHosts(n: nat): set<Node> {
    Elements(Range(n))
  }

  lemma AllHostsCount(n: nat)
    ensures |AllHosts(n)| == n && forall h :: h in AllHosts(n) <==> Host(n, h)
  {
    RangeHosts(n);
    DistinctCount(Range(n));
  }

  lemma {:induction false} DistinctCount(hs: seq<Node>)
    requires Distinct(hs)
    ensures |Elements(hs)| == |hs|
  {
    if hs != [] {
      var front := hs[..|hs| - 1];
      DistinctCount(front);
      assert Elements(hs) == Elements(front) + {hs[|hs| - 1]};
      assert hs[|hs| - 1] !in front;
    } else {
      assert Elements(hs) == {};
    }
  }

  // ---------- sorted(set) ----------

  ghost predicate Increasing(s: seq<Node>) {
    forall i, j | 0 <= i < j < |s| :: s[i] < s[j]
  }

  lemma MinExists(s: set<Node>) returns (m: Node)
    requires s != {}
    ensures m in s && forall x | x in s :: m <= x
  {
    var top :| top in s;
    if x :| x in s && x < top {
      assert x in s - {top};
      m := MinExists(s - {top});
      assert s == (s - {top}) + {top};
    } else {
      m := top;
    }
  }

  function Min(s: set<Node>): (m: Node)
    requires s != {}
    ensures m in s && forall x | x in s :: m <= x
  {
    var w := assert exists m :: m in s && forall x | x in s :: m <= x by { var m := MinExists(s); } 0;
    var m :| m in s && forall x | x in s :: m <= x;
    m
  }

  /** The elements of a set in ascending order. */
  function Sorted(s: set<Node>): (r: seq<Node>)
    ensures Increasing(r) && |r| == |s|
    ensures forall x :: x in r <==> x in s
  {
    if s == {} then [] else
      var m := Min(s);
      [m] + Sorted(s - {m})
  }

  lemma {:induction false} IncreasingUnique(a: seq<Node>, b: seq<Node>)
    requires Increasing(a) && Increasing(b)
    requires forall x :: x in a <==> x in b
    ensures a == b
  {
    assert b != [] ==> b[0] in b;
    if a != [] {
      assert a[0] in b;
      assert b[0] in a;
      assert a[0] == b[0];
      forall x ensures x in a[1..] <==> x in b[1..] {
        if x in a[1..] { assert x in a && x != a[0]; }
        if x in b[1..] { assert x in b && x != b[0]; }
      }
      IncreasingUnique(a[1..], b[1..]);
    }
  }

  // ---------- heapq ----------

  ghost predicate TotalPreorder<T(!new)>(leq: (T, T) -> bool) {
    && (forall x, y :: leq(x, y) || leq(y, x))
    && (forall x, y, z :: leq(x, y) && leq(y, z) ==> leq(x, z))
  }

  ghost predicate Least<T(!new)>(leq: (T, T) -> bool, heap: multiset<T>, x: T) {
    x in heap && forall y | y in heap :: leq(x, y)
  }

  lemma {:induction false} LeastExists<T(!new)>(leq: (T, T) -> bool, heap: multiset<T>) returns (m: T)
    requires TotalPreorder(leq) && |heap| > 0
    ensures Least(leq, heap, m)
    decreases |heap|
  {
    var top :| top in heap;
    var rest := heap - multiset{top};
    assert heap == rest + multiset{top};
    if |rest| == 0 {
      m := top;
    } else {
      m := LeastExists(leq, rest);
      if !leq(m, top) { m := top; }
    }
  }

  /** heappop */
  method PopLeast<T(!new)>(leq: (T, T) -> bool, heap: multiset<T>) returns (x: T, rest: multiset<T>)
    requires TotalPreorder(leq) && |heap| > 0
    ensures Least(leq, heap, x)
    ensures heap == rest + multiset{x}
  {
    ghost var m := LeastExists(leq, heap);
    x :| x in heap && forall y | y in heap :: leq(x, y);
    rest := heap - multiset{x};
  }

  // ---------- list.sort ----------

  ghost predicate Ordered<T>(leq: (T, T) -> bool, q: seq<T>) {
    forall i, j | 0 <= i < j < |q| :: leq(q[i], q[j])
  }

  /** Ordered insertion, behind every entry that ranks no later. */
  function Push<T(!new)>(leq: (T, T) -> bool, q: seq<T>, x: T): (r: seq<T>)
    requires TotalPreorder(leq) && Ordered(leq, q)
    ensures Ordered(leq, r)
    ensures multiset(r) == multiset(q) + multiset{x}
    ensures forall y :: y in r <==> y in q || y == x
    ensures |r| == |q| + 1
  {
    if q == [] then [x]
    else if leq(q[0], x) then
      var t := Push(leq, q[1..], x);
      assert q == [q[0]] + q[1..];
      assert forall y :: y in t ==> leq(q[0], y);
      [q[0]] + t
    else
      [x] + q
  }

  /** Stable sort by insertion. */
  function Sort<T(!new)>(leq: (T, T) -> bool, q: seq<T>): (r: seq<T>)
    requires TotalPreorder(leq)
    ensures Ordered(leq, r)
    ensures multiset(r) == multiset(q)
    ensures forall y :: y in r <==> y in q
    ensures |r| == |q|
  {
    if q == [] then []
    else
      assert q == q[..|q| - 1] + [q[|q| - 1]];
      Push(leq, Sort(leq, q[..|q| - 1]), q[|q| - 1])
  }
}
