/** Where k_shortest_paths falls short: for every k from 4 on, a graph with k simple
    paths of which it returns fewer than k. A path found again in a later round stays
    among the candidates, and the round that pops it lists nothing. */
module YenLimits {
  import opened Ordering
  import opened Paths
  import opened Yen

  // ---------- the graph ----------

  const SHORT: Path := [0, 1, 3]
  const DETOUR: Path := [0, 1, 4, 3]
  const OTHER: Path := [0, 2, 3]

  function Side(x: Node): Path {
    [0, x, 3]
  }

  function Nodes(k: nat): seq<Node> {
    Range(k + 2)
  }

  function Sides(k: nat): set<Node> {
    set x | x in Nodes(k) && x >= 5
  }

  /** Two cheap routes through node 1, one through node 2, and k - 3 dear ones. */
  function Web(k: nat): Graph {
    map n | n in Nodes(k) ::
      if n == 0 then {1, 2} + Sides(k) else if n == 1 then {3, 4} else if n == 3 then {} else {3}
  }

  function Toll(): Weight {
    (a, b) => if a >= 5 || b >= 5 then 10 else if a == 2 || b == 2 then 2 else 1
  }


  lemma CostOfThree(w: Weight, a: Node, b: Node, c: Node)
    ensures Cost(w, [a, b]) == w(a, b) && Cost(w, [a, b, c]) == w(a, b) + w(b, c)
  {
    assert [a, b][..1] == [a] && [a, b, c][..2] == [a, b];
  }

  lemma Costs()
    ensures Cost(Toll(), SHORT) == 2 && Cost(Toll(), DETOUR) == 3 && Cost(Toll(), OTHER) == 4
    ensures forall x :: x >= 5 ==> Cost(Toll(), Side(x)) == 20
  {
    CostOfThree(Toll(), 0, 1, 3);
    CostOfThree(Toll(), 0, 1, 4);
    assert DETOUR[..3] == [0, 1, 4];
    CostOfThree(Toll(), 0, 2, 3);
    forall x: Node | x >= 5
      ensures Cost(Toll(), Side(x)) == 20
    {
      CostOfThree(Toll(), 0, x, 3);
    }
  }

  /** The simple paths from 0 to 3, and no others. */
  ghost predicate Known(k: nat, p: Path) {
    p == SHORT || p == DETOUR || p == OTHER || exists x :: x in Sides(k) && p == Side(x)
  }

  lemma NextNode(k: nat, p: Path, i: nat)
    requires k >= 4 && SimplePath(Web(k), 0, 3, p) && i < |p|
    ensures p[i] == 3 ==> i == |p| - 1
    ensures p[i] != 3 ==> i + 1 < |p| && (p[i] == 0 ==> p[i + 1] == 1 || p[i + 1] == 2 || p[i + 1] in Sides(k))
    ensures p[i] == 1 ==> p[i + 1] == 3 || p[i + 1] == 4
    ensures p[i] !in {0, 1, 3} ==> p[i + 1] == 3
  {
    if i < |p| - 1 { assert p[i + 1] in Neighbors(Web(k), p[i]); }
  }

  /** No walk from 0 to 3 takes another way. */
  lemma OnlyKnown(k: nat, p: Path)
    requires k >= 4 && SimplePath(Web(k), 0, 3, p)
    ensures Known(k, p)
  {
    hide Web, Simple, Neighbors;
    NextNode(k, p, 0);
    NextNode(k, p, 1);
    NextNode(k, p, 2);
    if p[1] == 1 && p[2] == 4 {
      NextNode(k, p, 3);
      assert p == DETOUR;
    } else {
      assert p == [p[0], p[1], p[2]];
    }
  }

  lemma Shape(k: nat, p: Path)
    requires k >= 4
    ensures SimplePath(Web(k), 0, 3, p) <==> Known(k, p)
  {
    if SimplePath(Web(k), 0, 3, p) {
      OnlyKnown(k, p);
    } else if Known(k, p) {
      KnownIsSimple(k, p);
    }
  }

  lemma KnownIsSimple(k: nat, p: Path)
    requires k >= 4 && Known(k, p)
    ensures SimplePath(Web(k), 0, 3, p)
  {
    RangeHosts(k + 2);
    forall i | 0 <= i < |p| - 1
      ensures p[i + 1] in Neighbors(Web(k), p[i])
    {
    }
  }

  // ---------- its first three rounds ----------

  lemma FoundBest(k: nat, paths: seq<Path>, prev: Path, i: nat, added: seq<Path>, best: Path)
    requires k >= 4 && Known(k, prev) && i < |prev| - 1 && SpurAt(Web(k), Toll(), 3, paths, prev, i, added)
    requires Parts(Web(k), 0, 3, paths, prev, i, best)
    requires forall p | Parts(Web(k), 0, 3, paths, prev, i, p) && p != best :: Cost(Toll(), best) < Cost(Toll(), p)
    ensures added == [best]
  {
    hide SpurAt, Parts, Cost, Known, SimplePath;
    Shape(k, prev);
    SpurBest(Web(k), Toll(), 0, 3, paths, prev, i, added);
    assert added[0] in added;
  }

  lemma HasMember(q: seq<Path>)
    ensures q != [] ==> exists c :: c in q
  {
    if q != [] { assert q[0] in q; }
  }

  lemma FoundNothing(k: nat, paths: seq<Path>, prev: Path, i: nat, added: seq<Path>)
    requires k >= 4 && Known(k, prev) && i < |prev| - 1 && SpurAt(Web(k), Toll(), 3, paths, prev, i, added)
    requires forall p :: !Parts(Web(k), 0, 3, paths, prev, i, p)
    ensures added == []
  {
    hide SpurAt, Parts, Cost, Known, SimplePath;
    Shape(k, prev);
    SpurBest(Web(k), Toll(), 0, 3, paths, prev, i, added);
    HasMember(added);
  }

  lemma FlattenMore(spurs: seq<seq<Path>>, last: seq<Path>)
    ensures Flatten([]) == [] && Flatten(spurs + [last]) == Flatten(spurs) + last
  {
    assert (spurs + [last])[..|spurs|] == spurs;
  }

  lemma FirstRound(k: nat, r: Round)
    requires k >= 4 && RoundOk(Web(k), Toll(), 3, r) && r.paths == [SHORT] && r.before == []
    ensures r.next == DETOUR && r.rest == [OTHER]
  {
    hide SpurAt, Popped, Flatten, SimplePath, Cost, Web;
    Costs();
    FirstSpurs(k);
    FoundBest(k, r.paths, SHORT, 0, r.spurs[0], OTHER);
    FoundBest(k, r.paths, SHORT, 1, r.spurs[1], DETOUR);
    assert r.spurs == ([] + [r.spurs[0]]) + [r.spurs[1]];
    FlattenMore([], r.spurs[0]);
    FlattenMore([] + [r.spurs[0]], r.spurs[1]);
    assert r.before + Flatten(r.spurs) == [OTHER, DETOUR];
    PopOfTwo(r.before + Flatten(r.spurs), OTHER, DETOUR, r.next, r.rest);
  }

  lemma FirstSpurs(k: nat)
    requires k >= 4
    ensures Parts(Web(k), 0, 3, [SHORT], SHORT, 0, OTHER) && Parts(Web(k), 0, 3, [SHORT], SHORT, 1, DETOUR)
    ensures forall p | Parts(Web(k), 0, 3, [SHORT], SHORT, 0, p) && p != OTHER :: Cost(Toll(), OTHER) < Cost(Toll(), p)
    ensures forall p | Parts(Web(k), 0, 3, [SHORT], SHORT, 1, p) :: p == DETOUR
  {
    hide SimplePath, Cost, Web;
    Costs();
    Shape(k, OTHER);
    Shape(k, DETOUR);
    assert SHORT in [SHORT];
    forall p | Parts(Web(k), 0, 3, [SHORT], SHORT, 0, p) && p != OTHER
      ensures Cost(Toll(), OTHER) < Cost(Toll(), p)
    {
      Shape(k, p);
    }
    forall p | Parts(Web(k), 0, 3, [SHORT], SHORT, 1, p)
      ensures p == DETOUR
    {
      Shape(k, p);
      assert p[1] == p[..2][1] == SHORT[..2][1];
    }
  }

  lemma PopOfTwo(cands: seq<Path>, a: Path, b: Path, next: Path, rest: seq<Path>)
    requires cands == [a, b] && Cost(Toll(), b) < Cost(Toll(), a) && Popped(Toll(), cands, next, rest)
    ensures next == b && rest == [a]
  {
    assert b in cands && KeyLeq(Toll(), next, b);
    assert multiset(cands) == multiset{a, b};
    OnlyOne(rest, a);
  }

  lemma OnlyOne(rest: seq<Path>, a: Path)
    requires multiset(rest) == multiset{a}
    ensures rest == [a]
  {
    assert |multiset(rest)| == 1;
    assert rest[0] in multiset(rest);
  }

  lemma SecondRound(k: nat, r: Round)
    requires k >= 4 && RoundOk(Web(k), Toll(), 3, r) && r.paths == [SHORT, DETOUR] && r.before == [OTHER]
    ensures r.next == OTHER && r.rest == [OTHER]
  {
    hide SpurAt, Popped, Flatten, SimplePath, Cost, Web;
    Costs();
    SecondSpurs(k);
    FoundBest(k, r.paths, DETOUR, 0, r.spurs[0], OTHER);
    FoundNothing(k, r.paths, DETOUR, 1, r.spurs[1]);
    FoundNothing(k, r.paths, DETOUR, 2, r.spurs[2]);
    assert r.spurs == (([] + [r.spurs[0]]) + [r.spurs[1]]) + [r.spurs[2]];
    FlattenMore([], r.spurs[0]);
    FlattenMore([] + [r.spurs[0]], r.spurs[1]);
    FlattenMore(([] + [r.spurs[0]]) + [r.spurs[1]], r.spurs[2]);
    assert r.before + Flatten(r.spurs) == [OTHER, OTHER];
    PopOfPair(r.before + Flatten(r.spurs), OTHER, r.next, r.rest);
  }

  lemma SecondSpurs(k: nat)
    requires k >= 4
    ensures var paths := [SHORT, DETOUR];
            && Parts(Web(k), 0, 3, paths, DETOUR, 0, OTHER)
            && (forall p | Parts(Web(k), 0, 3, paths, DETOUR, 0, p) && p != OTHER :: Cost(Toll(), OTHER) < Cost(Toll(), p))
            && (forall p :: !Parts(Web(k), 0, 3, paths, DETOUR, 1, p))
            && (forall p :: !Parts(Web(k), 0, 3, paths, DETOUR, 2, p))
  {
    hide SimplePath, Cost, Web;
    Costs();
    Shape(k, OTHER);
    var paths := [SHORT, DETOUR];
    assert SHORT in paths && DETOUR in paths;
    assert SHORT[..2] == DETOUR[..2];
    forall p | Parts(Web(k), 0, 3, paths, DETOUR, 0, p) && p != OTHER
      ensures Cost(Toll(), OTHER) < Cost(Toll(), p)
    {
      Shape(k, p);
    }
    forall p
      ensures !Parts(Web(k), 0, 3, paths, DETOUR, 1, p) && !Parts(Web(k), 0, 3, paths, DETOUR, 2, p)
    {
      Shape(k, p);
    }
  }

  lemma PopOfPair(cands: seq<Path>, a: Path, next: Path, rest: seq<Path>)
    requires cands == [a, a] && Popped(Toll(), cands, next, rest)
    ensures next == a && rest == [a]
  {
    assert multiset(cands) == multiset{a, a};
    OnlyOne(rest, a);
  }

  /** The round that is lost: the copy of OTHER left over is still the cheapest. */
  lemma ThirdRound(k: nat, r: Round)
    requires k >= 4 && RoundOk(Web(k), Toll(), 3, r) && r.paths == [SHORT, DETOUR, OTHER] && r.before == [OTHER]
    ensures r.next == OTHER
  {
    hide SpurAt, Flatten, SimplePath, Cost, Web;
    Costs();
    var cands := r.before + Flatten(r.spurs);
    assert cands[0] == OTHER;
    assert OTHER in cands && KeyLeq(Toll(), r.next, OTHER);
    assert SHORT in r.paths && DETOUR in r.paths && OTHER in r.paths;
    if r.next in Flatten(r.spurs) {
      Shape(k, OTHER);
      PassUnlisted(Web(k), Toll(), 0, 3, r.paths, OTHER, r.spurs, r.next);
      PassSimple(Web(k), Toll(), 0, 3, r.paths, OTHER, r.spurs, r.next);
      Shape(k, r.next);
    }
  }

  /** So k - 1 rounds list fewer than k paths. */
  lemma {:induction false} RoundLost(k: nat, rounds: seq<Round>)
    requires k >= 4 && IsRun(Web(k), Toll(), 3, SHORT, rounds) && |rounds| >= 3
    ensures |FinalPaths(SHORT, rounds)| <= |rounds|
    decreases |rounds|
  {
    hide RoundOk, Web, Toll;
    if |rounds| == 3 {
      assert rounds[..0] == [] && rounds[..1] == [rounds[0]] && rounds[..2] == [rounds[0], rounds[1]];
      FirstRound(k, rounds[0]);
      assert rounds[1].paths == [SHORT, DETOUR];
      SecondRound(k, rounds[1]);
      assert rounds[2].paths == [SHORT, DETOUR, OTHER];
      ThirdRound(k, rounds[2]);
    } else {
      var front := rounds[..|rounds| - 1];
      EarlierRounds(Web(k), Toll(), 3, SHORT, rounds);
      RoundLost(k, front);
    }
  }

  // ---------- the answer is short ----------

  /** The simple paths of the graph, k of them. */
  function AllPaths(k: nat): (r: seq<Path>)
    requires k >= 3
    ensures |r| == k
  {
    if k == 3 then [SHORT, DETOUR, OTHER] else AllPaths(k - 1) + [Side((k + 1) as Node)]
  }

  lemma {:induction false} PathsDiffer(k: nat)
    requires k >= 3
    ensures Yen.Distinct(AllPaths(k)) && forall p | p in AllPaths(k) :: Known(k, p)
  {
    if k > 3 {
      PathsDiffer(k - 1);
      RangeHosts(k + 2);
      RangeHosts(k + 1);
      assert (k + 1) as Node in Sides(k) && (k + 1) as Node !in Sides(k - 1);
      var front, last := AllPaths(k - 1), Side((k + 1) as Node);
      forall p | p in front
        ensures p != last
      {
        assert Known(k - 1, p) && last[1] == (k + 1) as Node;
      }
      forall i, j | 0 <= i < j < k
        ensures AllPaths(k)[i] != AllPaths(k)[j]
      {
        assert AllPaths(k)[i] == front[i];
        assert front[i] in front && (j < k - 1 ==> AllPaths(k)[j] == front[j]);
      }
      forall p | p in AllPaths(k)
        ensures Known(k, p)
      {
        if p in front {
          assert forall x | x in Sides(k - 1) :: x in Sides(k);
        }
      }
    }
  }

  /** The graph has k different simple paths from 0 to 3. */
  lemma ManyPaths(k: nat)
    requires k >= 4
    ensures |AllPaths(k)| == k && Yen.Distinct(AllPaths(k)) && AllSimple(Web(k), 0, 3, AllPaths(k))
  {
    hide Known, SimplePath, AllPaths;
    PathsDiffer(k);
    forall p | p in AllPaths(k)
      ensures SimplePath(Web(k), 0, 3, p)
    {
      Shape(k, p);
    }
  }

  /** A list that has all of these has as many entries. */
  lemma {:induction false} HoldsAll(all: seq<Path>, r: seq<Path>)
    requires Yen.Distinct(all) && forall p | p in all :: p in r
    ensures |all| <= |r|
  {
    if all != [] {
      var front, last := all[..|all| - 1], all[|all| - 1];
      assert last in all;
      var i :| 0 <= i < |r| && r[i] == last;
      var less := r[..i] + r[i + 1..];
      forall p | p in front
        ensures p in less
      {
        assert p in all;
        var j :| 0 <= j < |r| && r[j] == p;
        assert j < i ==> less[j] == p;
        assert j > i ==> less[j - 1] == p;
      }
      HoldsAll(front, less);
    }
  }

  lemma SomeMissed(k: nat, r: seq<Path>) returns (missed: Path)
    requires k >= 4 && |r| < k
    ensures SimplePath(Web(k), 0, 3, missed) && missed !in r
  {
    hide SimplePath, Web, Known, AllPaths;
    ManyPaths(k);
    if forall p | p in AllPaths(k) :: p in r {
      HoldsAll(AllPaths(k), r);
      assert false;
    }
    missed :| missed in AllPaths(k) && missed !in r;
  }

  /** The cheapest path heads every non-empty answer. */
  lemma HeadIsShort(k: nat, r: seq<Path>)
    requires k >= 4 && RankingPrefix(Web(k), Toll(), 0, 3, r) && r != []
    ensures r[0] == SHORT
  {
    hide SimplePath, Web, Cost;
    Costs();
    Shape(k, SHORT);
    Shape(k, r[0]);
    assert r[0] in r;
    if SHORT in r {
      var i :| 0 <= i < |r| && r[i] == SHORT;
    }
  }

  lemma WebIsClosed(k: nat)
    requires k >= 4
    ensures 0 in Web(k) && Closed(Web(k)) && Reachable(Web(k), 0, 3)
  {
    RangeHosts(k + 2);
    Shape(k, SHORT);
    assert Walk(Web(k), 0, 3, SHORT);
  }

  lemma AtMost(first: Path, rounds: seq<Round>, g: Graph, w: Weight, t: Node)
    requires IsRun(g, w, t, first, rounds)
    ensures |FinalPaths(first, rounds)| <= 1 + |rounds|
    decreases |rounds|
  {
    hide RoundOk, FinalPaths;
    if rounds == [] {
      NoRounds(g, w, t, first);
    } else {
      EarlierRounds(g, w, t, first, rounds);
      AtMost(first, rounds[..|rounds| - 1], g, w, t);
    }
  }

  /** For every k from 4 on: asked for the k simple paths of this graph, the code
      returns fewer than k and misses one. */
  method FallsShort(k: nat) returns (r: seq<Path>, ghost missed: Path)
    requires k >= 4
    ensures |r| < k && RankingPrefix(Web(k), Toll(), 0, 3, r)
    ensures SimplePath(Web(k), 0, 3, missed) && missed !in r
  {
    hide SimplePath, Web, RankingPrefix, IsRun, FinalPaths, Complete, MissingKey, Reachable, Closed, Toll;
    WebIsClosed(k);
    NeverMissing(Web(k), 0, 3);
    var answer;
    ghost var rounds;
    answer, rounds := KShortestPaths(Web(k), 0, 3, k, Toll());
    r := answer.value;
    if r != [] {
      HeadIsShort(k, r);
      AtMost(SHORT, rounds, Web(k), Toll(), 3);
      if |rounds| >= 3 { RoundLost(k, rounds); }
    }
    missed := SomeMissed(k, r);
  }
}
