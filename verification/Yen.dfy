/** Yen's ranking of simple paths: k_shortest_paths. */
module Yen {
  import opened Ordering
  import opened Paths
  import opened Dijkstra
  import opened Wrappers

  // ---------- the sort key (path_cost(p), p) ----------

  /** List comparison. */
  predicate LexLeq(p: Path, q: Path) {
    p == [] || (q != [] && (p[0] < q[0] || (p[0] == q[0] && LexLeq(p[1..], q[1..]))))
  }

  predicate KeyLeq(w: Weight, p: Path, q: Path) {
    Cost(w, p) < Cost(w, q) || (Cost(w, p) == Cost(w, q) && LexLeq(p, q))
  }

  function ByKey(w: Weight): (Path, Path) -> bool {
    (p, q) => KeyLeq(w, p, q)
  }

  lemma {:induction false} LexTotal(p: Path, q: Path)
    ensures LexLeq(p, q) || LexLeq(q, p)
  {
    if p != [] && q != [] { LexTotal(p[1..], q[1..]); }
  }

  lemma {:induction false} LexTransitive(p: Path, q: Path, r: Path)
    requires LexLeq(p, q) && LexLeq(q, r)
    ensures LexLeq(p, r)
  {
    if p != [] && p[0] == q[0] == r[0] { LexTransitive(p[1..], q[1..], r[1..]); }
  }

  lemma KeyOrder(w: Weight)
    ensures TotalPreorder(ByKey(w))
  {
    forall p, q ensures KeyLeq(w, p, q) || KeyLeq(w, q, p) {
      LexTotal(p, q);
    }
    forall p, q, r | KeyLeq(w, p, q) && KeyLeq(w, q, r) ensures KeyLeq(w, p, r) {
      if LexLeq(p, q) && LexLeq(q, r) { LexTransitive(p, q, r); }
    }
  }

  /** candidates.sort */
  function SortByKey(w: Weight, cands: seq<Path>): seq<Path> {
    KeyOrder(w);
    Sort(ByKey(w), cands)
  }

  // ---------- divergence ----------

  ghost predicate SimplePath(g: Graph, s: Node, t: Node, p: Path) {
    Walk(g, s, t, p) && Simple(p)
  }

  ghost predicate AllSimple(g: Graph, s: Node, t: Node, paths: seq<Path>) {
    forall q | q in paths :: SimplePath(g, s, t, q)
  }

  predicate Shares(q: Path, p: Path, m: nat) {
    m < |q| && m < |p| && q[..m] == p[..m]
  }

  /** No path of `paths` that shares the first `m` nodes of `p` goes on to node `x`. */
  ghost predicate Fresh(paths: seq<Path>, p: Path, m: nat, x: Node) {
    forall q | q in paths && Shares(q, p, m) :: q[m] != x
  }

  /** `p` leaves the listed paths after its first `m` nodes. */
  ghost predicate Diverges(paths: seq<Path>, p: Path, m: nat) {
    && 0 < m < |p| && Fresh(paths, p, m, p[m])
    && exists q :: q in paths && Shares(q, p, m)
  }

  /** Candidate `c` stands in for `p`: same first `m` nodes, fresh afterwards, no dearer. */
  ghost predicate Covers(w: Weight, paths: seq<Path>, c: Path, p: Path, m: nat) {
    Shares(c, p, m) && Fresh(paths, p, m, c[m]) && Cost(w, c) <= Cost(w, p)
  }

  ghost predicate CoveredAt(w: Weight, paths: seq<Path>, cands: seq<Path>, p: Path, m: nat) {
    Diverges(paths, p, m) && exists c :: c in cands && Covers(w, paths, c, p, m)
  }

  ghost predicate Covered(w: Weight, paths: seq<Path>, cands: seq<Path>, p: Path) {
    exists m :: CoveredAt(w, paths, cands, p, m)
  }

  /** `p` leaves the listed paths at a point the last listed path runs through. */
  ghost predicate Pending(paths: seq<Path>, last: Path, p: Path) {
    exists m :: Diverges(paths, p, m) && Shares(last, p, m)
  }

  /** Two different simple paths with the same ends both go on after a common prefix. */
  lemma Continue(g: Graph, s: Node, t: Node, q: Path, p: Path, m: nat)
    requires SimplePath(g, s, t, p) && SimplePath(g, s, t, q) && p != q
    requires Shares(q, p, m) && q[m] == p[m]
    ensures Shares(q, p, m + 1)
  {
    assert q[..m + 1] == p[..m + 1];
    assert (p[m] == t <==> m == |p| - 1) && (q[m] == t <==> m == |q| - 1);
    assert p[..|p|] == p && q[..|q|] == q;
  }

  /** Two different simple paths with the same ends part before either of them ends. */
  lemma {:induction false} Part(g: Graph, s: Node, t: Node, q: Path, p: Path, m: nat) returns (n: nat)
    requires SimplePath(g, s, t, p) && SimplePath(g, s, t, q) && p != q
    requires Shares(q, p, m)
    ensures m <= n && Shares(q, p, n) && q[n] != p[n]
    decreases |p| - m
  {
    if q[m] != p[m] {
      n := m;
    } else {
      Continue(g, s, t, q, p, m);
      n := Part(g, s, t, q, p, m + 1);
    }
  }

  // ---------- one spur search ----------

  /** The edges by which listed paths with the given root leave its last node. */
  ghost predicate BansFor(paths: seq<Path>, prev: Path, m: nat, bans: set<set<Node>>)
    requires 0 < m <= |prev|
  {
    && (forall q | q in paths && Shares(q, prev, m) :: {prev[m - 1], q[m]} in bans)
    && (forall e | e in bans :: exists q :: q in paths && Shares(q, prev, m) && e == {prev[m - 1], q[m]})
  }

  /** A spur path completes the root to a simple path that is fresh at the spur node. */
  lemma SpurIsCandidate(g: Graph, w: Weight, s: Node, t: Node, paths: seq<Path>, prev: Path, m: nat,
                        bans: set<set<Node>>, spur: Path)
    requires SimplePath(g, s, t, prev) && 0 < m < |prev|
    requires BansFor(paths, prev, m, bans)
    requires var a := Allowed(g, t, bans, Elements(prev[..m - 1])); Walk(a, prev[m - 1], t, spur) && Simple(spur)
    ensures var total := prev[..m - 1] + spur;
            SimplePath(g, s, t, total) && Shares(total, prev, m) && Fresh(paths, prev, m, total[m])
    ensures Cost(w, prev[..m - 1] + spur) == Cost(w, prev[..m]) + Cost(w, spur)
  {
    var banned := Elements(prev[..m - 1]);
    var a := Allowed(g, t, bans, banned);
    var total := prev[..m - 1] + spur;
    assert prev[m - 1] != t && |spur| > 1;
    forall i | 0 <= i < |spur| - 1 ensures spur[i + 1] in Neighbors(g, spur[i]) && Passes(spur[i], spur[i + 1], t, bans, banned) {
      AllowedNeighbors(g, t, bans, banned, spur[i], spur[i + 1]);
    }
    assert Walk(g, s, prev[m - 1], prev[..m]);
    assert prev[..m][..m - 1] == prev[..m - 1];
    Join(g, w, s, prev[m - 1], t, prev[..m], spur);
    forall j | 0 <= j < |spur| ensures spur[j] !in prev[..m - 1] {
      if j == 0 {
        assert spur[j] == prev[m - 1];
      } else {
        assert Passes(spur[j - 1], spur[j - 1 + 1], t, bans, banned);
        assert t == prev[|prev| - 1];
      }
    }
    assert total[..m] == prev[..m];
    assert total[m] == spur[1];
    forall q | q in paths && Shares(q, prev, m) ensures q[m] != total[m] {
      assert Passes(spur[0], spur[0 + 1], t, bans, banned);
    }
  }

  /** Every simple path that leaves the listed ones at this spur node survives the bans. */
  lemma SpurReaches(g: Graph, w: Weight, s: Node, t: Node, paths: seq<Path>, prev: Path, m: nat,
                    bans: set<set<Node>>, p: Path)
    requires SimplePath(g, s, t, prev) && SimplePath(g, s, t, p)
    requires Shares(prev, p, m) && 0 < m && Fresh(paths, p, m, p[m])
    requires BansFor(paths, prev, m, bans)
    ensures Walk(Allowed(g, t, bans, Elements(prev[..m - 1])), prev[m - 1], t, p[m - 1..])
    ensures Cost(w, p) == Cost(w, prev[..m]) + Cost(w, p[m - 1..])
  {
    var banned := Elements(prev[..m - 1]);
    var a := Allowed(g, t, bans, banned);
    var r := p[m - 1..];
    assert p[..m] == prev[..m] && p[m - 1] == prev[..m][m - 1];
    assert p == p[..m][..m - 1] + r;
    CostAppend(w, p[..m], r);
    forall i | 0 <= i < |r| - 1 ensures r[i + 1] in Neighbors(a, r[i]) {
      assert r[i] == p[m - 1 + i] && r[i + 1] == p[m + i];
      assert p[m - 1 + i + 1] in Neighbors(g, p[m - 1 + i]);
      SpurEdge(paths, prev, m, bans, p, m + i, t);
      AllowedNeighbors(g, t, bans, banned, r[i], r[i + 1]);
    }
  }

  lemma SpurEdge(paths: seq<Path>, prev: Path, m: nat, bans: set<set<Node>>, p: Path, j: nat, t: Node)
    requires Simple(p) && Shares(prev, p, m) && 0 < m <= j < |p| && Fresh(paths, p, m, p[m])
    requires BansFor(paths, prev, m, bans)
    ensures Passes(p[j - 1], p[j], t, bans, Elements(prev[..m - 1]))
  {
    assert p[..m] == prev[..m];
    assert p[m - 1] == p[..m][m - 1] == prev[m - 1];
    assert prev[..m - 1] == prev[..m][..m - 1] == p[..m][..m - 1] == p[..m - 1];
    assert p[j] !in p[..m - 1];
    forall q | q in paths && Shares(q, prev, m) ensures {p[j - 1], p[j]} != {prev[m - 1], q[m]} {
      if j > m {
        assert prev[m - 1] !in {p[j - 1], p[j]};
      } else {
        assert Shares(q, p, m);
        assert p[m] !in {prev[m - 1], q[m]};
      }
    }
  }

  // ---------- the invariant of the outer loop ----------

  ghost predicate Distinct(paths: seq<Path>) {
    forall i, j | 0 <= i < j < |paths| :: paths[i] != paths[j]
  }

  ghost predicate Ascending(w: Weight, paths: seq<Path>) {
    forall i, j | 0 <= i < j < |paths| :: Cost(w, paths[i]) <= Cost(w, paths[j])
  }

  /** No unlisted simple path is cheaper than a listed one. */
  ghost predicate Ranked(g: Graph, w: Weight, s: Node, t: Node, paths: seq<Path>) {
    forall p, q | SimplePath(g, s, t, p) && p !in paths && q in paths :: Cost(w, q) <= Cost(w, p)
  }

  /** A correct prefix of the ranking of all simple paths by cost. */
  ghost predicate RankingPrefix(g: Graph, w: Weight, s: Node, t: Node, paths: seq<Path>) {
    && AllSimple(g, s, t, paths) && Distinct(paths) && Ascending(w, paths)
    && Ranked(g, w, s, t, paths)
  }

  /** Every simple path is listed. */
  ghost predicate Complete(g: Graph, s: Node, t: Node, paths: seq<Path>) {
    forall p | SimplePath(g, s, t, p) :: p in paths
  }

  ghost predicate Accounted(g: Graph, w: Weight, s: Node, t: Node, paths: seq<Path>, cands: seq<Path>) {
    forall p | SimplePath(g, s, t, p) && p !in paths :: Covered(w, paths, cands, p)
  }

  ghost predicate AccountedBut(g: Graph, w: Weight, s: Node, t: Node, paths: seq<Path>, cands: seq<Path>) {
    paths != [] && forall p | SimplePath(g, s, t, p) && p !in paths ::
      Covered(w, paths, cands, p) || Pending(paths, paths[|paths| - 1], p)
  }

  /** Before any candidate exists, everything unlisted parts from the first path. */
  lemma FirstPending(g: Graph, w: Weight, s: Node, t: Node, first: Path)
    requires SimplePath(g, s, t, first)
    ensures AccountedBut(g, w, s, t, [first], [])
  {
    forall p | SimplePath(g, s, t, p) && p !in [first] ensures Pending([first], first, p) {
      assert first in [first];
      var n := Part(g, s, t, first, p, 0);
      assert Diverges([first], p, n);
    }
  }

  /** Listing `next` leaves each unlisted path covered, or parting from `next`. */
  lemma ListNext(g: Graph, w: Weight, s: Node, t: Node, paths: seq<Path>, cands: seq<Path>, next: Path, rest: seq<Path>, p: Path)
    requires AllSimple(g, s, t, paths) && SimplePath(g, s, t, next) && SimplePath(g, s, t, p)
    requires next !in paths && p !in paths + [next]
    requires Covered(w, paths, cands, p)
    requires forall c | c in cands :: c == next || c in rest
    ensures Covered(w, paths + [next], rest, p) || Pending(paths + [next], next, p)
  {
    var m :| CoveredAt(w, paths, cands, p, m);
    var paths' := paths + [next];
    assert next in paths';
    if Shares(next, p, m) {
      var n := Part(g, s, t, next, p, m);
      forall q | q in paths' && Shares(q, p, n) ensures q[n] != p[n] {
        if q in paths { SharesLess(q, p, m, n); }
      }
      assert Diverges(paths', p, n);
    } else {
      var c :| c in cands && Covers(w, paths, c, p, m);
      var q :| q in paths && Shares(q, p, m);
      assert q in paths';
      assert Diverges(paths', p, m);
      assert Covers(w, paths', c, p, m);
      assert CoveredAt(w, paths', rest, p, m);
    }
  }

  lemma SharesLess(q: Path, p: Path, m: nat, n: nat)
    requires Shares(q, p, n) && m <= n
    ensures Shares(q, p, m) && (m < n ==> q[m] == p[m])
  {
    assert q[..m] == q[..n][..m] && p[..m] == p[..n][..m];
    if m < n { assert q[m] == q[..n][m] == p[..n][m]; }
  }

  /** Popping a path that is already listed loses no cover. */
  lemma DropRepeat(w: Weight, paths: seq<Path>, cands: seq<Path>, next: Path, rest: seq<Path>, p: Path)
    requires next in paths && Covered(w, paths, cands, p)
    requires forall c | c in cands :: c == next || c in rest
    ensures Covered(w, paths, rest, p)
  {
    var m :| CoveredAt(w, paths, cands, p, m);
    var c :| c in cands && Covers(w, paths, c, p, m);
    assert c != next;
    assert CoveredAt(w, paths, rest, p, m);
  }

  // ---------- k_shortest_paths ----------

  /** The edges banned at one spur node (the loop over the listed paths). */
  method BannedEdges(ghost g: Graph, ghost s: Node, ghost t: Node, paths: seq<Path>, previous: Path, i: nat)
    returns (bans: set<set<Node>>)
    requires AllSimple(g, s, t, paths) && SimplePath(g, s, t, previous) && i < |previous| - 1
    ensures BansFor(paths, previous, i + 1, bans)
  {
    hide Walk, Simple, AllSimple;
    bans := {};
    for j := 0 to |paths|
      invariant BansFor(paths[..j], previous, i + 1, bans)
    {
      var path := paths[j];
      assert paths[..j + 1] == paths[..j] + [path];
      if |path| > i && path[..i + 1] == previous[..i + 1] {
        RootIsProper(g, s, t, paths, path, previous, i);
        bans := bans + {{path[i], path[i + 1]}};
        assert path in paths[..j + 1] && Shares(path, previous, i + 1) && path[i] == previous[i];
      }
    }
    assert paths[..|paths|] == paths;
  }

  /** A listed path with this root continues past the spur node. */
  lemma RootIsProper(g: Graph, s: Node, t: Node, paths: seq<Path>, path: Path, previous: Path, i: nat)
    requires AllSimple(g, s, t, paths) && path in paths && SimplePath(g, s, t, previous)
    requires i < |previous| - 1 && i < |path| && path[..i + 1] == previous[..i + 1]
    ensures i + 1 < |path| && path[i] == previous[i]
  {
    assert path[i] == path[..i + 1][i] == previous[..i + 1][i] == previous[i];
    assert SimplePath(g, s, t, path);
  }

  /** Every unlisted path that parts from `previous` within its first `n` nodes has a cover. */
  ghost predicate CoveredUpTo(g: Graph, w: Weight, s: Node, t: Node, paths: seq<Path>, cands: seq<Path>, previous: Path, n: int) {
    forall p, m | SimplePath(g, s, t, p) && 0 < m <= n && Shares(previous, p, m) && Diverges(paths, p, m) ::
      CoveredAt(w, paths, cands, p, m)
  }

  // ---------- rounds ----------

  /** What the spur search at position i of `prev` contributes: nothing if it finds no
      path, otherwise the root completed by a shortest spur path. */
  ghost predicate SpurAt(g: Graph, w: Weight, t: Node, paths: seq<Path>, prev: Path, i: nat, added: seq<Path>)
    requires i < |prev|
  {
    exists bans :: BansFor(paths, prev, i + 1, bans) && SpurUnder(g, w, t, prev, i, bans, added)
  }

  ghost predicate SpurUnder(g: Graph, w: Weight, t: Node, prev: Path, i: nat, bans: set<set<Node>>, added: seq<Path>)
    requires i < |prev|
  {
    var a := Allowed(g, t, bans, Elements(prev[..i]));
    if added == [] then !Reachable(a, prev[i], t) else exists spur :: IsShortest(a, w, prev[i], t, spur) && added == [prev[..i] + spur]
  }

  function Flatten(spurs: seq<seq<Path>>): seq<Path> {
    if spurs == [] then [] else Flatten(spurs[..|spurs| - 1]) + spurs[|spurs| - 1]
  }

  /** The spur searches along `prev`, up to position n. */
  ghost predicate Spurs(g: Graph, w: Weight, t: Node, paths: seq<Path>, prev: Path, n: nat, spurs: seq<seq<Path>>) {
    |spurs| == n < |prev| && forall i | 0 <= i < n :: SpurAt(g, w, t, paths, prev, i, spurs[i])
  }

  /** One round: `before` are the candidates left from earlier rounds, `next` is the
      one popped from them and the spurs, `rest` is what stays. */
  datatype Round = Round(paths: seq<Path>, before: seq<Path>, spurs: seq<seq<Path>>, next: Path, rest: seq<Path>)

  ghost predicate RoundOk(g: Graph, w: Weight, t: Node, r: Round) {
    && r.paths != [] && r.paths[|r.paths| - 1] != []
    && Spurs(g, w, t, r.paths, r.paths[|r.paths| - 1], |r.paths[|r.paths| - 1]| - 1, r.spurs)
    && Popped(w, r.before + Flatten(r.spurs), r.next, r.rest)
  }

  /** A least candidate is taken out, one copy of it. */
  ghost predicate Popped(w: Weight, cands: seq<Path>, next: Path, rest: seq<Path>) {
    && next in cands && (forall c | c in cands :: KeyLeq(w, next, c))
    && multiset(cands) == multiset(rest) + multiset{next}
  }

  /** A popped path is listed unless it already is. */
  function Listed(paths: seq<Path>, next: Path): seq<Path> {
    if next in paths then paths else paths + [next]
  }

  function FinalPaths(first: Path, rounds: seq<Round>): seq<Path> {
    if rounds == [] then [first] else Listed(rounds[|rounds| - 1].paths, rounds[|rounds| - 1].next)
  }

  function FinalRest(rounds: seq<Round>): seq<Path> {
    if rounds == [] then [] else rounds[|rounds| - 1].rest
  }

  /** Rounds that start from the first path and hand on what they list and leave. */
  ghost predicate IsRun(g: Graph, w: Weight, t: Node, first: Path, rounds: seq<Round>) {
    forall j | 0 <= j < |rounds| ::
      RoundOk(g, w, t, rounds[j]) && rounds[j].paths == FinalPaths(first, rounds[..j]) && rounds[j].before == FinalRest(rounds[..j])
  }

  ghost predicate SimpleRounds(g: Graph, s: Node, t: Node, rounds: seq<Round>) {
    forall r | r in rounds :: AllSimple(g, s, t, r.paths)
  }

  lemma RunMore(g: Graph, w: Weight, s: Node, t: Node, first: Path, rounds: seq<Round>, r: Round)
    requires IsRun(g, w, t, first, rounds) && RoundOk(g, w, t, r)
    requires SimpleRounds(g, s, t, rounds) && AllSimple(g, s, t, r.paths)
    requires r.paths == FinalPaths(first, rounds) && r.before == FinalRest(rounds)
    ensures IsRun(g, w, t, first, rounds + [r]) && SimpleRounds(g, s, t, rounds + [r])
    ensures FinalPaths(first, rounds + [r]) == Listed(r.paths, r.next) && FinalRest(rounds + [r]) == r.rest
  {
    hide RoundOk, FinalPaths, FinalRest, AllSimple;
    var rs := rounds + [r];
    forall j | 0 <= j < |rs|
      ensures RoundOk(g, w, t, rs[j]) && rs[j].paths == FinalPaths(first, rs[..j]) && rs[j].before == FinalRest(rs[..j])
    {
      assert rs[..j] == rounds[..j];
      assert j == |rounds| ==> rounds[..j] == rounds;
    }
    LastRound(first, rs);
  }

  /** The rounds before the last are a run, and the last lists at most one path more. */
  lemma EarlierRounds(g: Graph, w: Weight, t: Node, first: Path, rounds: seq<Round>)
    requires IsRun(g, w, t, first, rounds) && rounds != []
    ensures IsRun(g, w, t, first, rounds[..|rounds| - 1])
    ensures |FinalPaths(first, rounds)| <= |FinalPaths(first, rounds[..|rounds| - 1])| + 1
  {
    hide RoundOk, FinalRest;
    var front := rounds[..|rounds| - 1];
    forall j | 0 <= j < |front|
      ensures front[..j] == rounds[..j]
    {
    }
  }

  lemma LastRound(first: Path, rs: seq<Round>)
    requires rs != []
    ensures FinalPaths(first, rs) == Listed(rs[|rs| - 1].paths, rs[|rs| - 1].next) && FinalRest(rs) == rs[|rs| - 1].rest
  {
  }

  lemma SpursMore(g: Graph, w: Weight, t: Node, paths: seq<Path>, prev: Path, n: nat, spurs: seq<seq<Path>>, bans: set<set<Node>>, added: seq<Path>)
    requires Spurs(g, w, t, paths, prev, n, spurs) && n + 1 < |prev|
    requires BansFor(paths, prev, n + 1, bans) && SpurUnder(g, w, t, prev, n, bans, added)
    ensures Spurs(g, w, t, paths, prev, n + 1, spurs + [added])
    ensures Flatten(spurs + [added]) == Flatten(spurs) + added
  {
    hide SpurUnder, BansFor;
    assert SpurAt(g, w, t, paths, prev, n, added);
    assert (spurs + [added])[..n] == spurs;
  }

  /** One pass over the spur nodes of the last listed path; `ok` is false where a
      KeyError escapes. */
  method SpurCandidates(g: Graph, source: Node, target: Node, w: Weight, paths: seq<Path>, cands0: seq<Path>)
    returns (ok: bool, cands: seq<Path>, ghost spurs: seq<seq<Path>>)
    requires paths != [] && AllSimple(g, source, target, paths) && AllSimple(g, source, target, cands0)
    ensures !ok ==> source != target && MissingKey(g, source, target)
    ensures ok ==> AllSimple(g, source, target, cands) && cands == cands0 + Flatten(spurs)
    ensures ok ==> paths[|paths| - 1] != [] && Spurs(g, w, target, paths, paths[|paths| - 1], |paths[|paths| - 1]| - 1, spurs)
    ensures ok ==> CoveredUpTo(g, w, source, target, paths, cands, paths[|paths| - 1], |paths[|paths| - 1]| - 1)
  {
    hide Walk, Simple, Reachable, IsShortest, Allowed, AllSimple, CoveredUpTo, BansFor, Spurs, SpurUnder, Flatten, MissingKey, MissingNear, MissingFar;
    var previous := paths[|paths| - 1];
    LastIsSimple(g, source, target, paths);
    cands, spurs := cands0, [];
    NothingCovered(g, w, source, target, paths, cands, previous);
    NoSpurs(g, w, target, paths, previous);
    assert cands0 + [] == cands0;
    for i := 0 to |previous| - 1
      invariant AllSimple(g, source, target, cands) && cands == cands0 + Flatten(spurs)
      invariant Spurs(g, w, target, paths, previous, i, spurs)
      invariant CoveredUpTo(g, w, source, target, paths, cands, previous, i)
    {
      var spurNode := previous[i];
      var rootPath := previous[..i + 1];
      var bannedNodes := Elements(rootPath[..i]);
      assert rootPath[..i] == previous[..i];
      var bannedEdges := BannedEdges(g, source, target, paths, previous, i);
      var spurPath := ShortestPath(g, spurNode, target, bannedEdges, bannedNodes, w);
      if spurPath.KeyMissing? {
        SpurKeyMissing(g, w, source, target, previous, i, bannedEdges);
        return false, cands, spurs;
      }
      if spurPath.Found? {
        SpurFound(g, w, source, target, paths, cands, previous, i, bannedEdges, spurPath.path);
        var total := rootPath[..i] + spurPath.path;
        FoundSpur(g, w, target, previous, i, bannedEdges, spurPath.path);
        SpursMore(g, w, target, paths, previous, i, spurs, bannedEdges, [total]);
        cands, spurs := cands + [total], spurs + [[total]];
      } else {
        SpurMissing(g, w, source, target, paths, cands, previous, i, bannedEdges);
        NoSpur(g, w, target, previous, i, bannedEdges);
        SpursMore(g, w, target, paths, previous, i, spurs, bannedEdges, []);
        assert Flatten(spurs) + [] == Flatten(spurs);
        spurs := spurs + [[]];
      }
    }
    ok := true;
  }

  lemma NoSpurs(g: Graph, w: Weight, t: Node, paths: seq<Path>, prev: Path)
    requires prev != []
    ensures Spurs(g, w, t, paths, prev, 0, []) && Flatten([]) == []
  {
  }

  lemma FoundSpur(g: Graph, w: Weight, t: Node, prev: Path, i: nat, bans: set<set<Node>>, spur: Path)
    requires i < |prev| && IsShortest(Allowed(g, t, bans, Elements(prev[..i])), w, prev[i], t, spur)
    ensures SpurUnder(g, w, t, prev, i, bans, [prev[..i] + spur])
  {
    hide IsShortest, Allowed;
  }

  lemma NoSpur(g: Graph, w: Weight, t: Node, prev: Path, i: nat, bans: set<set<Node>>)
    requires i < |prev| && !Reachable(Allowed(g, t, bans, Elements(prev[..i])), prev[i], t)
    ensures SpurUnder(g, w, t, prev, i, bans, [])
  {
    hide Reachable, Allowed;
  }

  /** Some node that is no key can be reached: what a KeyError shows. */
  ghost predicate MissingKey(g: Graph, s: Node, t: Node) {
    exists v :: v !in g && v != t && Reachable(g, s, v)
  }

  lemma SpurKeyMissing(g: Graph, w: Weight, s: Node, t: Node, prev: Path, i: nat, bans: set<set<Node>>)
    requires SimplePath(g, s, t, prev) && i < |prev| - 1
    requires MissingNear(g, Allowed(g, t, bans, Elements(prev[..i])), w, prev[i], t)
    ensures s != t && MissingKey(g, s, t)
  {
    var banned := Elements(prev[..i]);
    var a := Allowed(g, t, bans, banned);
    var v, q :| v !in g && v != t && Walk(a, prev[i], v, q) && forall p | Walk(a, prev[i], t, p) :: Cost(w, q) <= Cost(w, p);
    forall j | 0 <= j < |q| - 1
      ensures q[j + 1] in Neighbors(g, q[j])
    {
      AllowedNeighbors(g, t, bans, banned, q[j], q[j + 1]);
    }
    assert Walk(g, s, prev[i], prev[..i + 1]) && Walk(g, prev[i], v, q);
    Join(g, w, s, prev[i], v, prev[..i + 1], q);
  }

  lemma LastIsSimple(g: Graph, s: Node, t: Node, paths: seq<Path>)
    requires paths != [] && AllSimple(g, s, t, paths)
    ensures SimplePath(g, s, t, paths[|paths| - 1]) && |paths[|paths| - 1]| > 0
  {
    assert paths[|paths| - 1] in paths;
  }

  lemma NothingCovered(g: Graph, w: Weight, s: Node, t: Node, paths: seq<Path>, cands: seq<Path>, previous: Path)
    ensures CoveredUpTo(g, w, s, t, paths, cands, previous, 0)
  {
  }

  lemma SpurFound(g: Graph, w: Weight, s: Node, t: Node, paths: seq<Path>, cands: seq<Path>, previous: Path, i: nat,
                  bans: set<set<Node>>, spur: Path)
    requires AllSimple(g, s, t, paths) && AllSimple(g, s, t, cands) && SimplePath(g, s, t, previous) && i < |previous| - 1
    requires BansFor(paths, previous, i + 1, bans)
    requires IsShortest(Allowed(g, t, bans, Elements(previous[..i])), w, previous[i], t, spur)
    requires CoveredUpTo(g, w, s, t, paths, cands, previous, i)
    ensures AllSimple(g, s, t, cands + [previous[..i] + spur])
    ensures CoveredUpTo(g, w, s, t, paths, cands + [previous[..i] + spur], previous, i + 1)
  {
    hide Walk, Simple, Allowed;
    var total := previous[..i] + spur;
    var cands' := cands + [total];
    SpurIsCandidate(g, w, s, t, paths, previous, i + 1, bans, spur);
    forall p, m | SimplePath(g, s, t, p) && 0 < m <= i + 1 && Shares(previous, p, m) && Diverges(paths, p, m)
      ensures CoveredAt(w, paths, cands', p, m)
    {
      if m <= i {
        assert CoveredAt(w, paths, cands, p, m);
        var c :| c in cands && Covers(w, paths, c, p, m);
        assert c in cands';
      } else {
        SpurReaches(g, w, s, t, paths, previous, i + 1, bans, p);
        assert total in cands' && Covers(w, paths, total, p, m);
      }
    }
  }

  lemma SpurMissing(g: Graph, w: Weight, s: Node, t: Node, paths: seq<Path>, cands: seq<Path>, previous: Path, i: nat,
                    bans: set<set<Node>>)
    requires SimplePath(g, s, t, previous) && i < |previous| - 1
    requires BansFor(paths, previous, i + 1, bans)
    requires !Reachable(Allowed(g, t, bans, Elements(previous[..i])), previous[i], t)
    requires CoveredUpTo(g, w, s, t, paths, cands, previous, i)
    ensures CoveredUpTo(g, w, s, t, paths, cands, previous, i + 1)
  {
    forall p, m | SimplePath(g, s, t, p) && 0 < m <= i + 1 && Shares(previous, p, m) && Diverges(paths, p, m)
      ensures CoveredAt(w, paths, cands, p, m)
    {
      if m == i + 1 {
        SpurReaches(g, w, s, t, paths, previous, i + 1, bans, p);
      }
    }
  }

  /** After the pass, every unlisted path is covered. */
  lemma PassAccounts(g: Graph, w: Weight, s: Node, t: Node, paths: seq<Path>, cands0: seq<Path>, cands: seq<Path>)
    requires AccountedBut(g, w, s, t, paths, cands0) && cands0 <= cands
    requires CoveredUpTo(g, w, s, t, paths, cands, paths[|paths| - 1], |paths[|paths| - 1]| - 1)
    ensures Accounted(g, w, s, t, paths, cands)
  {
    var previous := paths[|paths| - 1];
    forall p | SimplePath(g, s, t, p) && p !in paths ensures Covered(w, paths, cands, p) {
      if Covered(w, paths, cands0, p) {
        var m :| CoveredAt(w, paths, cands0, p, m);
        var c :| c in cands0 && Covers(w, paths, c, p, m);
        assert c in cands;
        assert CoveredAt(w, paths, cands, p, m);
      } else {
        var m :| Diverges(paths, p, m) && Shares(previous, p, m);
        assert CoveredAt(w, paths, cands, p, m);
      }
    }
  }

  /** The cheapest candidate is no dearer than any unlisted path. */
  lemma CheapestCovers(g: Graph, w: Weight, s: Node, t: Node, paths: seq<Path>, cands: seq<Path>, next: Path)
    requires Accounted(g, w, s, t, paths, cands)
    requires forall c | c in cands :: Cost(w, next) <= Cost(w, c)
    ensures forall p | SimplePath(g, s, t, p) && p !in paths :: Cost(w, next) <= Cost(w, p)
  {
    forall p | SimplePath(g, s, t, p) && p !in paths ensures Cost(w, next) <= Cost(w, p) {
      var m :| CoveredAt(w, paths, cands, p, m);
      var c :| c in cands && Covers(w, paths, c, p, m);
    }
  }

  lemma ListingKeepsRank(g: Graph, w: Weight, s: Node, t: Node, paths: seq<Path>, next: Path)
    requires RankingPrefix(g, w, s, t, paths) && SimplePath(g, s, t, next) && next !in paths
    requires forall p | SimplePath(g, s, t, p) && p !in paths :: Cost(w, next) <= Cost(w, p)
    ensures RankingPrefix(g, w, s, t, paths + [next])
  {
    hide Walk, Simple;
    var paths' := paths + [next];
    forall i, j | 0 <= i < j < |paths'| ensures paths'[i] != paths'[j] && Cost(w, paths'[i]) <= Cost(w, paths'[j]) {
      assert paths'[i] in paths;
    }
  }

  /** Nothing covers anything once the candidates run out: every simple path is listed. */
  lemma Exhausted(g: Graph, w: Weight, s: Node, t: Node, paths: seq<Path>)
    requires Accounted(g, w, s, t, paths, [])
    ensures Complete(g, s, t, paths)
  {
    forall p | SimplePath(g, s, t, p) ensures p in paths {
      assert p in paths || Covered(w, paths, [], p);
    }
  }

  lemma NextRound(g: Graph, w: Weight, s: Node, t: Node, paths: seq<Path>, cands: seq<Path>, next: Path, rest: seq<Path>)
    requires RankingPrefix(g, w, s, t, paths) && SimplePath(g, s, t, next) && paths != []
    requires Accounted(g, w, s, t, paths, cands)
    requires forall c | c in cands :: c == next || c in rest
    requires forall c | c in cands :: Cost(w, next) <= Cost(w, c)
    ensures next in paths ==> AccountedBut(g, w, s, t, paths, rest)
    ensures next !in paths ==> AccountedBut(g, w, s, t, paths + [next], rest) && RankingPrefix(g, w, s, t, paths + [next])
  {
    hide Walk, Simple, Covered, Pending, RankingPrefix, AllSimple;
    PrefixIsSimple(g, w, s, t, paths);
    if next !in paths {
      CheapestCovers(g, w, s, t, paths, cands, next);
      ListingKeepsRank(g, w, s, t, paths, next);
    }
    if next in paths {
      forall p | SimplePath(g, s, t, p) && p !in paths ensures Covered(w, paths, rest, p) {
        DropRepeat(w, paths, cands, next, rest, p);
      }
    } else {
      forall p | SimplePath(g, s, t, p) && p !in paths + [next]
        ensures Covered(w, paths + [next], rest, p) || Pending(paths + [next], next, p)
      {
        ListNext(g, w, s, t, paths, cands, next, rest, p);
      }
    }
  }

  /** A round pops the head of the sorted candidates and keeps the ranking. */
  lemma RoundAdds(g: Graph, w: Weight, s: Node, t: Node, paths: seq<Path>, cands: seq<Path>, sorted: seq<Path>)
    requires RankingPrefix(g, w, s, t, paths) && AllSimple(g, s, t, cands) && paths != []
    requires Accounted(g, w, s, t, paths, cands)
    requires sorted == SortByKey(w, cands) && cands != []
    ensures sorted != [] && Popped(w, cands, sorted[0], sorted[1..]) && AllSimple(g, s, t, sorted[1..])
    ensures RankingPrefix(g, w, s, t, Listed(paths, sorted[0]))
    ensures AccountedBut(g, w, s, t, Listed(paths, sorted[0]), sorted[1..])
  {
    hide SimplePath, AllSimple, Accounted, AccountedBut, RankingPrefix, Popped, KeyLeq, Cost;
    KeyOrder(w);
    SortedHead(g, w, s, t, cands, sorted);
    HeadPopped(w, cands, sorted);
    NextRound(g, w, s, t, paths, cands, sorted[0], sorted[1..]);
  }

  /** The first path alone is a ranking prefix. */
  lemma FirstRanks(g: Graph, w: Weight, s: Node, t: Node, first: Path)
    requires IsShortest(Allowed(g, t, {}, {}), w, s, t, first)
    ensures RankingPrefix(g, w, s, t, [first]) && SimplePath(g, s, t, first)
  {
    NothingBanned(g, t);
  }

  /** k_shortest_paths; None where a KeyError escapes. The result is a correct prefix
      of the ranking of the simple paths, listed by the rounds of the run; a round
      that pops a listed path adds nothing. It has k paths, or all of them, whenever
      k is at most 3. */
  method KShortestPaths(g: Graph, source: Node, target: Node, k: int, w: Weight)
    returns (r: Option<seq<Path>>, ghost rounds: seq<Round>)
    ensures r.None? ==> source != target && MissingKey(g, source, target)
    ensures r.Some? ==> RankingPrefix(g, w, source, target, r.value)
    ensures r.Some? && k <= 0 ==> r.value == []
    ensures r.Some? && k > 0 && r.value == [] ==> !Reachable(g, source, target)
    ensures r.Some? && r.value != [] ==> IsRun(g, w, target, r.value[0], rounds) && r.value == FinalPaths(r.value[0], rounds)
    ensures r.Some? && r.value != [] ==> |rounds| <= k - 1 && (|rounds| < k - 1 ==> Complete(g, source, target, r.value))
    ensures r.Some? && 0 < k <= 3 ==> |r.value| == k || Complete(g, source, target, r.value)
  {
    hide SimplePath, AllSimple, Accounted, AccountedBut, CoveredUpTo, RankingPrefix, Reachable, IsShortest, Allowed, TotalPreorder, Complete,
         Spurs, Flatten, Popped, SortByKey, IsRun, RoundOk, SimpleRounds, MissingKey, MissingNear, MissingFar, FinalPaths, FinalRest;
    rounds := [];
    var first := ShortestPath(g, source, target, {}, {}, w);
    if first.KeyMissing? {
      FirstKeyMissing(g, w, source, target);
      return None, rounds;
    }
    if first.NoPath? {
      NoPathAtAll(g, w, source, target);
      return Some([]), rounds;
    }
    FirstRanks(g, w, source, target, first.path);
    FirstPending(g, w, source, target, first.path);
    if k <= 0 {
      EmptyRanks(g, w, source, target);
      return Some([]), rounds;
    }
    var paths, cands: seq<Path> := [first.path], [];
    NoCandidates(g, source, target);
    NoRounds(g, w, target, first.path);
    for round := 1 to k
      invariant RankingPrefix(g, w, source, target, paths) && paths != [] && paths[0] == first.path
      invariant AllSimple(g, source, target, cands)
      invariant AccountedBut(g, w, source, target, paths, cands)
      invariant IsRun(g, w, target, first.path, rounds) && paths == FinalPaths(first.path, rounds) && cands == FinalRest(rounds)
      invariant |rounds| == round - 1 && SimpleRounds(g, source, target, rounds)
    {
      PrefixIsSimple(g, w, source, target, paths);
      var before := cands;
      var ok;
      ghost var spurs;
      ok, cands, spurs := SpurCandidates(g, source, target, w, paths, cands);
      if !ok { return None, rounds; }
      assert before <= cands;
      PassAccounts(g, w, source, target, paths, before, cands);
      if cands == [] {
        Exhausted(g, w, source, target, paths);
        return Some(paths), rounds;
      }
      ghost var unsorted := cands;
      cands := SortByKey(w, cands);
      RoundAdds(g, w, source, target, paths, unsorted, cands);
      var next := cands[0];
      cands := cands[1..];
      ghost var done := Round(paths, before, spurs, next, cands);
      RoundDone(g, w, target, done);
      RunMore(g, w, source, target, first.path, rounds, done);
      rounds := rounds + [done];
      if next !in paths { paths := paths + [next]; }
    }
    if k <= 3 { EarlyRoundsList(g, w, source, target, first.path, rounds); }
    return Some(paths), rounds;
  }

  lemma NoRounds(g: Graph, w: Weight, t: Node, first: Path)
    ensures IsRun(g, w, t, first, []) && FinalPaths(first, []) == [first] && FinalRest([]) == []
    ensures forall s :: SimpleRounds(g, s, t, [])
  {
  }

  lemma RoundDone(g: Graph, w: Weight, t: Node, r: Round)
    requires r.paths != [] && r.paths[|r.paths| - 1] != []
    requires Spurs(g, w, t, r.paths, r.paths[|r.paths| - 1], |r.paths[|r.paths| - 1]| - 1, r.spurs)
    requires Popped(w, r.before + Flatten(r.spurs), r.next, r.rest)
    ensures RoundOk(g, w, t, r)
  {
  }

  lemma HeadPopped(w: Weight, cands: seq<Path>, sorted: seq<Path>)
    requires sorted != [] && Ordered(ByKey(w), sorted) && multiset(sorted) == multiset(cands)
    ensures Popped(w, cands, sorted[0], sorted[1..])
  {
    assert sorted == [sorted[0]] + sorted[1..];
    assert sorted[0] in multiset(cands);
    forall c | c in cands
      ensures KeyLeq(w, sorted[0], c)
    {
      assert c in multiset(sorted);
      var i :| 0 <= i < |sorted| && sorted[i] == c;
      KeyReflexive(w, c);
      assert i > 0 ==> ByKey(w)(sorted[0], sorted[i]);
    }
  }

  lemma KeyReflexive(w: Weight, p: Path)
    ensures KeyLeq(w, p, p)
  {
    LexTotal(p, p);
  }

  /** A closed dict that holds the source leads to keys only. */
  lemma NeverMissing(g: Graph, s: Node, t: Node)
    requires s in g && Closed(g)
    ensures !MissingKey(g, s, t)
  {
    NothingBanned(g, t);
    ClosedHasKeys(g, t, {}, {}, s);
  }

  lemma FirstKeyMissing(g: Graph, w: Weight, s: Node, t: Node)
    requires MissingNear(g, Allowed(g, t, {}, {}), w, s, t)
    ensures MissingKey(g, s, t)
  {
    NothingBanned(g, t);
  }

  lemma NoPathAtAll(g: Graph, w: Weight, s: Node, t: Node)
    requires !Reachable(Allowed(g, t, {}, {}), s, t)
    ensures !Reachable(g, s, t) && RankingPrefix(g, w, s, t, []) && Complete(g, s, t, [])
  {
    NoPath(g, w, s, t);
  }

  // ---------- which rounds can be lost ----------

  /** `p` leaves `prev` right after position i, where no listed path goes on that way. */
  ghost predicate Parts(g: Graph, s: Node, t: Node, paths: seq<Path>, prev: Path, i: nat, p: Path) {
    SimplePath(g, s, t, p) && Shares(p, prev, i + 1) && Fresh(paths, prev, i + 1, p[i + 1])
  }

  /** What one spur search finds, without its bans: a cheapest path that parts from
      `prev` right there, whenever there is one. */
  lemma SpurBest(g: Graph, w: Weight, s: Node, t: Node, paths: seq<Path>, prev: Path, i: nat, added: seq<Path>)
    requires SimplePath(g, s, t, prev) && i < |prev| - 1 && SpurAt(g, w, t, paths, prev, i, added)
    ensures |added| <= 1 && forall c | c in added :: Parts(g, s, t, paths, prev, i, c)
    ensures forall p | Parts(g, s, t, paths, prev, i, p) :: added != [] && Cost(w, added[0]) <= Cost(w, p)
  {
    hide Allowed, Simple, Walk, SimplePath, Shares, Fresh;
    var bans :| BansFor(paths, prev, i + 1, bans) && SpurUnder(g, w, t, prev, i, bans, added);
    var a := Allowed(g, t, bans, Elements(prev[..i]));
    hide BansFor;
    if added != [] {
      var spur :| IsShortest(a, w, prev[i], t, spur) && added == [prev[..i] + spur];
      SpurIsCandidate(g, w, s, t, paths, prev, i + 1, bans, spur);
    }
    forall p | Parts(g, s, t, paths, prev, i, p)
      ensures added != [] && Cost(w, added[0]) <= Cost(w, p)
    {
      SharesBack(paths, p, prev, i + 1);
      SpurReaches(g, w, s, t, paths, prev, i + 1, bans, p);
    }
  }

  lemma SharesBack(paths: seq<Path>, p: Path, prev: Path, m: nat)
    requires Shares(p, prev, m) && Fresh(paths, prev, m, p[m])
    ensures Shares(prev, p, m) && Fresh(paths, p, m, p[m])
  {
  }

  /** So a spur is not listed. */
  lemma SpurUnlisted(g: Graph, w: Weight, s: Node, t: Node, paths: seq<Path>, prev: Path, i: nat, added: seq<Path>, c: Path)
    requires SimplePath(g, s, t, prev) && i < |prev| - 1 && SpurAt(g, w, t, paths, prev, i, added) && c in added
    ensures c !in paths
  {
    hide SpurAt, SimplePath;
    SpurBest(g, w, s, t, paths, prev, i, added);
  }

  /** Spurs at different positions of a listed path are different. */
  lemma SpursDiffer(g: Graph, w: Weight, s: Node, t: Node, paths: seq<Path>, prev: Path, i: nat, j: nat, a: seq<Path>, b: seq<Path>, c: Path)
    requires SimplePath(g, s, t, prev) && prev in paths && i < j < |prev| - 1
    requires SpurAt(g, w, t, paths, prev, i, a) && SpurAt(g, w, t, paths, prev, j, b) && c in a
    ensures c !in b
  {
    hide SpurAt, SimplePath;
    SpurBest(g, w, s, t, paths, prev, i, a);
    assert Shares(prev, prev, i + 1);
    assert c[i + 1] != prev[i + 1];
    forall d | d in b
      ensures d != c
    {
      SpurBest(g, w, s, t, paths, prev, j, b);
      assert d[i + 1] == d[..j + 1][i + 1] == prev[..j + 1][i + 1] == prev[i + 1];
    }
  }

  lemma {:induction false} InFlatten(spurs: seq<seq<Path>>, c: Path)
    ensures c in Flatten(spurs) <==> exists i :: 0 <= i < |spurs| && c in spurs[i]
  {
    if spurs != [] { InFlatten(spurs[..|spurs| - 1], c); }
  }

  /** A pass offers no listed path ... */
  lemma PassUnlisted(g: Graph, w: Weight, s: Node, t: Node, paths: seq<Path>, prev: Path, spurs: seq<seq<Path>>, c: Path)
    requires SimplePath(g, s, t, prev) && Spurs(g, w, t, paths, prev, |prev| - 1, spurs) && c in Flatten(spurs)
    ensures c !in paths
  {
    hide SpurAt, SimplePath;
    InFlatten(spurs, c);
    var i :| 0 <= i < |spurs| && c in spurs[i];
    SpurUnlisted(g, w, s, t, paths, prev, i, spurs[i], c);
  }

  lemma PassSimple(g: Graph, w: Weight, s: Node, t: Node, paths: seq<Path>, prev: Path, spurs: seq<seq<Path>>, c: Path)
    requires SimplePath(g, s, t, prev) && Spurs(g, w, t, paths, prev, |prev| - 1, spurs) && c in Flatten(spurs)
    ensures SimplePath(g, s, t, c)
  {
    hide SpurAt, SimplePath;
    InFlatten(spurs, c);
    var i :| 0 <= i < |spurs| && c in spurs[i];
    SpurBest(g, w, s, t, paths, prev, i, spurs[i]);
  }

  /** ... and none twice. */
  lemma {:induction false} PassOnce(g: Graph, w: Weight, s: Node, t: Node, paths: seq<Path>, prev: Path, n: nat, spurs: seq<seq<Path>>, c: Path)
    requires SimplePath(g, s, t, prev) && prev in paths && Spurs(g, w, t, paths, prev, n, spurs)
    ensures multiset(Flatten(spurs))[c] <= 1
    decreases n
  {
    hide SimplePath;
    if n > 0 {
      var front, last := spurs[..n - 1], spurs[n - 1];
      assert SpurAt(g, w, t, paths, prev, n - 1, last);
      PassOnce(g, w, s, t, paths, prev, n - 1, front, c);
      assert |last| <= 1;
      InFlatten(front, c);
      if c in Flatten(front) {
        var i :| 0 <= i < |front| && c in front[i];
        SpursDiffer(g, w, s, t, paths, prev, i, n - 1, front[i], last, c);
      }
      assert multiset(Flatten(spurs))[c] == multiset(Flatten(front))[c] + multiset(last)[c];
    }
  }

  lemma PoppedOnce(cands: seq<Path>, next: Path, rest: seq<Path>)
    requires multiset(cands) == multiset(rest) + multiset{next} && multiset(cands)[next] <= 1
    ensures next !in rest && next in cands && forall c | c in rest :: c in cands
  {
    assert multiset(rest)[next] == multiset(cands)[next] - 1;
    assert next in multiset(cands);
    forall c | c in rest
      ensures c in cands
    {
      assert c in multiset(cands);
    }
  }

  /** The first round lists a new path and leaves no copy of it. */
  lemma FirstRoundLists(g: Graph, w: Weight, s: Node, t: Node, first: Path, r: Round)
    requires SimplePath(g, s, t, first) && RoundOk(g, w, t, r) && r.paths == [first] && r.before == []
    ensures r.next != first && first !in r.rest && r.next !in r.rest
  {
    hide SimplePath, Spurs, SpurAt, Flatten;
    var cands := Flatten(r.spurs);
    assert r.before + cands == cands;
    PassOnce(g, w, s, t, [first], first, |first| - 1, r.spurs, r.next);
    PoppedOnce(cands, r.next, r.rest);
    PassUnlisted(g, w, s, t, [first], first, r.spurs, r.next);
    if first in r.rest {
      PassUnlisted(g, w, s, t, [first], first, r.spurs, first);
      assert false;
    }
  }

  /** Neither of the first two rounds is lost. */
  lemma EarlyRoundsList(g: Graph, w: Weight, s: Node, t: Node, first: Path, rounds: seq<Round>)
    requires IsRun(g, w, t, first, rounds) && SimplePath(g, s, t, first) && |rounds| <= 2
    requires SimpleRounds(g, s, t, rounds)
    ensures |FinalPaths(first, rounds)| == 1 + |rounds|
  {
    hide SimplePath, RoundOk;
    forall r | r in rounds ensures AllSimple(g, s, t, r.paths) {
    }
    if |rounds| >= 1 {
      assert rounds[..0] == [];
      FirstRoundLists(g, w, s, t, first, rounds[0]);
    }
    if |rounds| == 2 {
      var r := rounds[1];
      assert rounds[..1] == [rounds[0]];
      assert r.paths == [first] + [rounds[0].next] && r.before == rounds[0].rest;
      SecondRoundLists(g, w, s, t, first, rounds[0].next, r);
    }
  }

  lemma SecondRoundLists(g: Graph, w: Weight, s: Node, t: Node, first: Path, second: Path, r: Round)
    requires RoundOk(g, w, t, r) && r.paths == [first] + [second] && first !in r.before && second !in r.before
    requires SimplePath(g, s, t, second)
    ensures r.next !in r.paths
  {
    hide SimplePath, Spurs;
    if r.next in Flatten(r.spurs) { PassUnlisted(g, w, s, t, r.paths, second, r.spurs, r.next); }
  }

  lemma NoPath(g: Graph, w: Weight, s: Node, t: Node)
    requires !Reachable(Allowed(g, t, {}, {}), s, t)
    ensures !Reachable(g, s, t) && RankingPrefix(g, w, s, t, [])
    ensures forall p :: !SimplePath(g, s, t, p)
  {
    NothingBanned(g, t);
  }

  lemma EmptyRanks(g: Graph, w: Weight, s: Node, t: Node)
    ensures RankingPrefix(g, w, s, t, [])
  {
  }

  lemma NoCandidates(g: Graph, s: Node, t: Node)
    ensures AllSimple(g, s, t, [])
  {
  }

  lemma PrefixIsSimple(g: Graph, w: Weight, s: Node, t: Node, paths: seq<Path>)
    requires RankingPrefix(g, w, s, t, paths)
    ensures AllSimple(g, s, t, paths)
  {
  }

  /** The head of the sorted candidates is a cheapest one. */
  lemma SortedHead(g: Graph, w: Weight, s: Node, t: Node, cands: seq<Path>, sorted: seq<Path>)
    requires AllSimple(g, s, t, cands) && sorted != []
    requires Ordered(ByKey(w), sorted) && forall c :: c in sorted <==> c in cands
    ensures SimplePath(g, s, t, sorted[0]) && AllSimple(g, s, t, sorted[1..])
    ensures forall c | c in cands :: Cost(w, sorted[0]) <= Cost(w, c)
    ensures forall c | c in cands :: c == sorted[0] || c in sorted[1..]
  {
    hide SimplePath;
    assert sorted == [sorted[0]] + sorted[1..];
    forall c | c in cands ensures Cost(w, sorted[0]) <= Cost(w, c) {
      var i :| 0 <= i < |sorted| && sorted[i] == c;
      assert i > 0 ==> ByKey(w)(sorted[0], sorted[i]);
    }
  }
}
