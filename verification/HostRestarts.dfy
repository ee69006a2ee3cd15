/** What a restart call achieves: the processes it starts again, how it returns, and
    what becomes of the new processes. Stated of every run of the fleet. */
module HostRestarts {
  import opened Wrappers
  import opened HostApps

  // ---------- what one call does in a run ----------

  /** The records call i took out of the fleet when it entered. */
  function TakenBy(s: Fleet, run: seq<Action>, i: nat): Option<seq<Launch>>
    requires Runs(s, run)
    decreases |run|
  {
    if run == [] then None
    else if run[0] == EnterRestart(i) && Apply(s, run[0]).restarts[i].Halting? then Some(OfHost(s.launches, s.restarts[i].idx))
    else TakenBy(Apply(s, run[0]), run[1..], i)
  }

  /** What one step adds to the start calls, if it is call i's. */
  function CallOf(s: Fleet, a: Action, i: nat): seq<Start>
    requires Enabled(s, a)
  {
    var t := Apply(s, a);
    if !SweepAction(a) && a.i == i && |s.starts| <= |t.starts| then t.starts[|s.starts|..] else []
  }

  /** ... and to the tracked records. */
  function NewOf(s: Fleet, a: Action, i: nat): seq<Launch>
    requires Enabled(s, a)
  {
    var t := Apply(s, a);
    if a.StartNext? && a.i == i && |s.launches| <= |t.launches| then t.launches[|s.launches|..] else []
  }

  /** The start calls that call i made, in order. */
  function CallsBy(s: Fleet, run: seq<Action>, i: nat): seq<Start>
    requires Runs(s, run)
    decreases |run|
  {
    if run == [] then [] else CallOf(s, run[0], i) + CallsBy(Apply(s, run[0]), run[1..], i)
  }

  /** The records of the processes that call i started, in order. */
  function FreshBy(s: Fleet, run: seq<Action>, i: nat): seq<Launch>
    requires Runs(s, run)
    decreases |run|
  {
    if run == [] then [] else NewOf(s, run[0], i) + FreshBy(Apply(s, run[0]), run[1..], i)
  }

  /** The start call of each record's next life. */
  function NextLives(ls: seq<Launch>): (r: seq<Start>)
    ensures |r| == |ls| && forall n | 0 <= n < |ls| :: r[n] == Start(ls[n].log, ls[n].life + 1)
  {
    if ls == [] then [] else NextLives(ls[..|ls| - 1]) + [Start(ls[|ls| - 1].log, ls[|ls| - 1].life + 1)]
  }

  /** Each new record is the next life of the record at its place. */
  ghost predicate Replaces(made: seq<Launch>, ls: seq<Launch>) {
    |made| == |ls| && forall n | 0 <= n < |ls| :: Succeeds(made[n], ls[n])
  }

  predicate Succeeds(f: Launch, l: Launch) {
    f.idx == l.idx && f.log == l.log && f.life == l.life + 1
  }

  /** A call that is to start mine[k..], when it stands at `end`. */
  ghost predicate Started(mine: seq<Launch>, k: nat, end: Restart, calls: seq<Start>, made: seq<Launch>) {
    k <= |mine| &&
    match end
    case Starting(m, j) => m == mine && k <= j <= |mine| && calls == NextLives(mine[k..j]) && Replaces(made, mine[k..j])
    case Finished(o) =>
      || (o == ReturnedTrue && mine != [] && calls == NextLives(mine[k..]) && Replaces(made, mine[k..]))
      || (o == RaisedError && FailedAt(mine, k, calls, made))
    case _ => false
  }

  /** Some start failed: the calls up to it were made, the ones before it succeeded. */
  ghost predicate FailedAt(mine: seq<Launch>, k: nat, calls: seq<Start>, made: seq<Launch>) {
    exists j :: k <= j < |mine| && calls == NextLives(mine[k..j + 1]) && Replaces(made, mine[k..j])
  }

  /** A call that took `mine`, when it stands at `end`. */
  ghost predicate Ended(mine: seq<Launch>, end: Restart, calls: seq<Start>, made: seq<Launch>) {
    match end
    case Begin(_) => false
    case Halting(_, m, _, _, _) => m == mine && calls == [] && made == []
    case Waiting(m) => m == mine && calls == [] && made == []
    case Resuming(m) => m == mine && calls == [] && made == []
    case Starting(_, _) => Started(mine, 0, end, calls, made)
    case Finished(o) => (o != ReturnedTrue && calls == [] && made == []) || Started(mine, 0, end, calls, made)
  }

  /** From control point r to control point `end`. */
  ghost predicate Goes(r: Restart, end: Restart, calls: seq<Start>, made: seq<Launch>) {
    match r
    case Begin(_) => true
    case Halting(_, mine, _, _, _) => Ended(mine, end, calls, made)
    case Waiting(mine) => Ended(mine, end, calls, made)
    case Resuming(mine) => Ended(mine, end, calls, made)
    case Starting(mine, k) => Started(mine, k, end, calls, made)
    case Finished(_) => end == r && calls == [] && made == []
  }

  /** A call past its first region has something to start. */
  predicate Sane(r: Restart) {
    match r
    case Waiting(mine) => mine != []
    case Resuming(mine) => mine != []
    case Starting(mine, k) => mine != [] && k <= |mine|
    case Halting(_, mine, k, _, failed) => mine == [] ==> failed == []
    case _ => true
  }

  lemma OwnStep(s: Fleet, a: Action, i: nat)
    requires Enabled(s, a) && At(s, i) && Sane(s.restarts[i])
    ensures At(Apply(s, a), i) && Sane(Apply(s, a).restarts[i])
    ensures !SweepAction(a) && a.i == i ==> Apply(s, a).restarts[i] == NextRestart(s, a)
    ensures SweepAction(a) || a.i != i ==> Apply(s, a).restarts[i] == s.restarts[i] && CallOf(s, a, i) == [] && NewOf(s, a, i) == []
    ensures !SweepAction(a) && a.i == i && !a.StartNext? ==> CallOf(s, a, i) == [] && NewOf(s, a, i) == []
    ensures a.StartNext? && a.i == i ==>
              var l := s.restarts[i].mine[s.restarts[i].k];
              && CallOf(s, a, i) == [Start(l.log, l.life + 1)]
              && NewOf(s, a, i) == if a.ok then [Launch(l.idx, l.log, l.life + 1, s.nextHandle)] else []
  {
    hide OfHost, OtherHosts, AnyCollides;
  }

  /** Putting one step before what follows it. */
  lemma GoesStep(s: Fleet, a: Action, i: nat, end: Restart, calls: seq<Start>, made: seq<Launch>)
    requires Enabled(s, a) && At(s, i) && Sane(s.restarts[i]) && !s.restarts[i].Begin?
    requires At(Apply(s, a), i) && Goes(Apply(s, a).restarts[i], end, calls, made)
    ensures Goes(s.restarts[i], end, CallOf(s, a, i) + calls, NewOf(s, a, i) + made)
  {
    hide OfHost, OtherHosts, AnyCollides, CallOf, NewOf, Started, Apply, FailedAt;
    OwnStep(s, a, i);
    assert [] + calls == calls && [] + made == made;
    if !SweepAction(a) && a.i == i {
      if a.StartNext? {
        StartStep(s.restarts[i].mine, s.restarts[i].k, a.ok, s.nextHandle, end, calls, made);
      } else if a.LeaveStarting? {
        AllStarted(s.restarts[i].mine, s.restarts[i].k);
      } else if a.EnterStarting? && NextRestart(s, a).Starting? {
        StartedEnds(s.restarts[i].mine, end, calls, made);
      }
    }
  }

  lemma AllStarted(mine: seq<Launch>, k: nat)
    requires k == |mine| && mine != []
    ensures Started(mine, k, Finished(ReturnedTrue), [], [])
  {
  }

  lemma StartedEnds(mine: seq<Launch>, end: Restart, calls: seq<Start>, made: seq<Launch>)
    requires Started(mine, 0, end, calls, made)
    ensures Ended(mine, end, calls, made)
  {
  }

  lemma StartStep(mine: seq<Launch>, k: nat, ok: bool, handle: nat, end: Restart, calls: seq<Start>, made: seq<Launch>)
    requires k < |mine|
    requires if ok then Started(mine, k + 1, end, calls, made) else end == Finished(RaisedError) && calls == [] && made == []
    ensures var l := mine[k];
            Started(mine, k, end, [Start(l.log, l.life + 1)] + calls, (if ok then [Launch(l.idx, l.log, l.life + 1, handle)] else []) + made)
  {
    hide Replaces, FailedAt, NextLives;
    var l := mine[k];
    var c, f := [Start(l.log, l.life + 1)], [Launch(l.idx, l.log, l.life + 1, handle)];
    assert mine[k..] == mine[k..|mine|] && mine[k + 1..] == mine[k + 1..|mine|];
    if !ok {
      FailsHere(mine, k, calls, made);
    } else if end.Starting? {
      OneMore(mine, k, end.k, c, calls, f, made);
    } else if end.outcome == ReturnedTrue {
      OneMore(mine, k, |mine|, c, calls, f, made);
    } else {
      FailsLater(mine, k, c, calls, f, made);
    }
  }

  lemma FailsHere(mine: seq<Launch>, k: nat, calls: seq<Start>, made: seq<Launch>)
    requires k < |mine| && calls == [] && made == []
    ensures FailedAt(mine, k, [Start(mine[k].log, mine[k].life + 1)] + calls, [] + made)
  {
    assert mine[k..k + 1] == [mine[k]] && mine[k..k] == [];
    assert [Start(mine[k].log, mine[k].life + 1)] + calls == NextLives(mine[k..k + 1]);
    assert Replaces([] + made, mine[k..k]);
  }

  lemma FailsLater(mine: seq<Launch>, k: nat, c: seq<Start>, calls: seq<Start>, f: seq<Launch>, made: seq<Launch>)
    requires k < |mine| && FailedAt(mine, k + 1, calls, made)
    requires c == [Start(mine[k].log, mine[k].life + 1)] && |f| == 1 && Succeeds(f[0], mine[k])
    ensures FailedAt(mine, k, c + calls, f + made)
  {
    hide NextLives;
    var j :| k + 1 <= j < |mine| && calls == NextLives(mine[k + 1..j + 1]) && Replaces(made, mine[k + 1..j]);
    CallsMore(mine, k, j + 1, c, calls);
    RecordsMore(mine, k, j, f, made);
  }

  lemma CallsMore(mine: seq<Launch>, k: nat, j: nat, c: seq<Start>, calls: seq<Start>)
    requires k < j <= |mine| && calls == NextLives(mine[k + 1..j]) && c == [Start(mine[k].log, mine[k].life + 1)]
    ensures c + calls == NextLives(mine[k..j])
  {
    assert mine[k..j] == [mine[k]] + mine[k + 1..j];
  }

  lemma RecordsMore(mine: seq<Launch>, k: nat, j: nat, f: seq<Launch>, made: seq<Launch>)
    requires k < j <= |mine| && Replaces(made, mine[k + 1..j]) && |f| == 1 && Succeeds(f[0], mine[k])
    ensures Replaces(f + made, mine[k..j])
  {
    hide Succeeds;
    assert mine[k..j] == [mine[k]] + mine[k + 1..j];
  }

  lemma OneMore(mine: seq<Launch>, k: nat, j: nat, c: seq<Start>, calls: seq<Start>, f: seq<Launch>, made: seq<Launch>)
    requires k < j <= |mine| && calls == NextLives(mine[k + 1..j]) && Replaces(made, mine[k + 1..j])
    requires c == [Start(mine[k].log, mine[k].life + 1)] && |f| == 1 && Succeeds(f[0], mine[k])
    ensures c + calls == NextLives(mine[k..j]) && Replaces(f + made, mine[k..j])
  {
    CallsMore(mine, k, j, c, calls);
    RecordsMore(mine, k, j, f, made);
  }

  lemma {:induction false} RunGoes(s: Fleet, run: seq<Action>, i: nat)
    requires Runs(s, run) && At(s, i) && Sane(s.restarts[i]) && !s.restarts[i].Begin?
    ensures At(After(s, run), i) && Goes(s.restarts[i], After(s, run).restarts[i], CallsBy(s, run, i), FreshBy(s, run, i))
    decreases |run|
  {
    hide Enabled, Apply, CallOf, NewOf, Sane;
    if run == [] {
      GoesNowhere(s.restarts[i]);
    } else {
      OwnStep(s, run[0], i);
      NotBegin(s, run[0], i);
      var t := Apply(s, run[0]);
      RunGoes(t, run[1..], i);
      hide Goes;
      GoesStep(s, run[0], i, After(s, run).restarts[i], CallsBy(t, run[1..], i), FreshBy(t, run[1..], i));
    }
  }

  lemma NotBegin(s: Fleet, a: Action, i: nat)
    requires Enabled(s, a) && At(s, i) && Sane(s.restarts[i]) && !s.restarts[i].Begin?
    ensures At(Apply(s, a), i) && !Apply(s, a).restarts[i].Begin?
  {
    hide OfHost, OtherHosts, AnyCollides, Apply;
    OwnStep(s, a, i);
  }

  lemma GoesNowhere(r: Restart)
    requires Sane(r) && !r.Begin?
    ensures Goes(r, r, [], [])
  {
  }

  /** A call that has not begun: it stays so, ends without taking anything, or takes the
      records of its host and goes on from there. */
  lemma {:induction false} RunResult(s: Fleet, run: seq<Action>, i: nat)
    requires Runs(s, run) && At(s, i) && s.restarts[i].Begin?
    ensures At(After(s, run), i)
    ensures var end := After(s, run).restarts[i];
            match TakenBy(s, run, i)
            case None => (end == s.restarts[i] || end == Finished(ReturnedFalse) || end == Finished(RaisedError))
                         && CallsBy(s, run, i) == [] && FreshBy(s, run, i) == []
            case Some(mine) => Ended(mine, end, CallsBy(s, run, i), FreshBy(s, run, i))
    decreases |run|
  {
    hide Enabled, Apply, CallOf, NewOf, OfHost, OtherHosts, AnyCollides, Ended;
    if run != [] {
      OwnStep(s, run[0], i);
      var t := Apply(s, run[0]);
      if t.restarts[i].Begin? {
        RunResult(t, run[1..], i);
      } else {
        EntersOnce(s, run[0], i);
        RunGoes(t, run[1..], i);
        if t.restarts[i].Finished? { TakenBefore(t, run[1..], i); }
      }
      assert forall c: seq<Start> :: [] + c == c;
      assert forall f: seq<Launch> :: [] + f == f;
    }
  }

  lemma EntersOnce(s: Fleet, a: Action, i: nat)
    requires Enabled(s, a) && At(s, i) && s.restarts[i].Begin? && At(Apply(s, a), i) && !Apply(s, a).restarts[i].Begin?
    ensures a == EnterRestart(i)
    ensures Apply(s, a).restarts[i] in {Finished(ReturnedFalse), Finished(RaisedError), Halting(s.restarts[i].idx, OfHost(s.launches, s.restarts[i].idx), 0, false, [])}
  {
    hide OfHost, OtherHosts, AnyCollides;
  }

  lemma {:induction false} TakenBefore(s: Fleet, run: seq<Action>, i: nat)
    requires Runs(s, run) && At(s, i) && !s.restarts[i].Begin? && Sane(s.restarts[i])
    ensures TakenBy(s, run, i) == None
    decreases |run|
  {
    hide OfHost, OtherHosts, AnyCollides, Apply;
    if run != [] {
      OwnStep(s, run[0], i);
      NotBegin(s, run[0], i);
      TakenBefore(Apply(s, run[0]), run[1..], i);
    }
  }

  // ---------- how the call returns ----------

  /** The call was refused: its host's next life would overwrite a reserved log. */
  predicate Refused(s: Fleet, run: seq<Action>, i: nat)
    requires Runs(s, run)
    decreases |run|
  {
    run != [] &&
    (if run[0] == EnterRestart(i) then !s.stopping && AnyCollides(s.reserved, OfHost(s.launches, s.restarts[i].idx))
     else Refused(Apply(s, run[0]), run[1..], i))
  }

  /** Some stop or start of the call failed. */
  predicate Failing(run: seq<Action>, i: nat) {
    StopReturns(i, false) in run || StartNext(i, false) in run
  }

  predicate Unstopped(r: Restart) {
    r.Halting? && r.failed != []
  }

  lemma FailingStep(a: Action, run: seq<Action>, i: nat)
    ensures Failing([a] + run, i) <==> a == StopReturns(i, false) || a == StartNext(i, false) || Failing(run, i)
  {
  }

  lemma FailedStep(s: Fleet, a: Action, i: nat)
    requires Enabled(s, a) && At(s, i) && Sane(s.restarts[i]) && !s.restarts[i].Begin?
    ensures At(Apply(s, a), i)
    ensures var r, t := s.restarts[i], Apply(s, a);
            var bad := a == StopReturns(i, false) || a == StartNext(i, false);
            && (r.Finished? ==> t.restarts[i] == r && !bad)
            && (!r.Finished? && !t.restarts[i].Finished? ==> (Unstopped(t.restarts[i]) <==> Unstopped(r) || bad))
            && (!r.Finished? && t.restarts[i].Finished? ==> (t.restarts[i].outcome == RaisedError <==> Unstopped(r) || bad))
            && (!r.Finished? && t.restarts[i] == Finished(ReturnedFalse) ==> s.stopping || (r.Halting? && r.mine == []))
            && (r.Halting? && t.restarts[i].Halting? ==> t.restarts[i].mine == r.mine)
            && (r.Halting? || !t.restarts[i].Halting?)
            && (s.stopping ==> t.stopping)
  {
    hide OfHost, OtherHosts, AnyCollides;
  }

  lemma {:induction false} FinishedStays(s: Fleet, run: seq<Action>, i: nat)
    requires Runs(s, run) && At(s, i) && s.restarts[i].Finished?
    ensures At(After(s, run), i) && After(s, run).restarts[i] == s.restarts[i] && !Failing(run, i)
    decreases |run|
  {
    hide Enabled, Apply, Failing;
    if run != [] {
      FailedStep(s, run[0], i);
      FinishedStays(Apply(s, run[0]), run[1..], i);
      assert run == [run[0]] + run[1..];
      FailingStep(run[0], run[1..], i);
    } else {
      NoneFailing(i);
    }
  }

  lemma NoneFailing(i: nat)
    ensures !Failing([], i)
  {
  }

  /** From inside the call: it raises exactly when something failed, and returns False
      only after shutdown began or for a host without records. */
  lemma {:induction false} RunReturns(s: Fleet, run: seq<Action>, i: nat)
    requires Runs(s, run) && At(s, i) && Sane(s.restarts[i]) && !s.restarts[i].Begin? && !s.restarts[i].Finished?
    ensures At(After(s, run), i)
    ensures var end := After(s, run).restarts[i];
            && (end.Finished? ==> (end.outcome == RaisedError <==> Unstopped(s.restarts[i]) || Failing(run, i)))
            && (end == Finished(ReturnedFalse) ==> After(s, run).stopping || (s.restarts[i].Halting? && s.restarts[i].mine == []))
            && (s.stopping ==> After(s, run).stopping)
    decreases |run|
  {
    hide Enabled, Apply, Failing, Unstopped, Sane;
    if run == [] {
      NoneFailing(i);
    } else {
      OwnStep(s, run[0], i);
      NotBegin(s, run[0], i);
      FailedStep(s, run[0], i);
      assert run == [run[0]] + run[1..];
      FailingStep(run[0], run[1..], i);
      var t := Apply(s, run[0]);
      if t.restarts[i].Finished? {
        FinishedStays(t, run[1..], i);
        StoppingStays(t, run[1..]);
      } else {
        RunReturns(t, run[1..], i);
      }
    }
  }

  lemma {:induction false} StoppingStays(s: Fleet, run: seq<Action>)
    requires Runs(s, run)
    ensures s.stopping ==> After(s, run).stopping
    decreases |run|
  {
    hide OfHost, OtherHosts, AnyCollides;
    if run != [] { StoppingStays(Apply(s, run[0]), run[1..]); }
  }

  /** A call that has returned: with an error exactly when it was refused or a stop or
      start of its own failed; with False only when shutdown had begun or its host had
      no record. Otherwise it returned True. */
  lemma {:induction false} HowItReturns(s: Fleet, run: seq<Action>, i: nat)
    requires Runs(s, run) && At(s, i) && s.restarts[i].Begin?
    ensures At(After(s, run), i)
    ensures var end := After(s, run).restarts[i];
            && (end.Finished? ==> (end.outcome == RaisedError <==> Refused(s, run, i) || Failing(run, i)))
            && (end == Finished(ReturnedFalse) ==> After(s, run).stopping || TakenBy(s, run, i) == Some([]))
    decreases |run|
  {
    hide Enabled, Apply, Failing, OfHost, OtherHosts, AnyCollides;
    if run == [] {
      NoneFailing(i);
    } else {
      OwnStep(s, run[0], i);
      var t := Apply(s, run[0]);
      assert run == [run[0]] + run[1..];
      FailingStep(run[0], run[1..], i);
      BeginStep(s, run[0], i);
      if t.restarts[i].Begin? {
        HowItReturns(t, run[1..], i);
      } else if t.restarts[i].Finished? {
        FinishedStays(t, run[1..], i);
        StoppingStays(t, run[1..]);
      } else {
        RunReturns(t, run[1..], i);
      }
    }
  }

  lemma BeginStep(s: Fleet, a: Action, i: nat)
    requires Enabled(s, a) && At(s, i) && s.restarts[i].Begin?
    ensures At(Apply(s, a), i) && a != StopReturns(i, false) && a != StartNext(i, false)
    ensures var t := Apply(s, a);
            if a != EnterRestart(i) then t.restarts[i].Begin?
            else if s.stopping then t.restarts[i] == Finished(ReturnedFalse) && t.stopping
            else if AnyCollides(s.reserved, OfHost(s.launches, s.restarts[i].idx)) then t.restarts[i] == Finished(RaisedError)
            else t.restarts[i] == Halting(s.restarts[i].idx, OfHost(s.launches, s.restarts[i].idx), 0, false, [])
  {
    hide OfHost, OtherHosts, AnyCollides;
  }

  // ---------- what becomes of the new processes ----------

  /** Every record is somewhere once, under a handle of its own. */
  ghost predicate OneEach(m: multiset<Launch>) {
    && (forall l | l in m :: m[l] == 1)
    && (forall a, b | a in m && b in m && a != b :: a.handle != b.handle)
  }

  ghost predicate Sole(s: Fleet) {
    RestartsOk(s) && LockOk(s) && HandlesOk(s) && OneEach(Tokens(s))
  }

  lemma OneEachLess(m: multiset<Launch>, n: multiset<Launch>)
    requires OneEach(m) && n <= m
    ensures OneEach(n)
  {
    forall l | l in n
      ensures n[l] == 1 && l in m
    {
      assert m[l] == 1;
    }
  }

  lemma OneEachReplaced(m: multiset<Launch>, l: Launch, l': Launch)
    requires OneEach(m) && l in m && forall x | x in m :: x.handle < l'.handle
    ensures OneEach(m - multiset{l} + multiset{l'})
  {
    var n := m - multiset{l} + multiset{l'};
    assert l' !in m;
    forall x | x in n
      ensures n[x] == 1 && (x == l' || x in m)
    {
      assert x in m ==> m[x] == 1;
      assert m[l] == 1;
    }
  }

  lemma SoleKept(s: Fleet, a: Action)
    requires Sole(s) && Enabled(s, a)
    ensures Sole(Apply(s, a))
  {
    hide Tokens, OneEach, RestartsOk, LockOk, OfHost, OtherHosts, AnyCollides, Collides;
    RestartsKept(s, a);
    LockKept(s, a);
    if a.StartNext? && a.ok {
      TokensReplaced(s, a);
      OneEachReplaced(Tokens(s), s.restarts[a.i].mine[s.restarts[a.i].k], Replayed(s, a));
    } else {
      TokensShrink(s, a);
      OneEachLess(Tokens(s), Tokens(Apply(s, a)));
      assert Apply(s, a).nextHandle == s.nextHandle;
    }
  }

  lemma InitialSole(cs: seq<Config>, started: nat, calls: nat, hosts: seq<nat>)
    requires started <= calls <= |cs|
    ensures Sole(Initial(cs, started, calls, hosts))
  {
    var s := Initial(cs, started, calls, hosts);
    InitialInv(cs, started, calls, hosts);
    NobodyHolds(s.restarts);
    assert Tokens(s) == multiset(s.launches);
    forall l | l in s.launches
      ensures multiset(s.launches)[l] == 1 && l == s.launches[l.handle]
    {
      OnceEach(s.launches, l);
    }
  }

  lemma {:induction false} RunSole(s: Fleet, run: seq<Action>)
    requires Sole(s) && Runs(s, run)
    ensures Sole(After(s, run))
    decreases |run|
  {
    hide Sole, Enabled, Apply;
    if run != [] {
      SoleKept(s, run[0]);
      RunSole(Apply(s, run[0]), run[1..]);
    }
  }

  /** No restart call of host `idx` enters. */
  predicate LeavesAlone(s: Fleet, run: seq<Action>, idx: nat)
    requires Runs(s, run)
    decreases |run|
  {
    run == [] || (!(run[0].EnterRestart? && s.restarts[run[0].i].idx == idx) && LeavesAlone(Apply(s, run[0]), run[1..], idx))
  }

  /** A stop in another call's hands is not this process's. */
  lemma OtherHandle(s: Fleet, i: nat, l: Launch, f: Launch)
    requires Sole(s) && At(s, i) && l in Held(s.restarts[i]) && f in s.launches
    ensures l.handle != f.handle
  {
    hide Held, RestartsOk, LockOk, HandlesOk;
    HeldIncluded(s.restarts, i);
    assert l in HeldByAll(s.restarts) && f in multiset(s.launches);
    assert Tokens(s)[l] == multiset(s.launches)[l] + HeldByAll(s.restarts)[l];
    assert l in Tokens(s) && f in Tokens(s);
  }

  lemma TrackedStep(s: Fleet, a: Action, f: Launch)
    requires Sole(s) && Enabled(s, a) && f in s.launches && !(a.EnterRestart? && s.restarts[a.i].idx == f.idx)
    ensures f in Apply(s, a).launches
    ensures f.handle in s.running && !Apply(s, a).stopping ==> f.handle in Apply(s, a).running
  {
    hide OfHost, OtherHosts, AnyCollides, Tokens, OneEach, RestartsOk, HandlesOk;
    if a.EnterRestart? {
      HostSplit(s.launches, s.restarts[a.i].idx);
    } else if a.StopReturns? {
      assert s.restarts[a.i].mine[s.restarts[a.i].k] in Held(s.restarts[a.i]);
      OtherHandle(s, a.i, s.restarts[a.i].mine[s.restarts[a.i].k], f);
    }
  }

  /** A tracked process stays tracked, and running unless shutdown begins, as long as no
      restart of its host enters. */
  lemma {:induction false} RunTracks(s: Fleet, run: seq<Action>, f: Launch)
    requires Sole(s) && Runs(s, run) && f in s.launches && f.handle in s.running && LeavesAlone(s, run, f.idx)
    ensures f in After(s, run).launches && (!After(s, run).stopping ==> f.handle in After(s, run).running)
    decreases |run|
  {
    hide Sole, Enabled, Apply;
    if run != [] {
      var t := Apply(s, run[0]);
      SoleKept(s, run[0]);
      TrackedStep(s, run[0], f);
      if t.stopping {
        StoppingStays(t, run[1..]);
        RunKeepsRecord(t, run[1..], f);
      } else {
        RunTracks(t, run[1..], f);
      }
    }
  }

  lemma {:induction false} RunKeepsRecord(s: Fleet, run: seq<Action>, f: Launch)
    requires Sole(s) && Runs(s, run) && f in s.launches && LeavesAlone(s, run, f.idx)
    ensures f in After(s, run).launches
    decreases |run|
  {
    hide Sole, Enabled, Apply;
    if run != [] {
      SoleKept(s, run[0]);
      TrackedStep(s, run[0], f);
      RunKeepsRecord(Apply(s, run[0]), run[1..], f);
    }
  }

  lemma NewIsTracked(s: Fleet, a: Action, i: nat, f: Launch)
    requires Enabled(s, a) && f in NewOf(s, a, i)
    ensures f in Apply(s, a).launches && f.handle in Apply(s, a).running
  {
  }

  lemma {:induction false} FreshTracked(s: Fleet, run: seq<Action>, i: nat, f: Launch)
    requires Sole(s) && Runs(s, run) && f in FreshBy(s, run, i) && LeavesAlone(s, run, f.idx)
    ensures f in After(s, run).launches && (!After(s, run).stopping ==> f.handle in After(s, run).running)
    decreases |run|
  {
    hide Sole, Enabled, Apply, NewOf;
    var t := Apply(s, run[0]);
    SoleKept(s, run[0]);
    if f in NewOf(s, run[0], i) {
      NewIsTracked(s, run[0], i, f);
      RunTracks(t, run[1..], f);
    } else {
      FreshTracked(t, run[1..], i, f);
    }
  }

  // ---------- the main result, for every run ----------

  /** A restart call that returned True has made the start call of the next life of each
      record its host had when it entered, in order. The new processes are tracked, and
      run, unless shutdown began or another restart of the host entered since. */
  lemma RestartWorks(cs: seq<Config>, started: nat, calls: nat, hosts: seq<nat>, early: seq<Action>, late: seq<Action>, i: nat)
    requires started <= calls <= |cs| && Runs(Initial(cs, started, calls, hosts), early)
    requires var s := After(Initial(cs, started, calls, hosts), early);
             && Enabled(s, EnterRestart(i)) && Runs(Apply(s, EnterRestart(i)), late)
             && At(After(Apply(s, EnterRestart(i)), late), i)
             && After(Apply(s, EnterRestart(i)), late).restarts[i] == Finished(ReturnedTrue)
    ensures var s := After(Initial(cs, started, calls, hosts), early);
            var t := Apply(s, EnterRestart(i));
            var mine, u := OfHost(s.launches, s.restarts[i].idx), After(t, late);
            && mine != [] && CallsBy(t, late, i) == NextLives(mine) && Replaces(FreshBy(t, late, i), mine)
            && (LeavesAlone(t, late, s.restarts[i].idx) ==>
                  forall f | f in FreshBy(t, late, i) :: f in u.launches && (!u.stopping ==> f.handle in u.running))
  {
    hide Initial, Runs, After, Apply, Enabled, Sole, OfHost, OtherHosts, AnyCollides, Replaces, NextLives;
    var s := After(Initial(cs, started, calls, hosts), early);
    var t := Apply(s, EnterRestart(i));
    Entering(s, i);
    BeginStep(s, EnterRestart(i), i);
    if t.restarts[i].Finished? {
      FinishedStays(t, late, i);
      assert false;
    }
    RunGoes(t, late, i);
    var mine, made := OfHost(s.launches, s.restarts[i].idx), FreshBy(t, late, i);
    assert mine[0..] == mine;
    InitialSole(cs, started, calls, hosts);
    RunSole(Initial(cs, started, calls, hosts), early);
    SoleKept(s, EnterRestart(i));
    forall f | f in made && LeavesAlone(t, late, s.restarts[i].idx)
      ensures f in After(t, late).launches && (!After(t, late).stopping ==> f.handle in After(t, late).running)
    {
      SameHost(s.launches, s.restarts[i].idx, made, f);
      FreshTracked(t, late, i, f);
    }
  }

  lemma Entering(s: Fleet, i: nat)
    requires Enabled(s, EnterRestart(i))
    ensures At(s, i) && s.restarts[i].Begin? && Sane(s.restarts[i])
  {
  }

  lemma SameHost(ls: seq<Launch>, idx: nat, made: seq<Launch>, f: Launch)
    requires Replaces(made, OfHost(ls, idx)) && f in made
    ensures f.idx == idx
  {
    HostSplit(ls, idx);
    hide OfHost;
    var n :| 0 <= n < |made| && made[n] == f;
    assert Succeeds(made[n], OfHost(ls, idx)[n]);
    assert OfHost(ls, idx)[n] in OfHost(ls, idx);
  }

  /** OfHost lists the host's records in the order of the fleet. */
  lemma {:induction false} HostOrder(a: seq<Launch>, b: seq<Launch>, idx: nat)
    ensures OfHost(a + b, idx) == OfHost(a, idx) + OfHost(b, idx)
    decreases |b|
  {
    if b == [] {
      assert a + b == a;
    } else {
      var n := |b| - 1;
      HostOrder(a, b[..n], idx);
      assert a + b == (a + b[..n]) + [b[n]] && b == b[..n] + [b[n]];
      OneMoreRecord(a + b[..n], b[n], idx);
      OneMoreRecord(b[..n], b[n], idx);
    }
  }

  lemma OneMoreRecord(ls: seq<Launch>, l: Launch, idx: nat)
    ensures OfHost(ls + [l], idx) == OfHost(ls, idx) + if l.idx == idx then [l] else []
  {
    assert (ls + [l])[..|ls|] == ls;
  }
}
