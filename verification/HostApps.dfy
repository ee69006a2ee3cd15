/** HostAppFleet: restarts racing shutdown, as a step system. Each action is one
    locked region or one blocking call; actions of all threads interleave freely. */
module HostApps {
  import opened Wrappers

  // ---------- log paths ----------

  function Digit(d: nat): char
    requires d < 10
  {
    "0123456789"[d]
  }

  function Decimal(n: nat): string {
    if n < 10 then [Digit(n)] else Decimal(n / 10) + [Digit(n % 10)]
  }

  /** _life_log: the first life keeps the path, later ones get a ".lifeN" suffix. */
  function LifeLog(log: string, life: nat): string {
    if life <= 1 then log else log + ".life" + Decimal(life)
  }

  lemma {:induction false} DecimalDigits(n: nat, i: nat)
    requires i < |Decimal(n)|
    ensures Decimal(n)[i] != 'e'
  {
    if n >= 10 && i < |Decimal(n)| - 1 { DecimalDigits(n / 10, i); }
  }

  lemma {:induction false} DecimalInjective(m: nat, n: nat)
    requires Decimal(m) == Decimal(n)
    ensures m == n
  {
    DecimalParts(m);
    DecimalParts(n);
    hide Decimal, Digit;
    DigitInjective(m % 10, n % 10);
    if m >= 10 && n >= 10 { DecimalInjective(m / 10, n / 10); }
  }

  /** The last digit, and the digits before it. */
  lemma DecimalParts(n: nat)
    ensures var a := Decimal(n);
            |a| >= 1 && a[|a| - 1] == Digit(n % 10) && (|a| > 1 <==> n >= 10) && (n >= 10 ==> a[..|a| - 1] == Decimal(n / 10))
  {
    DecimalNonEmpty(n / 10);
  }

  lemma DigitInjective(c: nat, d: nat)
    requires c < 10 && d < 10 && Digit(c) == Digit(d)
    ensures c == d
  {
  }

  lemma DecimalNonEmpty(n: nat)
    ensures |Decimal(n)| >= 1
  {
  }

  /** Suffixed paths decompose uniquely into base and life. */
  lemma LifeLogDecodes(a: string, i: nat, b: string, j: nat)
    requires i >= 2 && j >= 2 && LifeLog(a, i) == LifeLog(b, j)
    ensures a == b && i == j
  {
    var s := LifeLog(a, i);
    var da, db := Decimal(i), Decimal(j);
    var ea, eb := |s| - |da| - 1, |s| - |db| - 1;
    assert s == a + ".life" + da && s[ea] == 'e';
    assert s == b + ".life" + db && s[eb] == 'e';
    if ea < eb {
      assert s[eb] == da[eb - ea - 1];
      DecimalDigits(i, eb - ea - 1);
    } else if eb < ea {
      assert s[ea] == db[ea - eb - 1];
      DecimalDigits(j, ea - eb - 1);
    } else {
      assert da == s[ea + 1..] == db;
      DecimalInjective(i, j);
      assert a == s[..|s| - |da| - 5] == b;
    }
  }

  // ---------- fleet state ----------

  /** An entry of _launches; `log` is always the life-1 path. */
  datatype Launch = Launch(idx: nat, log: Option<string>, life: nat, handle: nat)

  datatype Outcome = ReturnedTrue | ReturnedFalse | RaisedError

  /** Where a restart_host call stands. Halting and Starting hold the lock;
      `busy` marks a runner.wait in progress on mine[k]. */
  datatype Restart =
    | Begin(idx: nat)
    | Halting(idx: nat, mine: seq<Launch>, k: nat, busy: bool, failed: seq<Launch>)
    | Waiting(mine: seq<Launch>)
    | Resuming(mine: seq<Launch>)
    | Starting(mine: seq<Launch>, k: nat)
    | Finished(outcome: Outcome)

  /** Where stop_all stands; the snapshot is swept outside the lock. */
  datatype Sweep = NotStarted | Sweeping(todo: seq<Launch>, k: nat, busy: bool, failed: seq<Launch>) | Swept(failed: seq<Launch>)

  /** One runner.start call: its path is LifeLog(log, life). */
  datatype Start = Start(log: Option<string>, life: nat)

  /** `running` are the processes started and not confirmed stopped. */
  datatype Fleet = Fleet(launches: seq<Launch>, stopping: bool, lock: Option<nat>, running: set<nat>, nextHandle: nat,
                         starts: seq<Start>, reserved: set<string>, restarts: seq<Restart>, sweep: Sweep)

  // ---------- actions ----------

  datatype Action =
    | EnterRestart(i: nat)             // first locked region up to the first stop
    | CallStop(i: nat)                 // runner.wait on the next handle begins
    | StopReturns(i: nat, ok: bool)    // ... and ends, confirmed or failed
    | LeaveHalting(i: nat)             // put the unstopped back, release the lock
    | EndWait(i: nat, woken: bool)     // _stopping.wait(downtime_s) returns
    | EnterStarting(i: nat)            // second locked region
    | StartNext(i: nat, ok: bool)      // runner.start of the next life, or its failure
    | LeaveStarting(i: nat)
    | EnterSweep                       // stop_all: set _stopping, snapshot
    | SweepCall
    | SweepReturns(ok: bool)
    | LeaveSweep

  predicate SweepAction(a: Action) {
    a.EnterSweep? || a.SweepCall? || a.SweepReturns? || a.LeaveSweep?
  }

  function OfHost(ls: seq<Launch>, idx: nat): seq<Launch> {
    if ls == [] then [] else OfHost(ls[..|ls| - 1], idx) + if ls[|ls| - 1].idx == idx then [ls[|ls| - 1]] else []
  }

  function OtherHosts(ls: seq<Launch>, idx: nat): seq<Launch> {
    if ls == [] then [] else OtherHosts(ls[..|ls| - 1], idx) + if ls[|ls| - 1].idx == idx then [] else [ls[|ls| - 1]]
  }

  /** Taking a host's records splits the list. */
  lemma {:induction false} HostSplit(ls: seq<Launch>, idx: nat)
    ensures multiset(ls) == multiset(OfHost(ls, idx)) + multiset(OtherHosts(ls, idx))
    ensures forall l :: l in OfHost(ls, idx) <==> l in ls && l.idx == idx
    ensures forall l :: l in OtherHosts(ls, idx) <==> l in ls && l.idx != idx
  {
    if ls != [] {
      HostSplit(ls[..|ls| - 1], idx);
      assert ls == ls[..|ls| - 1] + [ls[|ls| - 1]];
    }
  }

  /** The next life would write over a configured life-1 log. */
  predicate Collides(reserved: set<string>, l: Launch) {
    l.log.Some? && LifeLog(l.log.value, l.life + 1) in reserved
  }

  predicate AnyCollides(reserved: set<string>, ls: seq<Launch>) {
    exists l :: l in ls && Collides(reserved, l)
  }

  predicate At(s: Fleet, i: nat) {
    i < |s.restarts|
  }

  predicate Enabled(s: Fleet, a: Action) {
    match a
    case EnterRestart(i) => At(s, i) && s.restarts[i].Begin? && s.lock.None?
    case CallStop(i) => At(s, i) && s.restarts[i].Halting? && !s.restarts[i].busy && s.restarts[i].k < |s.restarts[i].mine|
    case StopReturns(i, _) => At(s, i) && s.restarts[i].Halting? && s.restarts[i].busy && s.restarts[i].k < |s.restarts[i].mine|
    case LeaveHalting(i) => At(s, i) && s.restarts[i].Halting? && !s.restarts[i].busy && s.restarts[i].k >= |s.restarts[i].mine|
    case EndWait(i, woken) => At(s, i) && s.restarts[i].Waiting? && (woken ==> s.stopping)
    case EnterStarting(i) => At(s, i) && s.restarts[i].Resuming? && s.lock.None?
    case StartNext(i, _) => At(s, i) && s.restarts[i].Starting? && s.restarts[i].k < |s.restarts[i].mine|
    case LeaveStarting(i) => At(s, i) && s.restarts[i].Starting? && s.restarts[i].k >= |s.restarts[i].mine|
    case EnterSweep => s.sweep.NotStarted? && s.lock.None?
    case SweepCall => s.sweep.Sweeping? && !s.sweep.busy && s.sweep.k < |s.sweep.todo|
    case SweepReturns(_) => s.sweep.Sweeping? && s.sweep.busy && s.sweep.k < |s.sweep.todo|
    case LeaveSweep => s.sweep.Sweeping? && !s.sweep.busy && s.sweep.k >= |s.sweep.todo|
  }

  /** What restart call i does next, given what it finds. */
  function NextRestart(s: Fleet, a: Action): Restart
    requires Enabled(s, a) && !SweepAction(a)
  {
    var r := s.restarts[a.i];
    match a
    case EnterRestart(_) =>
      if s.stopping then Finished(ReturnedFalse)
      else if AnyCollides(s.reserved, OfHost(s.launches, r.idx)) then Finished(RaisedError)
      else Halting(r.idx, OfHost(s.launches, r.idx), 0, false, [])
    case CallStop(_) => Halting(r.idx, r.mine, r.k, true, r.failed)
    case StopReturns(_, ok) => Halting(r.idx, r.mine, r.k + 1, false, if ok then r.failed else r.failed + [r.mine[r.k]])
    case LeaveHalting(_) => if r.mine == [] then Finished(ReturnedFalse) else if r.failed != [] then Finished(RaisedError) else Waiting(r.mine)
    case EndWait(_, woken) => if woken then Finished(ReturnedFalse) else Resuming(r.mine)
    case EnterStarting(_) => if s.stopping then Finished(ReturnedFalse) else Starting(r.mine, 0)
    case StartNext(_, ok) => if ok then Starting(r.mine, r.k + 1) else Finished(RaisedError)
    case LeaveStarting(_) => Finished(ReturnedTrue)
  }

  function Apply(s: Fleet, a: Action): Fleet
    requires Enabled(s, a)
  {
    match a
    case EnterSweep => s.(stopping := true, sweep := Sweeping(s.launches, 0, false, []))
    case SweepCall => s.(sweep := Sweeping(s.sweep.todo, s.sweep.k, true, s.sweep.failed))
    case SweepReturns(ok) =>
      var w := s.sweep;
      var l := w.todo[w.k];
      s.(sweep := Sweeping(w.todo, w.k + 1, false, if ok then w.failed else w.failed + [l]), running := if ok then s.running - {l.handle} else s.running)
    case LeaveSweep => s.(sweep := Swept(s.sweep.failed))
    case _ => ApplyRestart(s, a, NextRestart(s, a))
  }

  /** The effect of a restart step beside its own next control point `n`. */
  function ApplyRestart(s: Fleet, a: Action, n: Restart): Fleet
    requires Enabled(s, a) && !SweepAction(a)
  {
    var r := s.restarts[a.i];
    var t := s.(restarts := s.restarts[a.i := n]);
    match a
    case EnterRestart(i) => if n.Halting? then t.(launches := OtherHosts(s.launches, r.idx), lock := Some(i)) else t
    case StopReturns(_, ok) => if ok then t.(running := s.running - {r.mine[r.k].handle}) else t
    case LeaveHalting(_) => t.(launches := s.launches + r.failed, lock := None)
    case EnterStarting(i) => if n.Starting? then t.(lock := Some(i)) else t
    case StartNext(_, ok) =>
      var l := r.mine[r.k];
      var called := t.(starts := s.starts + [Start(l.log, l.life + 1)]);
      if ok then called.(launches := s.launches + [Launch(l.idx, l.log, l.life + 1, s.nextHandle)],
                         running := s.running + {s.nextHandle}, nextHandle := s.nextHandle + 1)
      else called.(lock := None)
    case LeaveStarting(_) => t.(lock := None)
    case _ => t
  }

  // ---------- who keeps track of what ----------

  /** The launch records a restart call holds and may still act on. */
  function Held(r: Restart): seq<Launch> {
    match r
    case Halting(_, mine, _, _, _) => mine
    case Waiting(mine) => mine
    case Resuming(mine) => mine
    case Starting(mine, k) => if k <= |mine| then mine[k..] else []
    case _ => []
  }

  function HeldByAll(rs: seq<Restart>): multiset<Launch> {
    if rs == [] then multiset{} else HeldByAll(rs[..|rs| - 1]) + multiset(Held(rs[|rs| - 1]))
  }

  lemma HeldUnfold(rs: seq<Restart>)
    requires rs != []
    ensures HeldByAll(rs) == HeldByAll(rs[..|rs| - 1]) + multiset(Held(rs[|rs| - 1]))
  {
  }

  lemma Regroup<T>(a: multiset<T>, b: multiset<T>, c: multiset<T>, d: multiset<T>, x: multiset<T>)
    requires a + b == c + d
    ensures a + x + b == c + x + d
  {
    assert a + x + b == (a + b) + x;
    assert c + x + d == (c + d) + x;
  }

  lemma {:induction false} HeldUpdate(rs: seq<Restart>, i: nat, r: Restart)
    requires i < |rs|
    ensures HeldByAll(rs[i := r]) + multiset(Held(rs[i])) == HeldByAll(rs) + multiset(Held(r))
  {
    hide Held, HeldByAll;
    var n := |rs| - 1;
    var rs' := rs[i := r];
    HeldUnfold(rs);
    HeldUnfold(rs');
    if i == n {
      assert rs'[..n] == rs[..n];
      Swap(HeldByAll(rs[..n]), multiset(Held(r)), multiset(Held(rs[i])));
    } else {
      HeldUpdate(rs[..n], i, r);
      assert rs'[..n] == rs[..n][i := r];
      Regroup(HeldByAll(rs'[..n]), multiset(Held(rs[i])), HeldByAll(rs[..n]), multiset(Held(r)), multiset(Held(rs[n])));
    }
  }

  lemma Swap<T>(a: multiset<T>, b: multiset<T>, c: multiset<T>)
    ensures a + b + c == a + c + b
  {
  }

  lemma {:induction false} HeldIncluded(rs: seq<Restart>, i: nat)
    requires i < |rs|
    ensures multiset(Held(rs[i])) <= HeldByAll(rs)
  {
    hide Held;
    if i < |rs| - 1 { HeldIncluded(rs[..|rs| - 1], i); }
  }

  /** Every launch record anywhere: tracked or held by a restart. */
  function Tokens(s: Fleet): multiset<Launch> {
    multiset(s.launches) + HeldByAll(s.restarts)
  }

  predicate Apart(a: Launch, b: Launch) {
    a.handle != b.handle && (a.log.Some? ==> a.log != b.log)
  }

  /** No two records share a handle or a log base. */
  ghost predicate Separate(m: multiset<Launch>) {
    && (forall l | l in m :: m[l] == 1)
    && (forall a, b | a in m && b in m && a != b :: Apart(a, b))
  }

  predicate Locked(r: Restart) {
    r.Halting? || r.Starting?
  }

  /** The lock is held by exactly the call inside a locked region, and once
      _stopping is set by nobody. */
  ghost predicate LockOk(s: Fleet) {
    && (forall i | 0 <= i < |s.restarts| :: Locked(s.restarts[i]) <==> s.lock == Some(i))
    && (s.lock.Some? ==> s.lock.value < |s.restarts|)
    && (s.stopping <==> !s.sweep.NotStarted?)
    && (s.stopping ==> s.lock.None?)
  }

  /** What a halting call has not confirmed stopped. */
  function Unstopped(r: Restart): seq<Launch> {
    if r.Halting? && r.k <= |r.mine| then r.failed + r.mine[r.k..] else []
  }

  /** The records somebody answers for: the tracked ones and, while a call is
      stopping a host, what it has not confirmed stopped. */
  function Answered(s: Fleet): seq<Launch> {
    s.launches + if s.lock.Some? && s.lock.value < |s.restarts| then Unstopped(s.restarts[s.lock.value]) else []
  }

  ghost predicate Tracked(ls: seq<Launch>, h: nat) {
    exists l :: l in ls && l.handle == h
  }

  ghost predicate RunningOk(s: Fleet) {
    forall h | h in s.running :: Tracked(Answered(s), h)
  }

  ghost predicate HandlesOk(s: Fleet) {
    forall l | l in Tokens(s) :: l.handle < s.nextHandle
  }

  ghost predicate Harmless(reserved: set<string>, ls: seq<Launch>) {
    forall l | l in ls :: !Collides(reserved, l)
  }

  /** The failures are among the first k records, each stopped once. */
  predicate FailuresFrom(failed: seq<Launch>, mine: seq<Launch>, k: nat) {
    k <= |mine| && multiset(failed) <= multiset(mine[..k])
  }

  ghost predicate RestartOk(reserved: set<string>, r: Restart) {
    && Harmless(reserved, Held(r))
    && (r.Halting? ==> FailuresFrom(r.failed, r.mine, r.k))
    && (r.Starting? ==> r.k <= |r.mine|)
  }

  ghost predicate RestartsOk(s: Fleet) {
    forall i | 0 <= i < |s.restarts| :: RestartOk(s.reserved, s.restarts[i])
  }

  /** While sweeping, the snapshot is the tracked list and every running process
      is still ahead of the sweep or among its failures. */
  ghost predicate SweepOk(s: Fleet) {
    match s.sweep
    case NotStarted => true
    case Sweeping(todo, k, busy, failed) =>
      todo == s.launches && k <= |todo| && forall h | h in s.running :: Tracked(todo[k..] + failed, h)
    case Swept(failed) => forall h | h in s.running :: Tracked(failed, h)
  }

  /** A start call: a configured base, and a suffixed path off the reserved ones. */
  predicate StartOk(reserved: set<string>, c: Start) {
    c.log.Some? ==> c.log.value in reserved && c.life >= 1 && (c.life >= 2 ==> LifeLog(c.log.value, c.life) !in reserved)
  }

  /** A record knows the latest life started from its base. */
  predicate Latest(c: Start, l: Launch) {
    c.log.Some? && c.log == l.log ==> c.life <= l.life
  }

  predicate BaseOk(reserved: set<string>, l: Launch) {
    l.log.Some? ==> l.log.value in reserved && l.life >= 1
  }

  ghost predicate StartsOk(s: Fleet) {
    && (forall c | c in s.starts :: StartOk(s.reserved, c))
    && (forall i, j | 0 <= i < j < |s.starts| && s.starts[i].log.Some? :: s.starts[i] != s.starts[j])
    && (forall l | l in Tokens(s) :: BaseOk(s.reserved, l))
    && (forall l, c | l in Tokens(s) && c in s.starts :: Latest(c, l))
  }

  /** Who runs, who tracks it and who holds the lock. */
  ghost predicate Inv(s: Fleet) {
    LockOk(s) && RunningOk(s) && RestartsOk(s) && SweepOk(s)
  }

  /** Which records and start calls there are. */
  ghost predicate LogInv(s: Fleet) {
    HandlesOk(s) && RestartsOk(s) && StartsOk(s) && Separate(Tokens(s))
  }

  // ---------- each step keeps the invariant ----------

  lemma LockKept(s: Fleet, a: Action)
    requires LockOk(s) && Enabled(s, a)
    ensures LockOk(Apply(s, a))
  {
    hide OfHost, OtherHosts, AnyCollides;
  }

  lemma RestartsKept(s: Fleet, a: Action)
    requires RestartsOk(s) && Enabled(s, a)
    ensures RestartsOk(Apply(s, a))
  {
    hide OtherHosts, Collides, RestartOk;
    if !SweepAction(a) {
      var n := NextRestart(s, a);
      assert RestartOk(s.reserved, s.restarts[a.i]);
      RestartStays(s, a);
      assert Apply(s, a).restarts == s.restarts[a.i := n] && Apply(s, a).reserved == s.reserved;
    }
  }

  lemma RestartStays(s: Fleet, a: Action)
    requires Enabled(s, a) && !SweepAction(a) && RestartOk(s.reserved, s.restarts[a.i])
    ensures RestartOk(s.reserved, NextRestart(s, a))
  {
    hide RestartOk, Enabled, NextRestart;
    if a.EnterRestart? || a.CallStop? || a.StopReturns? { RestartStaysHalting(s, a); } else { RestartStaysLater(s, a); }
  }

  lemma RestartStaysHalting(s: Fleet, a: Action)
    requires Enabled(s, a) && (a.EnterRestart? || a.CallStop? || a.StopReturns?) && RestartOk(s.reserved, s.restarts[a.i])
    ensures RestartOk(s.reserved, NextRestart(s, a))
  {
    hide RestartOk, OtherHosts, Collides, OfHost, Harmless, AnyCollides, Held, FailuresFrom;
    var r := s.restarts[a.i];
    OpenRestart(s.reserved, r);
    if a.EnterRestart? {
      FinishedOk(s.reserved);
      HarmlessRest(s.reserved, OfHost(s.launches, r.idx), 0);
      NoFailures(OfHost(s.launches, r.idx));
      if NextRestart(s, a).Halting? {
        HaltingOk(s.reserved, r.idx, OfHost(s.launches, r.idx), 0, false, []);
      }
    } else if a.StopReturns? {
      FailureFits(r.mine, r.k, r.failed);
      HaltingOk(s.reserved, r.idx, r.mine, r.k + 1, false, if a.ok then r.failed else r.failed + [r.mine[r.k]]);
    } else {
      HaltingOk(s.reserved, r.idx, r.mine, r.k, true, r.failed);
    }
  }

  lemma RestartStaysLater(s: Fleet, a: Action)
    requires Enabled(s, a) && !SweepAction(a) && !(a.EnterRestart? || a.CallStop? || a.StopReturns?) && RestartOk(s.reserved, s.restarts[a.i])
    ensures RestartOk(s.reserved, NextRestart(s, a))
  {
    hide RestartOk, Collides, Harmless, Held, FailuresFrom;
    var r := s.restarts[a.i];
    OpenRestart(s.reserved, r);
    FinishedOk(s.reserved);
    match a
    case LeaveHalting(_) => WaitingOk(s.reserved, r.mine);
    case EndWait(_, _) => WaitingOk(s.reserved, r.mine);
    case EnterStarting(_) =>
      assert r.mine[0..] == r.mine;
      StartingOk(s.reserved, r.mine, 0);
    case StartNext(_, ok) =>
      HarmlessRest(s.reserved, r.mine[r.k..], 1);
      assert r.mine[r.k..][1..] == r.mine[r.k + 1..];
      StartingOk(s.reserved, r.mine, r.k + 1);
    case LeaveStarting(_) =>
  }

  lemma OpenRestart(reserved: set<string>, r: Restart)
    requires RestartOk(reserved, r)
    ensures r.Halting? ==> Harmless(reserved, r.mine) && FailuresFrom(r.failed, r.mine, r.k)
    ensures r.Waiting? || r.Resuming? ==> Harmless(reserved, r.mine)
    ensures r.Starting? ==> r.k <= |r.mine| && Harmless(reserved, r.mine[r.k..])
  {
  }

  lemma FinishedOk(reserved: set<string>)
    ensures forall o :: RestartOk(reserved, Finished(o))
  {
  }

  lemma HaltingOk(reserved: set<string>, idx: nat, mine: seq<Launch>, k: nat, busy: bool, failed: seq<Launch>)
    requires Harmless(reserved, mine) && FailuresFrom(failed, mine, k)
    ensures RestartOk(reserved, Halting(idx, mine, k, busy, failed))
  {
  }

  lemma WaitingOk(reserved: set<string>, mine: seq<Launch>)
    requires Harmless(reserved, mine)
    ensures RestartOk(reserved, Waiting(mine)) && RestartOk(reserved, Resuming(mine))
  {
  }

  lemma StartingOk(reserved: set<string>, mine: seq<Launch>, k: nat)
    requires k <= |mine| && Harmless(reserved, mine[k..])
    ensures RestartOk(reserved, Starting(mine, k))
  {
  }

  lemma HarmlessRest(reserved: set<string>, ls: seq<Launch>, k: nat)
    requires k <= |ls|
    ensures !AnyCollides(reserved, ls) ==> Harmless(reserved, ls)
    ensures Harmless(reserved, ls) ==> Harmless(reserved, ls[k..])
    ensures Harmless(reserved, [])
  {
    hide Collides;
  }

  lemma NoFailures(mine: seq<Launch>)
    ensures FailuresFrom([], mine, 0)
  {
  }

  lemma FailureFits(mine: seq<Launch>, k: nat, failed: seq<Launch>)
    requires k < |mine| && FailuresFrom(failed, mine, k)
    ensures FailuresFrom(failed, mine, k + 1) && FailuresFrom(failed + [mine[k]], mine, k + 1)
  {
    assert mine[..k + 1] == mine[..k] + [mine[k]];
  }

  /** The record a successful start appends. */
  function Replayed(s: Fleet, a: Action): Launch
    requires Enabled(s, a) && a.StartNext?
  {
    var l := s.restarts[a.i].mine[s.restarts[a.i].k];
    Launch(l.idx, l.log, l.life + 1, s.nextHandle)
  }

  /** The step adds no record to what is tracked or held by the call that takes it. */
  predicate AddsNoRecord(s: Fleet, a: Action)
    requires Enabled(s, a) && !SweepAction(a)
  {
    multiset(Apply(s, a).launches) + multiset(Held(NextRestart(s, a))) <= multiset(s.launches) + multiset(Held(s.restarts[a.i]))
  }

  lemma EnterRestartMoves(s: Fleet, a: Action)
    requires Enabled(s, a) && a.EnterRestart?
    ensures AddsNoRecord(s, a)
  {
    hide AnyCollides, OfHost, OtherHosts;
    HostSplit(s.launches, s.restarts[a.i].idx);
  }

  lemma LeaveHaltingMoves(s: Fleet, a: Action)
    requires Enabled(s, a) && a.LeaveHalting? && RestartOk(s.reserved, s.restarts[a.i])
    ensures AddsNoRecord(s, a)
  {
    hide RestartOk, Harmless, FailuresFrom;
    var r := s.restarts[a.i];
    OpenRestart(s.reserved, r);
    PutBack(multiset(s.launches), r.failed, r.mine, r.k);
    assert multiset(s.launches + r.failed) == multiset(s.launches) + multiset(r.failed);
  }

  lemma OthersMoveNothing(s: Fleet, a: Action)
    requires Enabled(s, a) && !SweepAction(a) && !a.StartNext? && !a.EnterRestart? && !a.LeaveHalting?
    ensures AddsNoRecord(s, a)
  {
    var r := s.restarts[a.i];
    assert a.EnterStarting? ==> r.mine[0..] == r.mine;
  }

  lemma PutBack(m: multiset<Launch>, failed: seq<Launch>, mine: seq<Launch>, k: nat)
    requires k >= |mine| && FailuresFrom(failed, mine, k)
    ensures m + multiset(failed) <= m + multiset(mine)
    ensures failed == [] ==> m + multiset(failed) == m
  {
    assert mine[..k] == mine;
  }

  lemma Framed<T>(a: multiset<T>, b: multiset<T>, c: multiset<T>, d: multiset<T>, all: multiset<T>, all': multiset<T>)
    requires a + b <= c + d && all' + d == all + b
    ensures a + all' <= c + all
  {
    forall x: T | x in a + all'
      ensures (a + all')[x] <= (c + all)[x]
    {
      assert (a + b)[x] <= (c + d)[x];
      assert (all' + d)[x] == (all + b)[x];
    }
  }

  /** No step but a successful start adds a record anywhere. */
  lemma TokensShrink(s: Fleet, a: Action)
    requires RestartsOk(s) && Enabled(s, a) && !(a.StartNext? && a.ok)
    ensures Tokens(Apply(s, a)) <= Tokens(s)
  {
    hide HeldByAll, Held, RestartOk, OfHost, OtherHosts, AnyCollides;
    var t := Apply(s, a);
    if SweepAction(a) {
    } else {
      var r, n := s.restarts[a.i], NextRestart(s, a);
      HeldUpdate(s.restarts, a.i, n);
      assert t.restarts == s.restarts[a.i := n];
      if a.StartNext? {
        assert Held(n) == [] by { NothingHeld(n); }
        assert t.launches == s.launches;
      } else {
        assert RestartOk(s.reserved, r);
        if a.EnterRestart? { EnterRestartMoves(s, a); } else if a.LeaveHalting? { LeaveHaltingMoves(s, a); } else { OthersMoveNothing(s, a); }
      }
      Framed(multiset(t.launches), multiset(Held(n)), multiset(s.launches), multiset(Held(r)), HeldByAll(s.restarts), HeldByAll(t.restarts));
    }
  }

  lemma NothingHeld(r: Restart)
    requires r.Finished? || r.Begin?
    ensures Held(r) == []
  {
  }

  /** A successful start replaces the record it replays. */
  lemma TokensReplaced(s: Fleet, a: Action)
    requires RestartsOk(s) && Enabled(s, a) && a.StartNext? && a.ok
    ensures var l := s.restarts[a.i].mine[s.restarts[a.i].k];
            l in Tokens(s) && Tokens(Apply(s, a)) == Tokens(s) - multiset{l} + multiset{Replayed(s, a)}
            && !Collides(s.reserved, l)
  {
    hide HeldByAll, Collides, RestartOk;
    var t := Apply(s, a);
    var r, n := s.restarts[a.i], NextRestart(s, a);
    OpenRestart(s.reserved, r);
    HeldUpdate(s.restarts, a.i, n);
    HeldIncluded(s.restarts, a.i);
    assert t.restarts == s.restarts[a.i := n];
    assert RestartOk(s.reserved, r);
    var l := r.mine[r.k];
    assert r.mine[r.k..] == [l] + r.mine[r.k + 1..];
    assert multiset(Held(r)) == multiset{l} + multiset(Held(n));
    assert l in Held(r);
    Exchange(multiset(s.launches), multiset(Held(n)), l, Replayed(s, a), HeldByAll(s.restarts), HeldByAll(t.restarts));
  }

  lemma Exchange<T>(c: multiset<T>, b: multiset<T>, l: T, l': T, all: multiset<T>, all': multiset<T>)
    requires all' + (multiset{l} + b) == all + b && l in all
    ensures (c + multiset{l'}) + all' == (c + all) - multiset{l} + multiset{l'}
  {
    assert all' + multiset{l} == all by {
      forall x: T
        ensures (all' + multiset{l})[x] == all[x]
      {
        assert (all' + (multiset{l} + b))[x] == (all + b)[x];
      }
    }
  }

  // ---------- every running process is answered for ----------

  /** What the step leaves unanswered: only a record just confirmed stopped. */
  predicate JustStopped(s: Fleet, a: Action, l: Launch) {
    Enabled(s, a) && a.StopReturns? && a.ok && l == s.restarts[a.i].mine[s.restarts[a.i].k]
  }

  ghost predicate StillAnswered(s: Fleet, a: Action)
    requires Enabled(s, a)
  {
    forall l | l in Answered(s) && !JustStopped(s, a, l) :: l in Answered(Apply(s, a))
  }

  lemma EnterRestartAnswers(s: Fleet, a: Action)
    requires LockOk(s) && Enabled(s, a) && a.EnterRestart?
    ensures StillAnswered(s, a)
  {
    hide AnyCollides, OfHost, OtherHosts;
    HostSplit(s.launches, s.restarts[a.i].idx);
    var mine := OfHost(s.launches, s.restarts[a.i].idx);
    assert mine[0..] == mine;
    assert NextRestart(s, a).Halting? ==> Unstopped(NextRestart(s, a)) == mine;
  }

  lemma HaltingAnswers(s: Fleet, a: Action)
    requires LockOk(s) && RestartsOk(s) && Enabled(s, a) && (a.CallStop? || a.StopReturns? || a.LeaveHalting?)
    ensures StillAnswered(s, a)
  {
    hide RestartOk;
    var r := s.restarts[a.i];
    assert RestartOk(s.reserved, r);
    OpenRestart(s.reserved, r);
    assert s.lock == Some(a.i);
    if a.StopReturns? {
      assert r.mine[r.k..] == [r.mine[r.k]] + r.mine[r.k + 1..];
    }
  }

  lemma LaterAnswers(s: Fleet, a: Action)
    requires LockOk(s) && Enabled(s, a) && !SweepAction(a) && !(a.EnterRestart? || a.CallStop? || a.StopReturns? || a.LeaveHalting?)
    ensures StillAnswered(s, a)
  {
    if a.EndWait? && s.lock.Some? {
      assert s.lock.value != a.i;
    } else if a.StartNext? || a.LeaveStarting? {
      assert s.lock == Some(a.i);
    }
  }

  lemma RunningKept(s: Fleet, a: Action)
    requires LockOk(s) && RestartsOk(s) && RunningOk(s) && Enabled(s, a)
    ensures RunningOk(Apply(s, a))
  {
    hide LockOk, RestartsOk, Enabled, Answered, Tracked;
    var t := Apply(s, a);
    if SweepAction(a) {
      assert Answered(t) == Answered(s) by { SweepAnswers(s, a); }
      assert t.running <= s.running by { SweepAnswers(s, a); }
    } else {
      if a.EnterRestart? { EnterRestartAnswers(s, a); }
      else if a.CallStop? || a.StopReturns? || a.LeaveHalting? { HaltingAnswers(s, a); }
      else { LaterAnswers(s, a); }
      forall h | h in t.running
        ensures Tracked(Answered(t), h)
      {
        RunningStays(s, a, h);
      }
    }
  }

  lemma SweepAnswers(s: Fleet, a: Action)
    requires Enabled(s, a) && SweepAction(a)
    ensures Answered(Apply(s, a)) == Answered(s) && Apply(s, a).running <= s.running
  {
  }

  lemma RunningStays(s: Fleet, a: Action, h: nat)
    requires Enabled(s, a) && !SweepAction(a) && StillAnswered(s, a) && RunningOk(s) && h in Apply(s, a).running
    ensures Tracked(Answered(Apply(s, a)), h)
  {
    hide Answered, AnyCollides, OfHost, OtherHosts, NextRestart;
    var t := Apply(s, a);
    if h in s.running {
      assert Tracked(Answered(s), h);
      var l :| l in Answered(s) && l.handle == h;
      assert !JustStopped(s, a, l);
    } else {
      assert h == s.nextHandle && a.StartNext?;
      LaunchesAnswered(t);
      assert t.launches[|t.launches| - 1].handle == h;
    }
  }

  lemma LaunchesAnswered(s: Fleet)
    ensures forall l :: l in s.launches ==> l in Answered(s)
  {
  }

  // ---------- the sweep ----------

  lemma SweepKept(s: Fleet, a: Action)
    requires LockOk(s) && RunningOk(s) && SweepOk(s) && Enabled(s, a)
    ensures SweepOk(Apply(s, a))
  {
    hide Tracked;
    var t := Apply(s, a);
    match a
    case EnterSweep =>
      assert Answered(s) == s.launches;
      assert s.launches[0..] + [] == s.launches;
    case SweepReturns(ok) => SweepReturnsKept(s, a);
    case SweepCall =>
    case LeaveSweep => assert s.sweep.todo[s.sweep.k..] + s.sweep.failed == s.sweep.failed;
    case _ => StoppedMovesNothing(s, a);
  }

  /** After _stopping is set, no restart step changes what is tracked or running. */
  lemma StoppedMovesNothing(s: Fleet, a: Action)
    requires LockOk(s) && Enabled(s, a) && !SweepAction(a)
    ensures Apply(s, a).sweep == s.sweep
    ensures s.stopping ==> Apply(s, a).launches == s.launches && Apply(s, a).running == s.running && Apply(s, a).starts == s.starts
  {
    hide AnyCollides, OfHost, OtherHosts;
    assert a.CallStop? || a.StopReturns? || a.LeaveHalting? || a.StartNext? || a.LeaveStarting? ==> Locked(s.restarts[a.i]);
  }

  lemma SweepReturnsKept(s: Fleet, a: Action)
    requires SweepOk(s) && Enabled(s, a) && a.SweepReturns?
    ensures SweepOk(Apply(s, a))
  {
    hide Tracked;
    var t, w := Apply(s, a), s.sweep;
    forall h | h in t.running
      ensures Tracked(t.sweep.todo[t.sweep.k..] + t.sweep.failed, h)
    {
      SweepPasses(w.todo, w.k, w.failed, a.ok, h);
    }
  }

  lemma SweepPasses(todo: seq<Launch>, k: nat, failed: seq<Launch>, ok: bool, h: nat)
    requires k < |todo| && Tracked(todo[k..] + failed, h) && (ok ==> h != todo[k].handle)
    ensures Tracked(todo[k + 1..] + if ok then failed else failed + [todo[k]], h)
  {
    var l :| l in todo[k..] + failed && l.handle == h;
    assert todo[k..] == [todo[k]] + todo[k + 1..];
    assert l in todo[k + 1..] + if ok then failed else failed + [todo[k]];
  }

  // ---------- handles, bases and start calls ----------

  lemma SeparateLess(m: multiset<Launch>, n: multiset<Launch>)
    requires Separate(m) && n <= m
    ensures Separate(n)
  {
    hide Apart;
    forall l | l in n
      ensures n[l] == 1 && l in m
    {
      assert m[l] == 1;
    }
  }

  lemma SeparateReplaced(m: multiset<Launch>, l: Launch, l': Launch)
    requires Separate(m) && l in m && l'.log == l.log && forall x | x in m :: x.handle < l'.handle
    ensures Separate(m - multiset{l} + multiset{l'})
  {
    var n := m - multiset{l} + multiset{l'};
    assert l' !in m;
    forall x | x in n
      ensures n[x] == 1 && (x == l' || (x in m && x != l))
    {
      assert x in m ==> m[x] == 1;
      assert m[l] == 1;
    }
    forall x, y | x in n && y in n && x != y
      ensures Apart(x, y)
    {
      assert x in m && y in m ==> Apart(x, y);
      assert x in m && x != l ==> Apart(x, l) && Apart(l, x);
      assert y in m && y != l ==> Apart(y, l) && Apart(l, y);
    }
  }

  lemma RecordsKept(s: Fleet, a: Action)
    requires RestartsOk(s) && HandlesOk(s) && Separate(Tokens(s)) && Enabled(s, a)
    ensures HandlesOk(Apply(s, a)) && Separate(Tokens(Apply(s, a)))
  {
    hide Tokens, Separate, RestartsOk, OfHost, OtherHosts, AnyCollides, Collides;
    var t := Apply(s, a);
    if a.StartNext? && a.ok {
      TokensReplaced(s, a);
      SeparateReplaced(Tokens(s), s.restarts[a.i].mine[s.restarts[a.i].k], Replayed(s, a));
    } else {
      TokensShrink(s, a);
      SeparateLess(Tokens(s), Tokens(t));
      assert t.nextHandle == s.nextHandle;
    }
  }

  lemma StartsKept(s: Fleet, a: Action)
    requires RestartsOk(s) && StartsOk(s) && Separate(Tokens(s)) && Enabled(s, a)
    ensures StartsOk(Apply(s, a))
  {
    hide Tokens, Separate, RestartsOk, OfHost, OtherHosts, AnyCollides, Collides, StartOk, Latest, BaseOk;
    var t := Apply(s, a);
    if a.StartNext? {
      StartNextKept(s, a);
    } else {
      TokensShrink(s, a);
      assert t.starts == s.starts && t.reserved == s.reserved;
    }
  }

  /** A failed start gives up the record it was to replay, with the rest of the call's. */
  lemma TokensDropped(s: Fleet, a: Action)
    requires RestartsOk(s) && Enabled(s, a) && a.StartNext? && !a.ok
    ensures Tokens(Apply(s, a)) <= Tokens(s) - multiset{s.restarts[a.i].mine[s.restarts[a.i].k]}
  {
    hide HeldByAll, Collides, RestartOk;
    var t := Apply(s, a);
    var r, n := s.restarts[a.i], NextRestart(s, a);
    HeldUpdate(s.restarts, a.i, n);
    assert t.restarts == s.restarts[a.i := n];
    assert RestartOk(s.reserved, r);
    OpenRestart(s.reserved, r);
    assert r.mine[r.k..] == [r.mine[r.k]] + r.mine[r.k + 1..];
    Dropped(multiset(s.launches), r.mine[r.k], multiset(r.mine[r.k + 1..]), HeldByAll(s.restarts), HeldByAll(t.restarts));
  }

  lemma Dropped<T>(c: multiset<T>, l: T, b: multiset<T>, all: multiset<T>, all': multiset<T>)
    requires all' + (multiset{l} + b) == all + multiset{}
    ensures c + all' <= (c + all) - multiset{l}
  {
    forall x: T | x in c + all'
      ensures (c + all')[x] <= ((c + all) - multiset{l})[x]
    {
      assert (all' + (multiset{l} + b))[x] == all[x];
    }
  }

  /** The records left after a start: the ones not replayed, and the replay. */
  lemma TokensAfterStart(s: Fleet, a: Action, x: Launch)
    requires RestartsOk(s) && Separate(Tokens(s)) && Enabled(s, a) && a.StartNext? && x in Tokens(Apply(s, a))
    ensures var l := s.restarts[a.i].mine[s.restarts[a.i].k];
            l in Tokens(s) && ((x in Tokens(s) && x != l && Apart(x, l)) || (a.ok && x == Replayed(s, a)))
  {
    hide Tokens, RestartsOk, Apart, HeldByAll;
    var l := s.restarts[a.i].mine[s.restarts[a.i].k];
    TokensReplaced(s, StartNext(a.i, true));
    assert Tokens(s)[l] == 1;
    if a.ok { TokensReplaced(s, a); } else { TokensDropped(s, a); }
    assert x in Tokens(s) ==> Tokens(s)[x] == 1;
  }

  lemma StartNextKept(s: Fleet, a: Action)
    requires RestartsOk(s) && StartsOk(s) && Separate(Tokens(s)) && Enabled(s, a) && a.StartNext?
    ensures StartsOk(Apply(s, a))
  {
    hide Tokens, RestartsOk, Separate, Collides, StartOk, Latest, BaseOk, Apart, Replayed;
    var t, l := Apply(s, a), s.restarts[a.i].mine[s.restarts[a.i].k];
    var c := Start(l.log, l.life + 1);
    assert t.starts == s.starts + [c];
    TokensReplaced(s, StartNext(a.i, true));
    assert BaseOk(s.reserved, l);
    NewStart(s.reserved, l, c);
    forall b | b in s.starts
      ensures c.log.Some? ==> b != c
    {
      assert Latest(b, l);
      NotLatest(b, l, c);
    }
    forall i, j | 0 <= i < j < |t.starts| && t.starts[i].log.Some?
      ensures t.starts[i] != t.starts[j]
    {
      assert t.starts[i] in s.starts;
    }
    forall x, b | x in Tokens(t) && b in t.starts
      ensures Latest(b, x)
    {
      StartNextLatest(s, a, b, x);
    }
    forall x | x in Tokens(t)
      ensures BaseOk(s.reserved, x)
    {
      StartNextLatest(s, a, c, x);
    }
  }

  lemma StartNextLatest(s: Fleet, a: Action, b: Start, x: Launch)
    requires RestartsOk(s) && StartsOk(s) && Separate(Tokens(s)) && Enabled(s, a) && a.StartNext?
    requires b in Apply(s, a).starts && x in Tokens(Apply(s, a))
    ensures Latest(b, x) && BaseOk(s.reserved, x)
  {
    hide Tokens, RestartsOk, Separate, Collides, StartOk, Latest, BaseOk, Apart, Replayed;
    var l := s.restarts[a.i].mine[s.restarts[a.i].k];
    TokensAfterStart(s, a, x);
    assert b in s.starts || b == Start(l.log, l.life + 1);
    assert b in s.starts ==> Latest(b, l);
    assert x in Tokens(s) && b in s.starts ==> Latest(b, x);
    assert x in Tokens(s) ==> BaseOk(s.reserved, x);
    AfterStart(s, a, b, x);
  }

  lemma NewStart(reserved: set<string>, l: Launch, c: Start)
    requires BaseOk(reserved, l) && !Collides(reserved, l) && c == Start(l.log, l.life + 1)
    ensures StartOk(reserved, c)
  {
  }

  lemma NotLatest(b: Start, l: Launch, c: Start)
    requires Latest(b, l) && c == Start(l.log, l.life + 1)
    ensures c.log.Some? ==> b != c
  {
  }

  lemma AfterStart(s: Fleet, a: Action, b: Start, x: Launch)
    requires Enabled(s, a) && a.StartNext?
    requires var l := s.restarts[a.i].mine[s.restarts[a.i].k];
             && BaseOk(s.reserved, l)
             && ((x in Tokens(s) && Apart(x, l) && BaseOk(s.reserved, x)) || x == Replayed(s, a))
             && ((b in s.starts && Latest(b, l) && (x in Tokens(s) ==> Latest(b, x))) || b == Start(l.log, l.life + 1))
    ensures Latest(b, x) && BaseOk(s.reserved, x)
  {
    hide Tokens;
  }

  // ---------- runs ----------

  lemma StepKeeps(s: Fleet, a: Action)
    requires Inv(s) && Enabled(s, a)
    ensures Inv(Apply(s, a))
  {
    hide LockOk, RunningOk, RestartsOk, SweepOk, Enabled, Apply;
    LockKept(s, a);
    RestartsKept(s, a);
    RunningKept(s, a);
    SweepKept(s, a);
  }

  lemma StepKeepsLogs(s: Fleet, a: Action)
    requires LogInv(s) && Enabled(s, a)
    ensures LogInv(Apply(s, a))
  {
    hide HandlesOk, RestartsOk, StartsOk, Separate, Tokens, Enabled, Apply;
    RestartsKept(s, a);
    RecordsKept(s, a);
    StartsKept(s, a);
  }

  /** The actions can be taken one after the other from `s`. */
  predicate Runs(s: Fleet, run: seq<Action>)
    decreases |run|
  {
    run == [] || (Enabled(s, run[0]) && Runs(Apply(s, run[0]), run[1..]))
  }

  function After(s: Fleet, run: seq<Action>): Fleet
    requires Runs(s, run)
    decreases |run|
  {
    if run == [] then s else After(Apply(s, run[0]), run[1..])
  }

  lemma {:induction false} RunKeeps(s: Fleet, run: seq<Action>)
    requires Inv(s) && Runs(s, run)
    ensures Inv(After(s, run))
    decreases |run|
  {
    hide Inv, Enabled, Apply;
    if run != [] {
      StepKeeps(s, run[0]);
      RunKeeps(Apply(s, run[0]), run[1..]);
    }
  }

  lemma {:induction false} RunKeepsLogs(s: Fleet, run: seq<Action>)
    requires LogInv(s) && Runs(s, run)
    ensures LogInv(After(s, run))
    decreases |run|
  {
    hide LogInv, Enabled, Apply;
    if run != [] {
      StepKeepsLogs(s, run[0]);
      RunKeepsLogs(Apply(s, run[0]), run[1..]);
    }
  }

  // ---------- start_all ----------

  /** One host_apps entry expanded for one host. */
  datatype Config = Config(idx: nat, log: Option<string>)

  function FirstLives(cs: seq<Config>): seq<Launch> {
    seq(|cs|, i requires 0 <= i < |cs| => Launch(cs[i].idx, cs[i].log, 1, i))
  }

  /** The reserved paths: every life-1 log. */
  function Reserved(cs: seq<Config>): set<string> {
    set c | c in cs && c.log.Some? :: c.log.value
  }

  predicate DistinctLogs(cs: seq<Config>) {
    forall i, j | 0 <= i < j < |cs| && cs[i].log.Some? :: cs[i].log != cs[j].log
  }

  /** start_all does not catch a failing start: the earlier ones stay tracked. */
  method StartAll(cs: seq<Config>, outcomes: seq<bool>) returns (launches: seq<Launch>, calls: nat, raised: bool)
    requires |outcomes| == |cs|
    ensures raised <==> false in outcomes
    ensures raised ==> 1 <= calls <= |cs| && !outcomes[calls - 1] && false !in outcomes[..calls - 1] && launches == FirstLives(cs[..calls - 1])
    ensures !raised ==> calls == |cs| && launches == FirstLives(cs)
  {
    launches, calls, raised := [], 0, false;
    while calls < |cs|
      invariant calls <= |cs| && launches == FirstLives(cs[..calls]) && !raised && false !in outcomes[..calls]
    {
      if !outcomes[calls] {
        calls, raised := calls + 1, true;
        return;
      }
      launches := launches + [Launch(cs[calls].idx, cs[calls].log, 1, calls)];
      calls := calls + 1;
      assert cs[..calls] == cs[..calls - 1] + [cs[calls - 1]];
    }
    assert cs[..calls] == cs && outcomes[..calls] == outcomes;
  }

  /** The fleet after start_all started the first `started` entries of `calls`
      attempted, with a restart call yet to come for each of `hosts`. */
  function Initial(cs: seq<Config>, started: nat, calls: nat, hosts: seq<nat>): Fleet
    requires started <= calls <= |cs|
  {
    Fleet(FirstLives(cs[..started]), false, None, (set l | l in FirstLives(cs[..started]) :: l.handle), started,
          seq(calls, i requires 0 <= i < calls => Start(cs[i].log, 1)), Reserved(cs),
          seq(|hosts|, i requires 0 <= i < |hosts| => Begin(hosts[i])), NotStarted)
  }

  lemma {:induction false} NobodyHolds(rs: seq<Restart>)
    requires forall i | 0 <= i < |rs| :: rs[i].Begin?
    ensures HeldByAll(rs) == multiset{}
  {
    if rs != [] { NobodyHolds(rs[..|rs| - 1]); }
  }

  lemma {:induction false} OnceEach(ls: seq<Launch>, l: Launch)
    requires l in ls && forall i, j | 0 <= i < j < |ls| :: ls[i] != ls[j]
    ensures multiset(ls)[l] == 1
  {
    var n := |ls| - 1;
    assert ls == ls[..n] + [ls[n]];
    if l in ls[..n] { OnceEach(ls[..n], l); }
  }

  lemma InitialInv(cs: seq<Config>, started: nat, calls: nat, hosts: seq<nat>)
    requires started <= calls <= |cs|
    ensures Inv(Initial(cs, started, calls, hosts))
  {
    var s := Initial(cs, started, calls, hosts);
    forall h | h in s.running
      ensures Tracked(Answered(s), h)
    {
      var l :| l in s.launches && l.handle == h;
      assert l in Answered(s);
    }
    assert forall i | 0 <= i < |s.restarts| :: RestartOk(s.reserved, s.restarts[i]);
  }

  lemma InitialLogInv(cs: seq<Config>, started: nat, calls: nat, hosts: seq<nat>)
    requires started <= calls <= |cs| && DistinctLogs(cs)
    ensures LogInv(Initial(cs, started, calls, hosts))
  {
    var s := Initial(cs, started, calls, hosts);
    NobodyHolds(s.restarts);
    assert Tokens(s) == multiset(s.launches);
    InitialInv(cs, started, calls, hosts);
    InitialSeparate(cs, started);
    InitialStarts(cs, started, calls, hosts);
  }

  lemma InitialSeparate(cs: seq<Config>, started: nat)
    requires started <= |cs| && DistinctLogs(cs)
    ensures Separate(multiset(FirstLives(cs[..started])))
  {
    var ls := FirstLives(cs[..started]);
    forall l | l in multiset(ls)
      ensures multiset(ls)[l] == 1
    {
      OnceEach(ls, l);
    }
    forall a, b | a in ls && b in ls && a != b
      ensures Apart(a, b)
    {
      assert a == ls[a.handle] && b == ls[b.handle];
      assert a.log == cs[a.handle].log && b.log == cs[b.handle].log;
    }
  }

  lemma InitialStarts(cs: seq<Config>, started: nat, calls: nat, hosts: seq<nat>)
    requires started <= calls <= |cs| && DistinctLogs(cs)
    requires Tokens(Initial(cs, started, calls, hosts)) == multiset(FirstLives(cs[..started]))
    ensures StartsOk(Initial(cs, started, calls, hosts))
  {
    hide Tokens;
    var s := Initial(cs, started, calls, hosts);
    assert forall c | c in s.starts :: c.life == 1 && exists i :: 0 <= i < calls && c == s.starts[i] && cs[i].log == c.log;
    forall c | c in s.starts
      ensures StartOk(s.reserved, c)
    {
      var i :| 0 <= i < calls && c == s.starts[i] && cs[i].log == c.log;
      assert cs[i] in cs;
    }
    forall l | l in Tokens(s)
      ensures BaseOk(s.reserved, l) && l.life == 1
    {
      assert l in s.launches;
      assert l == s.launches[l.handle] && cs[l.handle] in cs;
    }
  }

  // ---------- main results ----------

  /** Whenever the lock is free, every process started and not confirmed stopped
      is tracked. */
  lemma NoOrphan(cs: seq<Config>, started: nat, calls: nat, hosts: seq<nat>, run: seq<Action>, h: nat)
    requires started <= calls <= |cs| && Runs(Initial(cs, started, calls, hosts), run)
    requires var s := After(Initial(cs, started, calls, hosts), run); s.lock.None? && h in s.running
    ensures Tracked(After(Initial(cs, started, calls, hosts), run).launches, h)
  {
    hide Initial, Runs, After, LockOk, RestartsOk, SweepOk, Tracked;
    InitialInv(cs, started, calls, hosts);
    RunKeeps(Initial(cs, started, calls, hosts), run);
    var s := After(Initial(cs, started, calls, hosts), run);
    assert Answered(s) == s.launches;
  }

  /** Nothing is started once stop_all has taken its snapshot, and when it returns
      every process still running is one whose stop it reported as failed. */
  lemma ShutdownWins(cs: seq<Config>, started: nat, calls: nat, hosts: seq<nat>, run: seq<Action>, more: seq<Action>)
    requires started <= calls <= |cs| && Runs(Initial(cs, started, calls, hosts), run)
    requires Runs(After(Initial(cs, started, calls, hosts), run), more)
    requires !After(Initial(cs, started, calls, hosts), run).sweep.NotStarted?
    ensures var s := After(Initial(cs, started, calls, hosts), run);
            var t := After(s, more);
            && t.starts == s.starts && t.running <= s.running
            && (t.sweep.Swept? ==> forall h | h in t.running :: Tracked(t.sweep.failed, h))
  {
    hide Initial, Runs, After, RunningOk, RestartsOk, Tracked;
    var s := After(Initial(cs, started, calls, hosts), run);
    InitialInv(cs, started, calls, hosts);
    RunKeeps(Initial(cs, started, calls, hosts), run);
    RunKeeps(s, more);
    StoppedStays(s, more);
  }

  lemma {:induction false} StoppedStays(s: Fleet, run: seq<Action>)
    requires Inv(s) && Runs(s, run) && s.stopping
    ensures After(s, run).starts == s.starts && After(s, run).running <= s.running && After(s, run).stopping
    decreases |run|
  {
    hide RunningOk, RestartsOk, SweepOk, Enabled, Apply;
    if run != [] {
      StoppedStep(s, run[0]);
      StepKeeps(s, run[0]);
      StoppedStays(Apply(s, run[0]), run[1..]);
    }
  }

  lemma StoppedStep(s: Fleet, a: Action)
    requires LockOk(s) && Enabled(s, a) && s.stopping
    ensures Apply(s, a).starts == s.starts && Apply(s, a).running <= s.running && Apply(s, a).stopping
  {
    hide NextRestart;
    if SweepAction(a) { SweepAnswers(s, a); } else { StoppedMovesNothing(s, a); }
  }

  /** A stop is under way: in restart call i, or in stop_all for None. */
  predicate Stopping(s: Fleet, who: Option<nat>) {
    match who
    case Some(i) => i < |s.restarts| && s.restarts[i].Halting? && s.restarts[i].busy
    case None => s.sweep.Sweeping? && s.sweep.busy
  }

  /** At most one thread is stopping processes at any time. */
  lemma OneStopAtATime(cs: seq<Config>, started: nat, calls: nat, hosts: seq<nat>, run: seq<Action>, p: Option<nat>, q: Option<nat>)
    requires started <= calls <= |cs| && Runs(Initial(cs, started, calls, hosts), run)
    requires Stopping(After(Initial(cs, started, calls, hosts), run), p) && Stopping(After(Initial(cs, started, calls, hosts), run), q)
    ensures p == q
  {
    hide Initial, Runs, After, RunningOk, RestartsOk, SweepOk;
    var s := After(Initial(cs, started, calls, hosts), run);
    InitialInv(cs, started, calls, hosts);
    RunKeeps(Initial(cs, started, calls, hosts), run);
    assert p.Some? ==> Locked(s.restarts[p.value]);
    assert q.Some? ==> Locked(s.restarts[q.value]);
  }

  /** No two start calls of a run are given the same log path. */
  lemma LogsNeverShared(cs: seq<Config>, started: nat, calls: nat, hosts: seq<nat>, run: seq<Action>, i: nat, j: nat)
    requires started <= calls <= |cs| && DistinctLogs(cs) && Runs(Initial(cs, started, calls, hosts), run)
    requires var c := After(Initial(cs, started, calls, hosts), run).starts; i < j < |c| && c[i].log.Some? && c[j].log.Some?
    ensures var c := After(Initial(cs, started, calls, hosts), run).starts;
            LifeLog(c[i].log.value, c[i].life) != LifeLog(c[j].log.value, c[j].life)
  {
    hide Initial, Runs, After, HandlesOk, RestartsOk, Separate, LifeLog;
    var s := After(Initial(cs, started, calls, hosts), run);
    InitialLogInv(cs, started, calls, hosts);
    RunKeepsLogs(Initial(cs, started, calls, hosts), run);
    assert s.starts[i] in s.starts && s.starts[j] in s.starts && s.starts[i] != s.starts[j];
    PathsDiffer(s.reserved, s.starts[i], s.starts[j]);
  }

  lemma PathsDiffer(reserved: set<string>, b: Start, c: Start)
    requires StartOk(reserved, b) && StartOk(reserved, c) && b != c && b.log.Some? && c.log.Some?
    ensures LifeLog(b.log.value, b.life) != LifeLog(c.log.value, c.life)
  {
    if b.life >= 2 && c.life >= 2 && LifeLog(b.log.value, b.life) == LifeLog(c.log.value, c.life) {
      LifeLogDecodes(b.log.value, b.life, c.log.value, c.life);
    }
  }

  lemma {:induction false} ReservedStays(s: Fleet, run: seq<Action>)
    requires Runs(s, run)
    ensures After(s, run).reserved == s.reserved
    decreases |run|
  {
    hide Enabled, OfHost, OtherHosts, AnyCollides;
    if run != [] { ReservedStays(Apply(s, run[0]), run[1..]); }
  }

  /** The log that the next life of a tracked process of host `idx` would write is
      one that a configured entry writes in its first life. */
  ghost predicate WouldOverwrite(cs: seq<Config>, s: Fleet, idx: nat) {
    exists l, c :: l in s.launches && l.idx == idx && c in cs && c.log.Some? && l.log.Some? && LifeLog(l.log.value, l.life + 1) == c.log.value
  }

  /** In every reachable state a restart call is refused with an error exactly when the
      fleet is not stopping and it would overwrite a configured log. Then, as when
      shutdown was first, nothing changes but its own return, and every running
      process is still tracked. */
  lemma RefusedRestart(cs: seq<Config>, started: nat, calls: nat, hosts: seq<nat>, run: seq<Action>, i: nat)
    requires started <= calls <= |cs| && Runs(Initial(cs, started, calls, hosts), run)
    requires Enabled(After(Initial(cs, started, calls, hosts), run), EnterRestart(i))
    ensures var s := After(Initial(cs, started, calls, hosts), run);
            var t := Apply(s, EnterRestart(i));
            && (t.restarts[i] == Finished(RaisedError) <==> !s.stopping && WouldOverwrite(cs, s, s.restarts[i].idx))
            && (t.restarts[i].Finished? ==> t == s.(restarts := s.restarts[i := t.restarts[i]]) && forall h | h in t.running :: Tracked(t.launches, h))
            && (!t.restarts[i].Finished? ==> t.launches == OtherHosts(s.launches, s.restarts[i].idx) && t.restarts[i].mine == OfHost(s.launches, s.restarts[i].idx))
  {
    hide Initial, Runs, After, OfHost, OtherHosts, Tracked, LifeLog;
    var s := After(Initial(cs, started, calls, hosts), run);
    ReservedStays(Initial(cs, started, calls, hosts), run);
    ReservedAtFirst(cs, started, calls, hosts);
    HostSplit(s.launches, s.restarts[i].idx);
    OverwritesIff(cs, s, s.restarts[i].idx);
    forall h | h in s.running
      ensures Tracked(s.launches, h)
    {
      NoOrphan(cs, started, calls, hosts, run, h);
    }
  }

  lemma ReservedAtFirst(cs: seq<Config>, started: nat, calls: nat, hosts: seq<nat>)
    requires started <= calls <= |cs|
    ensures Initial(cs, started, calls, hosts).reserved == Reserved(cs)
  {
  }

  lemma OverwritesIff(cs: seq<Config>, s: Fleet, idx: nat)
    requires s.reserved == Reserved(cs)
    ensures AnyCollides(s.reserved, OfHost(s.launches, idx)) <==> WouldOverwrite(cs, s, idx)
  {
    hide LifeLog, OfHost;
    HostSplit(s.launches, idx);
    if AnyCollides(s.reserved, OfHost(s.launches, idx)) {
      var l :| l in OfHost(s.launches, idx) && Collides(s.reserved, l);
      var c :| c in cs && c.log.Some? && c.log.value == LifeLog(l.log.value, l.life + 1);
    }
    if WouldOverwrite(cs, s, idx) {
      var l, c :| l in s.launches && l.idx == idx && c in cs && c.log.Some? && l.log.Some? && LifeLog(l.log.value, l.life + 1) == c.log.value;
      assert Collides(s.reserved, l);
    }
  }
}
