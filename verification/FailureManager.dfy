/** Cycle-mode failures as a step system: one worker, one up-timer per cycle, a
    stop flag, and the locked regions they share. */
module FailureManager {
  import opened Wrappers
  import opened Ordering
  import FlapState

  // ---------- configuration ----------

  datatype Strategy = Cyclic | Random | Manual

  /** `valid`: interval and duration are both positive. */
  datatype Cycle = Cycle(valid: bool, count: nat, exclude: set<Node>, target: Option<seq<Node>>, allowPublishers: bool)

  datatype Config = Config(strategy: Strategy, seeded: bool, cycles: seq<Cycle>, hostCount: nat, publishers: set<Node>)

  function Excluded(cfg: Config, c: nat): set<Node>
    requires c < |cfg.cycles|
  {
    cfg.cycles[c].exclude + if cfg.cycles[c].allowPublishers then {} else cfg.publishers
  }

  function Keep(hs: seq<Node>, avoid: set<Node>): (r: seq<Node>)
    ensures forall h :: h in r <==> h in hs && h !in avoid
  {
    if hs == [] then [] else
      Keep(hs[..|hs| - 1], avoid) + if hs[|hs| - 1] in avoid then [] else [hs[|hs| - 1]]
  }

  function Available(cfg: Config, c: nat, snapshot: set<Node>): seq<Node>
    requires c < |cfg.cycles|
  {
    Keep(Range(cfg.hostCount), Excluded(cfg, c) + snapshot)
  }

  predicate ByTarget(cfg: Config, c: nat)
    requires c < |cfg.cycles|
  {
    cfg.strategy.Manual? && cfg.cycles[c].target.Some?
  }

  /** The hosts the cycle may pick: its targets, a sample, or the first few. */
  predicate MayChoose(cfg: Config, c: nat, snapshot: set<Node>, chosen: seq<Node>)
    requires c < |cfg.cycles|
  {
    if ByTarget(cfg, c) then chosen == Keep(cfg.cycles[c].target.value, Excluded(cfg, c) + snapshot)
    else
      var available := Available(cfg, c, snapshot);
      var n := if cfg.cycles[c].count < |available| then cfg.cycles[c].count else |available|;
      available != []
      && if cfg.strategy.Random? && cfg.seeded then |chosen| == n && (forall h | h in chosen :: h in available)
                                                    && (forall i, j | 0 <= i < j < n :: chosen[i] != chosen[j])
         else chosen == available[..n]
  }

  lemma ChosenAllowed(cfg: Config, c: nat, snapshot: set<Node>, chosen: seq<Node>, h: Node)
    requires c < |cfg.cycles| && MayChoose(cfg, c, snapshot, chosen) && h in chosen
    ensures h !in Excluded(cfg, c) && h !in snapshot
    ensures h in cfg.publishers ==> cfg.cycles[c].allowPublishers
    ensures if ByTarget(cfg, c) then h in cfg.cycles[c].target.value else h as int < cfg.hostCount
  {
    if !ByTarget(cfg, c) {
      assert h in Available(cfg, c, snapshot);
      InRange(cfg.hostCount, h);
    }
  }

  // ---------- state ----------

  datatype Phase = Staggering | Locking | Recording

  /** The worker in cycle c; `down` is its cycle_down. Left means it returned. */
  datatype Worker =
    | AtTop(c: nat)
    | Waiting(c: nat)
    | Choosing(c: nat, snapshot: set<Node>)
    | Downing(c: nat, chosen: seq<Node>, k: nat, phase: Phase, down: set<Node>)
    | Left(c: nat, down: set<Node>)

  /** The up-timer of a cycle: `todo` are the hosts still to bring up. */
  datatype Timer =
    | Armed(down: set<Node>)
    | Checked(down: set<Node>)
    | Raising(down: set<Node>, todo: set<Node>)
    | Aborted(down: set<Node>)
    | Finished

  datatype Record = HostDown(host: Node) | HostUp(host: Node)

  datatype State = State(worker: Worker, timers: map<nat, Timer>, registered: set<nat>, sharedDown: set<Node>,
                         view: FlapState.View, stop: bool, log: seq<Record>)

  const INITIAL: State := State(AtTop(0), map[], {}, {}, FlapState.View([], None), false, [])

  datatype Action =
    | SetStop
    | Begin                          // top of the loop for the next cycle
    | EndWait(woken: bool)           // stop_event.wait(interval); then the locked snapshot
    | Choose(chosen: seq<Node>)
    | NoneAvailable
    | EndStagger(woken: bool)        // stop_event.wait(stagger)
    | TakeDown                       // locked: shared_down, cycle_down, state
    | RecordDown
    | Schedule                       // end of the host loop
    | Fire(c: nat)                   // do_up's look at the stop flag
    | Claim(c: nat)                  // locked: cycle_timers
    | BringUp(c: nat, h: Node)       // one host_up record
    | Settle(c: nat)                 // locked: discard and state

  predicate Enabled(cfg: Config, s: State, a: Action) {
    match a
    case SetStop => true
    case Begin => s.worker.AtTop?
    case EndWait(woken) => s.worker.Waiting? && (woken ==> s.stop)
    case Choose(chosen) => s.worker.Choosing? && s.worker.c < |cfg.cycles| && MayChoose(cfg, s.worker.c, s.worker.snapshot, chosen)
    case NoneAvailable => s.worker.Choosing? && s.worker.c < |cfg.cycles| && !ByTarget(cfg, s.worker.c)
                          && Available(cfg, s.worker.c, s.worker.snapshot) == []
    case EndStagger(woken) => s.worker.Downing? && s.worker.phase.Staggering? && s.worker.k < |s.worker.chosen| && (woken ==> s.stop)
    case TakeDown => s.worker.Downing? && s.worker.phase.Locking? && s.worker.k < |s.worker.chosen|
    case RecordDown => s.worker.Downing? && s.worker.phase.Recording? && s.worker.k < |s.worker.chosen|
    case Schedule => s.worker.Downing? && s.worker.phase.Staggering? && s.worker.k >= |s.worker.chosen|
    case Fire(c) => c in s.timers && s.timers[c].Armed?
    case Claim(c) => c in s.timers && s.timers[c].Checked?
    case BringUp(c, h) => c in s.timers && s.timers[c].Raising? && h in s.timers[c].todo
    case Settle(c) => c in s.timers && s.timers[c].Raising? && s.timers[c].todo == {}
  }

  function SetTimer(s: State, c: nat, t: Timer): State {
    s.(timers := s.timers[c := t])
  }

  function Apply(cfg: Config, s: State, a: Action): State
    requires Enabled(cfg, s, a)
  {
    var w := s.worker;
    match a
    case SetStop => s.(stop := true)
    case Begin =>
      if w.c >= |cfg.cycles| || s.stop then s.(worker := Left(w.c, {}))
      else if !cfg.cycles[w.c].valid then s.(worker := AtTop(w.c + 1))
      else s.(worker := Waiting(w.c))
    case EndWait(woken) => if woken then s.(worker := Left(w.c, {})) else s.(worker := Choosing(w.c, s.sharedDown))
    case Choose(chosen) => s.(worker := Downing(w.c, chosen, 0, Staggering, {}))
    case NoneAvailable => s.(worker := AtTop(w.c + 1))
    case EndStagger(woken) => s.(worker := if woken then Left(w.c, w.down) else Downing(w.c, w.chosen, w.k, Locking, w.down))
    case TakeDown =>
      var h := w.chosen[w.k];
      if h in s.sharedDown then s.(worker := Downing(w.c, w.chosen, w.k + 1, Staggering, w.down))
      else s.(worker := Downing(w.c, w.chosen, w.k, Recording, w.down + {h}), sharedDown := s.sharedDown + {h},
              view := FlapState.Updated(s.view, s.sharedDown + {h}, Some(h)))
    case RecordDown => s.(worker := Downing(w.c, w.chosen, w.k + 1, Staggering, w.down), log := s.log + [HostDown(w.chosen[w.k])])
    case Schedule =>
      if w.down == {} then s.(worker := AtTop(w.c + 1))
      else SetTimer(s, w.c, Armed(w.down)).(worker := AtTop(w.c + 1), registered := s.registered + {w.c})
    case Fire(c) => SetTimer(s, c, if s.stop then Aborted(s.timers[c].down) else Checked(s.timers[c].down))
    case Claim(c) =>
      if c !in s.registered then SetTimer(s, c, Aborted(s.timers[c].down))
      else SetTimer(s, c, Raising(s.timers[c].down, s.timers[c].down)).(registered := s.registered - {c})
    case BringUp(c, h) => SetTimer(s, c, Raising(s.timers[c].down, s.timers[c].todo - {h})).(log := s.log + [HostUp(h)])
    case Settle(c) =>
      SetTimer(s, c, Finished).(sharedDown := s.sharedDown - s.timers[c].down,
                                view := FlapState.Updated(s.view, s.sharedDown - s.timers[c].down, None))
  }

  // ---------- who owns a down host ----------

  function Hold(t: Timer): set<Node> {
    if t.Finished? then {} else t.down
  }

  function WorkerHold(w: Worker): set<Node> {
    if w.Downing? || w.Left? then w.down else {}
  }

  /** Cycle c answers for host h: through its timer, or the worker has no timer for it yet. */
  predicate Owns(s: State, c: nat, h: Node) {
    (c in s.timers && h in Hold(s.timers[c])) || (s.worker.c == c && h in WorkerHold(s.worker))
  }

  /** ... and h's host_up record is still to come after its host_down record. */
  predicate Owes(s: State, c: nat, h: Node) {
    || (c in s.timers && h in (if s.timers[c].Raising? then s.timers[c].todo else Hold(s.timers[c])))
    || (s.worker.c == c && h in WorkerHold(s.worker) && !JustTaken(s.worker, h))
  }

  predicate JustTaken(w: Worker, h: Node) {
    w.Downing? && w.phase.Recording? && w.k < |w.chosen| && w.chosen[w.k] == h
  }

  // ---------- records ----------

  /** The host's last record is a host_down. */
  predicate Down(log: seq<Record>, h: Node) {
    log != [] && if log[|log| - 1].host == h then log[|log| - 1].HostDown? else Down(log[..|log| - 1], h)
  }

  /** The host's records read host_down, host_up, host_down, ... */
  predicate Alternates(log: seq<Record>, h: Node) {
    log == [] ||
    (Alternates(log[..|log| - 1], h) && (log[|log| - 1].host == h ==> log[|log| - 1].HostDown? == !Down(log[..|log| - 1], h)))
  }

  // ---------- the invariant ----------

  /** The worker and timers are where they can be. */
  ghost predicate Shape(cfg: Config, s: State) {
    && (forall c | c in s.timers :: c < s.worker.c && c < |cfg.cycles| && TimerOk(cfg, s, c))
    && (s.worker.Waiting? || s.worker.Choosing? || s.worker.Downing? || (s.worker.Left? && s.worker.down != {}) ==> s.worker.c < |cfg.cycles|)
    && (s.worker.Downing? && s.worker.phase.Recording? ==> s.worker.k < |s.worker.chosen| && s.worker.chosen[s.worker.k] in s.worker.down)
    && (s.worker.Downing? ==> s.worker.c < |cfg.cycles| && forall h | h in s.worker.chosen :: h !in Excluded(cfg, s.worker.c))
    && (s.worker.c < |cfg.cycles| ==> WorkerHold(s.worker) !! Excluded(cfg, s.worker.c))
  }

  ghost predicate TimerOk(cfg: Config, s: State, c: nat)
    requires c in s.timers && c < |cfg.cycles|
  {
    && Hold(s.timers[c]) !! Excluded(cfg, c)
    && (s.timers[c].Raising? ==> s.timers[c].todo <= s.timers[c].down)
    && (s.timers[c].Armed? || s.timers[c].Checked? ==> c in s.registered)
  }

  /** shared_down is the disjoint union of what the cycles own. */
  ghost predicate Owned(s: State) {
    && (forall c, h | Owns(s, c, h) :: h in s.sharedDown)
    && (forall c, c', h | Owns(s, c, h) && Owns(s, c', h) :: c == c')
    && (forall h | h in s.sharedDown :: exists c :: Owns(s, c, h))
  }

  ghost predicate ViewOk(s: State) {
    s.view.down == Sorted(s.sharedDown)
  }

  ghost predicate LogOk(s: State) {
    && (forall h :: Alternates(s.log, h))
    && (forall h | h !in s.sharedDown :: !Down(s.log, h))
    && (forall c, h | Owns(s, c, h) :: Down(s.log, h) <==> Owes(s, c, h))
  }

  ghost predicate Inv(cfg: Config, s: State) {
    Shape(cfg, s) && Owned(s) && ViewOk(s) && LogOk(s)
  }

  // ---------- each step keeps it ----------

  predicate TimerAction(a: Action) {
    a.Fire? || a.Claim? || a.BringUp? || a.Settle?
  }

  lemma TimerShapeKept(cfg: Config, s: State, a: Action)
    requires Shape(cfg, s) && Enabled(cfg, s, a) && TimerAction(a)
    ensures Shape(cfg, Apply(cfg, s, a))
  {
    hide Excluded, FlapState.Updated;
    var t := Apply(cfg, s, a);
    assert t.worker == s.worker && t.timers.Keys == s.timers.Keys;
    assert TimerOk(cfg, s, a.c);
    forall c | c in t.timers
      ensures c < s.worker.c && c < |cfg.cycles| && TimerOk(cfg, t, c)
    {
      assert TimerOk(cfg, s, c);
      assert c != a.c ==> t.timers[c] == s.timers[c] && (c in s.registered ==> c in t.registered);
    }
  }

  lemma WorkerShapeKept(cfg: Config, s: State, a: Action)
    requires Shape(cfg, s) && Enabled(cfg, s, a) && !TimerAction(a) && !a.Choose? && !a.TakeDown? && !a.Schedule?
    ensures Shape(cfg, Apply(cfg, s, a))
  {
    hide Excluded, MayChoose, Available, ByTarget, TimerOk;
    var t := Apply(cfg, s, a);
    assert t.timers == s.timers && t.registered == s.registered && t.worker.c >= s.worker.c;
    forall c | c in t.timers
      ensures TimerOk(cfg, t, c)
    {
      assert TimerOk(cfg, s, c);
      SameTimer(cfg, s, t, c);
    }
  }

  lemma SameTimer(cfg: Config, s: State, t: State, c: nat)
    requires c in s.timers && c in t.timers && c < |cfg.cycles| && TimerOk(cfg, s, c)
    requires t.timers[c] == s.timers[c] && (c in s.registered ==> c in t.registered)
    ensures TimerOk(cfg, t, c)
  {
  }

  lemma ChooseShapeKept(cfg: Config, s: State, a: Action)
    requires Shape(cfg, s) && Enabled(cfg, s, a) && (a.Choose? || a.TakeDown?)
    ensures Shape(cfg, Apply(cfg, s, a))
  {
    hide MayChoose, ByTarget, Available, Excluded, TimerOk, FlapState.Updated;
    var t := Apply(cfg, s, a);
    if a.Choose? {
      forall h | h in a.chosen
        ensures h !in Excluded(cfg, s.worker.c)
      {
        ChosenAllowed(cfg, s.worker.c, s.worker.snapshot, a.chosen, h);
      }
    } else {
      assert s.worker.chosen[s.worker.k] in s.worker.chosen;
    }
    assert t.timers == s.timers && t.registered == s.registered && t.worker.c == s.worker.c;
    forall c | c in t.timers
      ensures TimerOk(cfg, t, c)
    {
      assert TimerOk(cfg, s, c);
      SameTimer(cfg, s, t, c);
    }
  }

  lemma ScheduleShapeKept(cfg: Config, s: State, a: Action)
    requires Shape(cfg, s) && Enabled(cfg, s, a) && a.Schedule?
    ensures Shape(cfg, Apply(cfg, s, a))
  {
    hide Excluded;
    var t := Apply(cfg, s, a);
    forall c | c in t.timers
      ensures c < t.worker.c && c < |cfg.cycles| && TimerOk(cfg, t, c)
    {
      if c in s.timers {
        assert TimerOk(cfg, s, c);
        SameTimer(cfg, s, t, c);
      }
    }
  }

  lemma ShapeKept(cfg: Config, s: State, a: Action)
    requires Shape(cfg, s) && Enabled(cfg, s, a)
    ensures Shape(cfg, Apply(cfg, s, a))
  {
    hide Shape, Enabled, Apply;
    if TimerAction(a) { TimerShapeKept(cfg, s, a); }
    else if a.Choose? || a.TakeDown? { ChooseShapeKept(cfg, s, a); }
    else if a.Schedule? { ScheduleShapeKept(cfg, s, a); }
    else { WorkerShapeKept(cfg, s, a); }
  }

  /** The step takes a host down or lets some go. */
  predicate ChangesDown(cfg: Config, s: State, a: Action) {
    (a.TakeDown? && Enabled(cfg, s, a) && s.worker.chosen[s.worker.k] !in s.sharedDown) || a.Settle?
  }

  lemma ViewKept(cfg: Config, s: State, a: Action)
    requires ViewOk(s) && Enabled(cfg, s, a)
    ensures ViewOk(Apply(cfg, s, a))
  {
    hide MayChoose, ByTarget, Available, FlapState.Updated, Sorted;
    if ChangesDown(cfg, s, a) {
      var t := Apply(cfg, s, a);
      UpdatedDown(s.view, t.sharedDown, if a.TakeDown? then Some(s.worker.chosen[s.worker.k]) else None);
    }
  }

  lemma UpdatedDown(v: FlapState.View, hosts: set<Node>, last: Option<Node>)
    ensures FlapState.Updated(v, hosts, last).down == Sorted(hosts)
  {
  }

  /** Otherwise every host keeps its owner. */
  lemma OwnersStay(cfg: Config, s: State, a: Action, c: nat, h: Node)
    requires Shape(cfg, s) && Enabled(cfg, s, a) && !ChangesDown(cfg, s, a)
    ensures Owns(Apply(cfg, s, a), c, h) <==> Owns(s, c, h)
    ensures Apply(cfg, s, a).sharedDown == s.sharedDown
  {
    hide MayChoose, ByTarget, Available, Excluded, TimerOk;
  }

  lemma TakeDownOwner(cfg: Config, s: State, c: nat, h: Node)
    requires Shape(cfg, s) && Enabled(cfg, s, TakeDown) && ChangesDown(cfg, s, TakeDown)
    ensures Owns(Apply(cfg, s, TakeDown), c, h) <==> Owns(s, c, h) || (c == s.worker.c && h == s.worker.chosen[s.worker.k])
    ensures Apply(cfg, s, TakeDown).sharedDown == s.sharedDown + {s.worker.chosen[s.worker.k]}
  {
    hide Excluded, TimerOk, FlapState.Updated;
  }

  lemma SettleOwner(cfg: Config, s: State, a: Action, c: nat, h: Node)
    requires Shape(cfg, s) && Enabled(cfg, s, a) && a.Settle?
    ensures Owns(Apply(cfg, s, a), c, h) <==> Owns(s, c, h) && c != a.c
    ensures Owns(s, a.c, h) <==> h in s.timers[a.c].down
    ensures Apply(cfg, s, a).sharedDown == s.sharedDown - s.timers[a.c].down
  {
    hide Excluded, TimerOk, FlapState.Updated;
    assert a.c < s.worker.c;
  }

  lemma OwnedKept(cfg: Config, s: State, a: Action)
    requires Shape(cfg, s) && Owned(s) && Enabled(cfg, s, a)
    ensures Owned(Apply(cfg, s, a))
  {
    hide Shape, Apply, Owns, Enabled;
    var t := Apply(cfg, s, a);
    if !ChangesDown(cfg, s, a) {
      forall c, h ensures Owns(t, c, h) <==> Owns(s, c, h) { OwnersStay(cfg, s, a, c, h); }
      OwnersStay(cfg, s, a, 0, 0);
      OwnedSame(s, t);
    } else if a.Settle? {
      SettleOwned(cfg, s, a);
    } else {
      TakeDownOwned(cfg, s);
    }
  }

  lemma OwnedSame(s: State, t: State)
    requires Owned(s) && t.sharedDown == s.sharedDown && forall c, h :: Owns(t, c, h) <==> Owns(s, c, h)
    ensures Owned(t)
  {
    hide Owns;
    forall h | h in t.sharedDown
      ensures exists c :: Owns(t, c, h)
    {
      var c :| Owns(s, c, h);
      assert Owns(t, c, h);
    }
  }

  lemma SettleOwned(cfg: Config, s: State, a: Action)
    requires Shape(cfg, s) && Owned(s) && Enabled(cfg, s, a) && a.Settle?
    ensures Owned(Apply(cfg, s, a))
  {
    hide Shape, Apply, Owns;
    var t := Apply(cfg, s, a);
    forall c, h ensures Owns(t, c, h) <==> Owns(s, c, h) && c != a.c { SettleOwner(cfg, s, a, c, h); }
    forall h ensures Owns(s, a.c, h) <==> h in s.timers[a.c].down { SettleOwner(cfg, s, a, 0, h); }
    SettleOwner(cfg, s, a, 0, 0);
    forall h | h in t.sharedDown
      ensures exists c :: Owns(t, c, h)
    {
      var c :| Owns(s, c, h);
      assert Owns(t, c, h);
    }
  }

  lemma TakeDownOwned(cfg: Config, s: State)
    requires Shape(cfg, s) && Owned(s) && Enabled(cfg, s, TakeDown) && ChangesDown(cfg, s, TakeDown)
    ensures Owned(Apply(cfg, s, TakeDown))
  {
    hide Shape, Apply, Owns;
    var t, taken := Apply(cfg, s, TakeDown), s.worker.chosen[s.worker.k];
    forall c, h ensures Owns(t, c, h) <==> Owns(s, c, h) || (c == s.worker.c && h == taken) { TakeDownOwner(cfg, s, c, h); }
    TakeDownOwner(cfg, s, 0, 0);
    forall h | h in t.sharedDown
      ensures exists c :: Owns(t, c, h)
    {
      if h == taken {
        assert Owns(t, s.worker.c, h);
      } else {
        var c :| Owns(s, c, h);
        assert Owns(t, c, h);
      }
    }
  }

  // ---------- records alternate ----------

  lemma Appended(log: seq<Record>, r: Record, h: Node)
    ensures Down(log + [r], h) <==> if r.host == h then r.HostDown? else Down(log, h)
    ensures Alternates(log + [r], h) <==> Alternates(log, h) && (r.host == h ==> r.HostDown? == !Down(log, h))
  {
    assert (log + [r])[..|log|] == log;
  }

  lemma OwesStay(cfg: Config, s: State, a: Action, c: nat, h: Node)
    requires Shape(cfg, s) && Enabled(cfg, s, a) && !ChangesDown(cfg, s, a) && !a.RecordDown? && !a.BringUp?
    ensures Owns(s, c, h) ==> (Owes(Apply(cfg, s, a), c, h) <==> Owes(s, c, h))
    ensures Apply(cfg, s, a).log == s.log
  {
    hide MayChoose, ByTarget, Available, Excluded, TimerOk;
  }

  lemma TakeDownOwes(cfg: Config, s: State, c: nat, h: Node)
    requires Shape(cfg, s) && Owned(s) && Enabled(cfg, s, TakeDown) && ChangesDown(cfg, s, TakeDown)
    ensures var t, x := Apply(cfg, s, TakeDown), s.worker.chosen[s.worker.k];
            && (Owns(s, c, h) ==> h != x && (Owes(t, c, h) <==> Owes(s, c, h))) && !Owes(t, s.worker.c, x) && t.log == s.log
  {
    hide Excluded, TimerOk, FlapState.Updated;
    assert Owns(s, c, h) ==> h in s.sharedDown;
  }

  lemma SettleOwes(cfg: Config, s: State, a: Action, c: nat, h: Node)
    requires Shape(cfg, s) && Enabled(cfg, s, a) && a.Settle?
    ensures var t := Apply(cfg, s, a);
            && (Owns(t, c, h) ==> (Owes(t, c, h) <==> Owes(s, c, h))) && !Owes(s, a.c, h) && t.log == s.log
  {
    hide Excluded, TimerOk, FlapState.Updated;
    assert a.c < s.worker.c;
  }

  lemma RecordDownOwes(cfg: Config, s: State, c: nat, h: Node)
    requires Shape(cfg, s) && Enabled(cfg, s, RecordDown)
    ensures var t, x := Apply(cfg, s, RecordDown), s.worker.chosen[s.worker.k];
            && Owns(s, s.worker.c, x) && !Owes(s, s.worker.c, x) && Owes(t, s.worker.c, x)
            && (h != x ==> (Owes(t, c, h) <==> Owes(s, c, h)))
            && t.log == s.log + [HostDown(x)]
  {
    hide Excluded, TimerOk;
  }

  lemma BringUpOwes(cfg: Config, s: State, a: Action, c: nat, h: Node)
    requires Shape(cfg, s) && Enabled(cfg, s, a) && a.BringUp?
    ensures var t := Apply(cfg, s, a);
            && Owns(s, a.c, a.h) && Owes(s, a.c, a.h) && !Owes(t, a.c, a.h)
            && (h != a.h ==> (Owes(t, c, h) <==> Owes(s, c, h)))
            && t.log == s.log + [HostUp(a.h)]
  {
    hide Excluded;
    assert a.c < s.worker.c && TimerOk(cfg, s, a.c);
  }

  lemma SettleLog(cfg: Config, s: State, a: Action)
    requires Inv(cfg, s) && Enabled(cfg, s, a) && a.Settle?
    ensures LogOk(Apply(cfg, s, a))
  {
    hide Shape, Apply, Owns, Owes, Down, Alternates;
    var t := Apply(cfg, s, a);
    SettleOwner(cfg, s, a, 0, 0);
    SettleOwes(cfg, s, a, 0, 0);
    forall h | h !in t.sharedDown
      ensures !Down(t.log, h)
    {
      SettleOwner(cfg, s, a, 0, h);
      SettleOwes(cfg, s, a, 0, h);
    }
    forall c, h | Owns(t, c, h)
      ensures Down(t.log, h) <==> Owes(t, c, h)
    {
      SettleOwner(cfg, s, a, c, h);
      SettleOwes(cfg, s, a, c, h);
    }
  }

  lemma TakeDownLog(cfg: Config, s: State)
    requires Inv(cfg, s) && Enabled(cfg, s, TakeDown) && ChangesDown(cfg, s, TakeDown)
    ensures LogOk(Apply(cfg, s, TakeDown))
  {
    hide Shape, Apply, Owns, Owes, Down, Alternates;
    var t := Apply(cfg, s, TakeDown);
    TakeDownOwner(cfg, s, 0, 0);
    TakeDownOwes(cfg, s, 0, 0);
    forall c, h | Owns(t, c, h)
      ensures Down(t.log, h) <==> Owes(t, c, h)
    {
      TakeDownOwner(cfg, s, c, h);
      TakeDownOwes(cfg, s, c, h);
    }
  }

  /** A record is written for a host whose turn it is. */
  lemma RecordLog(cfg: Config, s: State, a: Action)
    requires Inv(cfg, s) && Enabled(cfg, s, a) && (a.RecordDown? || a.BringUp?)
    ensures LogOk(Apply(cfg, s, a))
  {
    hide Shape, Apply, Owns, Owes, Down, Alternates;
    var t := Apply(cfg, s, a);
    var o, x := if a.RecordDown? then s.worker.c else a.c, if a.RecordDown? then s.worker.chosen[s.worker.k] else a.h;
    var r := if a.RecordDown? then HostDown(x) else HostUp(x);
    Recorded(cfg, s, a, 0, 0);
    OwnersStay(cfg, s, a, 0, 0);
    forall h
      ensures Alternates(t.log, h) && (h !in t.sharedDown ==> !Down(t.log, h))
    {
      Recorded(cfg, s, a, 0, h);
      Appended(s.log, r, h);
    }
    forall c, h | Owns(t, c, h)
      ensures Down(t.log, h) <==> Owes(t, c, h)
    {
      Recorded(cfg, s, a, c, h);
      OwnersStay(cfg, s, a, c, h);
      OwnersStay(cfg, s, a, o, x);
      Appended(s.log, r, h);
    }
  }

  lemma Recorded(cfg: Config, s: State, a: Action, c: nat, h: Node)
    requires Shape(cfg, s) && Owned(s) && Enabled(cfg, s, a) && (a.RecordDown? || a.BringUp?)
    ensures var o, x := if a.RecordDown? then s.worker.c else a.c, if a.RecordDown? then s.worker.chosen[s.worker.k] else a.h;
            var t := Apply(cfg, s, a);
            && Owns(s, o, x) && x in s.sharedDown && (Owes(s, o, x) <==> a.BringUp?) && (Owes(t, o, x) <==> a.RecordDown?)
            && (h != x ==> (Owes(t, c, h) <==> Owes(s, c, h)))
            && t.log == s.log + [if a.RecordDown? then HostDown(x) else HostUp(x)]
  {
    hide Shape, Apply, Owns, Owes;
    if a.RecordDown? { RecordDownOwes(cfg, s, c, h); } else { BringUpOwes(cfg, s, a, c, h); }
  }

  lemma LogKept(cfg: Config, s: State, a: Action)
    requires Inv(cfg, s) && Enabled(cfg, s, a)
    ensures LogOk(Apply(cfg, s, a))
  {
    hide Shape, Apply, Owns, Owes, Enabled, Down, Alternates;
    var t := Apply(cfg, s, a);
    if a.Settle? { SettleLog(cfg, s, a); }
    else if ChangesDown(cfg, s, a) { TakeDownLog(cfg, s); }
    else if a.RecordDown? || a.BringUp? { RecordLog(cfg, s, a); }
    else {
      OwnersStay(cfg, s, a, 0, 0);
      OwesStay(cfg, s, a, 0, 0);
      forall c, h | Owns(t, c, h)
        ensures Down(t.log, h) <==> Owes(t, c, h)
      {
        OwnersStay(cfg, s, a, c, h);
        OwesStay(cfg, s, a, c, h);
      }
    }
  }

  // ---------- runs ----------

  lemma StepKeeps(cfg: Config, s: State, a: Action)
    requires Inv(cfg, s) && Enabled(cfg, s, a)
    ensures Inv(cfg, Apply(cfg, s, a))
  {
    hide Shape, Owned, ViewOk, LogOk, Apply, Enabled;
    ShapeKept(cfg, s, a);
    OwnedKept(cfg, s, a);
    ViewKept(cfg, s, a);
    LogKept(cfg, s, a);
  }

  predicate Runs(cfg: Config, s: State, run: seq<Action>)
    decreases |run|
  {
    run == [] || (Enabled(cfg, s, run[0]) && Runs(cfg, Apply(cfg, s, run[0]), run[1..]))
  }

  function After(cfg: Config, s: State, run: seq<Action>): State
    requires Runs(cfg, s, run)
    decreases |run|
  {
    if run == [] then s else After(cfg, Apply(cfg, s, run[0]), run[1..])
  }

  lemma {:induction false} RunKeeps(cfg: Config, s: State, run: seq<Action>)
    requires Inv(cfg, s) && Runs(cfg, s, run)
    ensures Inv(cfg, After(cfg, s, run))
    decreases |run|
  {
    hide Inv, Enabled, Apply;
    if run != [] {
      StepKeeps(cfg, s, run[0]);
      RunKeeps(cfg, Apply(cfg, s, run[0]), run[1..]);
    }
  }

  lemma InitialInv(cfg: Config)
    ensures Inv(cfg, INITIAL)
  {
  }

  // ---------- main results, for every configuration and interleaving ----------

  /** A host is down exactly when one cycle, and one only, owns it: through its
      timer, or because the worker took it down and has no timer for it. */
  lemma DownIsOwnedOnce(cfg: Config, run: seq<Action>, h: Node)
    requires Runs(cfg, INITIAL, run)
    ensures var s := After(cfg, INITIAL, run);
            && (h in s.sharedDown <==> exists c :: Owns(s, c, h))
            && (forall c, c' | Owns(s, c, h) && Owns(s, c', h) :: c == c')
            && s.view.down == Sorted(s.sharedDown)
  {
    hide Shape, LogOk, Owns, Runs, After;
    InitialInv(cfg);
    RunKeeps(cfg, INITIAL, run);
  }

  /** Every host's records alternate, starting with host_down; a host that is not
      down has its records paired. */
  lemma RecordsAlternate(cfg: Config, run: seq<Action>, h: Node)
    requires Runs(cfg, INITIAL, run)
    ensures var s := After(cfg, INITIAL, run);
            Alternates(s.log, h) && (h !in s.sharedDown ==> !Down(s.log, h))
  {
    hide Shape, Owned, ViewOk, Runs, After, Alternates, Down;
    InitialInv(cfg);
    RunKeeps(cfg, INITIAL, run);
  }

  /** A publisher is down only through a cycle that allows publishers, an excluded
      host never through the cycle that excludes it. */
  lemma OnlyAllowedDown(cfg: Config, run: seq<Action>, c: nat, h: Node)
    requires Runs(cfg, INITIAL, run) && Owns(After(cfg, INITIAL, run), c, h)
    ensures c < |cfg.cycles| && h !in cfg.cycles[c].exclude && (h in cfg.publishers ==> cfg.cycles[c].allowPublishers)
  {
    hide Owned, LogOk, ViewOk, Runs, After;
    InitialInv(cfg);
    RunKeeps(cfg, INITIAL, run);
    var s := After(cfg, INITIAL, run);
    assert c in s.timers ==> TimerOk(cfg, s, c);
  }

  /** The timer guard on cycle_timers never turns a timer away. */
  lemma ClaimSucceeds(cfg: Config, run: seq<Action>, c: nat)
    requires Runs(cfg, INITIAL, run) && Enabled(cfg, After(cfg, INITIAL, run), Claim(c))
    ensures c in After(cfg, INITIAL, run).registered
  {
    hide Owned, LogOk, ViewOk, Runs, After;
    InitialInv(cfg);
    RunKeeps(cfg, INITIAL, run);
    assert TimerOk(cfg, After(cfg, INITIAL, run), c);
  }

  /** When every cycle ran its course and no stop cut one short, nobody is left down. */
  lemma AllUpAtTheEnd(cfg: Config, run: seq<Action>)
    requires Runs(cfg, INITIAL, run)
    requires var s := After(cfg, INITIAL, run);
             s.worker.Left? && s.worker.down == {} && forall c | c in s.timers :: s.timers[c].Finished?
    ensures After(cfg, INITIAL, run).sharedDown == {} && After(cfg, INITIAL, run).view.down == []
    ensures forall h :: !Down(After(cfg, INITIAL, run).log, h)
  {
    hide Shape, Runs, After;
    InitialInv(cfg);
    RunKeeps(cfg, INITIAL, run);
    var s := After(cfg, INITIAL, run);
    forall h
      ensures h !in s.sharedDown
    {
      assert forall c :: !Owns(s, c, h);
    }
  }

  // ---------- the stop flag ----------

  /** Nobody has seen the stop flag set. */
  ghost predicate Undisturbed(s: State) {
    && !s.stop && (s.worker.Left? ==> s.worker.down == {})
    && forall c | c in s.timers :: !s.timers[c].Aborted?
  }

  lemma UndisturbedStep(cfg: Config, s: State, a: Action)
    requires Shape(cfg, s) && Undisturbed(s) && Enabled(cfg, s, a) && !a.SetStop?
    ensures Undisturbed(Apply(cfg, s, a))
  {
    if a.Claim? { assert TimerOk(cfg, s, a.c); }
  }

  lemma {:induction false} RunUndisturbed(cfg: Config, s: State, run: seq<Action>)
    requires Inv(cfg, s) && Undisturbed(s) && Runs(cfg, s, run) && SetStop !in run
    ensures Undisturbed(After(cfg, s, run))
    decreases |run|
  {
    hide Enabled, Apply, Undisturbed, Shape, Owned, ViewOk, LogOk;
    if run != [] {
      assert run[0] in run;
      StepKeeps(cfg, s, run[0]);
      UndisturbedStep(cfg, s, run[0]);
      RunUndisturbed(cfg, Apply(cfg, s, run[0]), run[1..]);
    }
  }

  /** No timer has anything left to do. */
  ghost predicate Quiet(cfg: Config, s: State) {
    forall c: nat ::
      && !Enabled(cfg, s, Fire(c)) && !Enabled(cfg, s, Claim(c)) && !Enabled(cfg, s, Settle(c))
      && forall h :: !Enabled(cfg, s, BringUp(c, h))
  }

  lemma QuietTimers(cfg: Config, s: State)
    requires Quiet(cfg, s) && Undisturbed(s)
    ensures forall c | c in s.timers :: s.timers[c].Finished?
  {
    forall c | c in s.timers
      ensures s.timers[c].Finished?
    {
      assert !Enabled(cfg, s, Fire(c)) && !Enabled(cfg, s, Claim(c)) && !Enabled(cfg, s, Settle(c));
      if s.timers[c].Raising? && s.timers[c].todo != {} {
        var h :| h in s.timers[c].todo;
        assert Enabled(cfg, s, BringUp(c, h));
      }
    }
  }

  /** Without a stop, once the worker has returned and the timers have nothing left to
      do, every host is up again. */
  lemma QuietMeansUp(cfg: Config, run: seq<Action>)
    requires Runs(cfg, INITIAL, run) && SetStop !in run
    requires After(cfg, INITIAL, run).worker.Left? && Quiet(cfg, After(cfg, INITIAL, run))
    ensures After(cfg, INITIAL, run).sharedDown == {} && After(cfg, INITIAL, run).view.down == []
    ensures forall h :: !Down(After(cfg, INITIAL, run).log, h)
  {
    InitialInv(cfg);
    hide Runs, After, Inv, Quiet;
    RunUndisturbed(cfg, INITIAL, run);
    QuietTimers(cfg, After(cfg, INITIAL, run));
    AllUpAtTheEnd(cfg, run);
  }

  lemma StopHolds(cfg: Config, s: State, a: Action, c: nat)
    requires Inv(cfg, s) && Enabled(cfg, s, a) && s.stop && c in s.timers && (s.timers[c].Armed? || s.timers[c].Aborted?)
    ensures var t := Apply(cfg, s, a);
            t.stop && c in t.timers && (t.timers[c].Armed? || t.timers[c].Aborted?) && t.timers[c].down == s.timers[c].down
  {
    hide Owned, ViewOk, LogOk, Excluded;
  }

  /** A timer that has not fired when stop is set brings nobody up. */
  lemma {:induction false} StopHoldsTimers(cfg: Config, s: State, run: seq<Action>, c: nat)
    requires Inv(cfg, s) && Runs(cfg, s, run) && s.stop && c in s.timers && (s.timers[c].Armed? || s.timers[c].Aborted?)
    ensures var t := After(cfg, s, run);
            t.stop && c in t.timers && (t.timers[c].Armed? || t.timers[c].Aborted?) && t.timers[c].down == s.timers[c].down
    decreases |run|
  {
    hide Inv, Enabled, Apply;
    if run != [] {
      StepKeeps(cfg, s, run[0]);
      StopHolds(cfg, s, run[0], c);
      StopHoldsTimers(cfg, Apply(cfg, s, run[0]), run[1..], c);
    }
  }

  // ---------- a chosen host does go down ----------

  /** The worker still has to take `h` down in cycle c, or to record it. */
  predicate Facing(s: State, c: nat, h: Node) {
    s.worker.Downing? && s.worker.c == c && s.worker.k < |s.worker.chosen|
    && if s.worker.phase.Recording? && s.worker.chosen[s.worker.k] == h then true else h in s.worker.chosen[s.worker.k..] && h !in s.sharedDown
  }

  lemma FacingStep(cfg: Config, s: State, a: Action, c: nat, h: Node)
    requires Facing(s, c, h) && Enabled(cfg, s, a)
    ensures var t := Apply(cfg, s, a);
            Facing(t, c, h) || (t.worker.Left? && t.worker.c == c) || t.log == s.log + [HostDown(h)]
  {
    if a.TakeDown? || a.RecordDown? {
      FacingTurn(cfg, s, a, c, h);
    } else {
      FacingOther(cfg, s, a, c, h);
    }
  }

  lemma FacingOther(cfg: Config, s: State, a: Action, c: nat, h: Node)
    requires Facing(s, c, h) && Enabled(cfg, s, a) && !a.TakeDown? && !a.RecordDown?
    ensures var t := Apply(cfg, s, a); Facing(t, c, h) || (t.worker.Left? && t.worker.c == c)
  {
  }

  lemma FacingTurn(cfg: Config, s: State, a: Action, c: nat, h: Node)
    requires Facing(s, c, h) && Enabled(cfg, s, a) && (a.TakeDown? || a.RecordDown?)
    ensures Facing(Apply(cfg, s, a), c, h) || Apply(cfg, s, a).log == s.log + [HostDown(h)]
  {
    var w := s.worker;
    StillAhead(w.chosen, w.k, h);
    hide Excluded;
  }

  lemma StillAhead(chosen: seq<Node>, k: nat, h: Node)
    requires k < |chosen|
    ensures h in chosen[k..] && chosen[k] != h ==> k + 1 < |chosen| && h in chosen[k + 1..]
  {
    assert chosen[k..] == [chosen[k]] + chosen[k + 1..];
  }

  lemma LogGrows(cfg: Config, s: State, a: Action)
    requires Enabled(cfg, s, a)
    ensures |s.log| <= |Apply(cfg, s, a).log| && Apply(cfg, s, a).log[..|s.log|] == s.log
  {
  }

  lemma {:induction false} RunLogGrows(cfg: Config, s: State, run: seq<Action>, r: Record)
    requires Runs(cfg, s, run)
    ensures r in s.log ==> r in After(cfg, s, run).log
    decreases |run|
  {
    hide Enabled, Apply;
    if run != [] {
      LogGrows(cfg, s, run[0]);
      KeptRecord(s.log, Apply(cfg, s, run[0]).log, r);
      RunLogGrows(cfg, Apply(cfg, s, run[0]), run[1..], r);
    }
  }

  lemma KeptRecord(log: seq<Record>, more: seq<Record>, r: Record)
    requires |log| <= |more| && more[..|log|] == log
    ensures r in log ==> r in more
  {
    if r in log {
      var i :| 0 <= i < |log| && log[i] == r;
      assert more[..|log|][i] == more[i];
    }
  }

  lemma LeftStays(cfg: Config, s: State, run: seq<Action>)
    requires Runs(cfg, s, run) && s.worker.Left?
    ensures After(cfg, s, run).worker == s.worker
    decreases |run|
  {
    if run != [] { LeftStays(cfg, Apply(cfg, s, run[0]), run[1..]); }
  }

  /** A host that a cycle chose and that is not down is taken down and recorded before
      the worker goes on to the next cycle. */
  lemma {:induction false} ChosenFalls(cfg: Config, s: State, run: seq<Action>, c: nat, h: Node)
    requires Runs(cfg, s, run) && Facing(s, c, h)
    requires !Facing(After(cfg, s, run), c, h) && !After(cfg, s, run).worker.Left?
    ensures HostDown(h) in After(cfg, s, run).log
    decreases |run|
  {
    hide Enabled, Apply, Facing;
    var t := Apply(cfg, s, run[0]);
    FacingStep(cfg, s, run[0], c, h);
    if Facing(t, c, h) {
      ChosenFalls(cfg, t, run[1..], c, h);
    } else if t.worker.Left? {
      LeftStays(cfg, t, run[1..]);
    } else {
      RunLogGrows(cfg, t, run[1..], HostDown(h));
    }
  }
}
