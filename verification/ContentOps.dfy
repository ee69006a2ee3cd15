/** ContentOperationRunner as a step system: the worker thread, any number of
    wait_all and stop calls, the task queue and the subscribers handed around. */
module ContentOps {

  newtype Uri = x: int | 0 <= x

  /** A running cefsubfile; ids count the spawned ones. */
  datatype Entry = Entry(id: nat, uri: Uri)

  datatype Item = Sub(uri: Uri) | Pub(uri: Uri) | Other | Sentinel

  datatype Worker =
    | Idle
    | Got(item: Item)                 // cancel not yet looked at
    | Dispatched(item: Item)          // cancel was not set then; handler under way
    | Spawned(entry: Entry)           // started, not yet in _pending_subs
    | Publishing(entries: seq<Entry>) // popped, publisher still running
    | Recording(entries: seq<Entry>)  // subscribers still to be recorded
    | Ending                          // handler left, task_done to come
    | Exited

  /** A wait_all call, or a stop call where `stop` says so; `joined` means the
      worker had exited when its join returned. */
  datatype Caller =
    | Waiting
    | TimedOut                        // saw unfinished tasks, cancel not yet set
    | StopCalled
    | Draining(stop: bool)
    | Holding(stop: bool, item: Item)
    | Posting
    | Joining
    | Collecting(stop: bool, joined: bool)
    | Reporting(stop: bool, joined: bool, entries: seq<Entry>)
    | Returned(stop: bool, joined: bool) // the call is over, normally or by an exception

  datatype State = State(queue: seq<Item>, unfinished: int, pending: seq<Entry>, cancel: bool, worker: Worker, callers: seq<Caller>,
                         spawned: seq<Entry>, recorded: seq<Entry>, dropped: seq<Entry>)

  /** TakeSubs leaves early when it is cancelled in the grace period, or by an
      exception before the pop. */
  datatype Action =
    | Submit(item: Item)
    | Get | Dispatch | SpawnSub(ok: bool) | AppendSub | TakeSubs(early: bool) | RunPub(ok: bool) | RecordSub(ok: bool) | LastSub
    | RunOther | TaskDone
    | SeeQuiet(i: nat) | TimeOut(i: nat) | SetCancel(i: nat) | CallStop(i: nat) | DrainNext(i: nat) | DrainDone(i: nat) | PostSentinel(i: nat)
    | Join(i: nat) | Collect(i: nat) | Report(i: nat, ok: bool) | Return(i: nat)

  predicate CallerAction(a: Action) {
    a.SeeQuiet? || a.TimeOut? || a.SetCancel? || a.CallStop? || a.DrainNext? || a.DrainDone? || a.PostSentinel? || a.Join? || a.Collect? || a.Report? || a.Return?
  }

  function OfUri(es: seq<Entry>, uri: Uri): seq<Entry> {
    if es == [] then [] else OfUri(es[..|es| - 1], uri) + if es[|es| - 1].uri == uri then [es[|es| - 1]] else []
  }

  function OtherUris(es: seq<Entry>, uri: Uri): seq<Entry> {
    if es == [] then [] else OtherUris(es[..|es| - 1], uri) + if es[|es| - 1].uri == uri then [] else [es[|es| - 1]]
  }

  predicate Enabled(s: State, a: Action) {
    if CallerAction(a) then a.i < |s.callers| && CallerEnabled(s, a, s.callers[a.i]) else WorkerEnabled(s, a)
  }

  predicate CallerEnabled(s: State, a: Action, c: Caller)
    requires CallerAction(a)
  {
    match a
    case SeeQuiet(_) => c.Waiting? && s.unfinished == 0
    case TimeOut(_) => c.Waiting? && s.unfinished != 0
    case SetCancel(_) => c.TimedOut?
    case CallStop(_) => c.StopCalled?
    case DrainNext(_) => c.Draining?
    case DrainDone(_) => c.Holding?
    case PostSentinel(_) => c.Posting?
    case Join(_) => c.Joining?
    case Collect(_) => c.Collecting?
    case Report(_, _) => c.Reporting? && c.entries != []
    case Return(_) => c.Reporting? && c.entries == []
  }

  predicate WorkerEnabled(s: State, a: Action)
    requires !CallerAction(a)
  {
    match a
    case Submit(item) => !item.Sentinel?
    case Get => s.worker.Idle? && s.queue != []
    case Dispatch => s.worker.Got?
    case SpawnSub(_) => s.worker.Dispatched? && s.worker.item.Sub?
    case AppendSub => s.worker.Spawned?
    case TakeSubs(_) => s.worker.Dispatched? && s.worker.item.Pub?
    case RunPub(_) => s.worker.Publishing?
    case RecordSub(_) => s.worker.Recording? && s.worker.entries != []
    case LastSub => s.worker.Recording? && s.worker.entries == []
    case RunOther => s.worker.Dispatched? && s.worker.item.Other?
    case TaskDone => s.worker.Ending?
  }

  function Apply(s: State, a: Action): State
    requires Enabled(s, a)
  {
    if CallerAction(a) then ApplyCaller(s, a, NextCaller(s, a)) else ApplyWorker(s, a)
  }

  function NextCaller(s: State, a: Action): Caller
    requires CallerAction(a) && Enabled(s, a)
  {
    var c := s.callers[a.i];
    match a
    case SeeQuiet(_) => Collecting(false, false)
    case TimeOut(_) => TimedOut
    case SetCancel(_) => Draining(false)
    case CallStop(_) => Draining(true)
    case DrainNext(_) =>
      if s.queue != [] then Holding(c.stop, s.queue[0]) else if c.stop then Posting else Collecting(false, false)
    case DrainDone(_) =>
      if !c.item.Sentinel? then Draining(c.stop) else if c.stop then Posting else Collecting(false, false)
    case PostSentinel(_) => Joining
    case Join(_) => Collecting(true, s.worker.Exited?)
    case Collect(_) => Reporting(c.stop, c.joined, s.pending)
    case Report(_, ok) => if ok then Reporting(c.stop, c.joined, c.entries[1..]) else Returned(c.stop, c.joined)
    case Return(_) => Returned(c.stop, c.joined)
  }

  function ApplyCaller(s: State, a: Action, n: Caller): State
    requires CallerAction(a) && Enabled(s, a)
  {
    var c := s.callers[a.i];
    var t := s.(callers := s.callers[a.i := n]);
    match a
    case SetCancel(_) => t.(cancel := true)
    case CallStop(_) => t.(cancel := true)
    case DrainNext(_) => if s.queue != [] then t.(queue := s.queue[1..]) else t
    case DrainDone(_) => t.(unfinished := s.unfinished - 1)
    case PostSentinel(_) => t.(queue := s.queue + [Sentinel], unfinished := s.unfinished + 1)
    case Collect(_) => t.(pending := [])
    case Report(_, ok) => if ok then t.(recorded := s.recorded + [c.entries[0]]) else t.(dropped := s.dropped + c.entries)
    case _ => t
  }

  function ApplyWorker(s: State, a: Action): State
    requires !CallerAction(a) && Enabled(s, a)
  {
    var w := s.worker;
    match a
    case Submit(item) => s.(queue := s.queue + [item], unfinished := s.unfinished + 1)
    case Get => s.(queue := s.queue[1..], worker := Got(s.queue[0]))
    case Dispatch =>
      if w.item.Sentinel? then s.(worker := Exited, unfinished := s.unfinished - 1)
      else s.(worker := if s.cancel then Ending else Dispatched(w.item))
    case SpawnSub(ok) =>
      var e := Entry(|s.spawned|, w.item.uri);
      if ok then s.(worker := Spawned(e), spawned := s.spawned + [e]) else s.(worker := Ending)
    case AppendSub => s.(worker := Ending, pending := s.pending + [w.entry])
    case TakeSubs(early) =>
      if early then s.(worker := Ending)
      else s.(worker := Publishing(OfUri(s.pending, w.item.uri)), pending := OtherUris(s.pending, w.item.uri))
    case RunPub(ok) => if ok then s.(worker := Recording(w.entries)) else s.(worker := Ending, dropped := s.dropped + w.entries)
    case RecordSub(ok) =>
      if ok then s.(worker := Recording(w.entries[1..]), recorded := s.recorded + [w.entries[0]])
      else s.(worker := Ending, dropped := s.dropped + w.entries)
    case LastSub => s.(worker := Ending)
    case RunOther => s.(worker := Ending)
    case TaskDone => s.(worker := Idle, unfinished := s.unfinished - 1)
  }

  // ---------- queue accounting ----------

  function InFlight(callers: seq<Caller>): nat {
    if callers == [] then 0 else InFlight(callers[..|callers| - 1]) + if callers[|callers| - 1].Holding? then 1 else 0
  }

  function WorkerInFlight(w: Worker): nat {
    if w.Idle? || w.Exited? then 0 else 1
  }

  /** unfinished_tasks counts the queued items and the ones taken but not done. */
  predicate QueueOk(s: State) {
    s.unfinished == |s.queue| + WorkerInFlight(s.worker) + InFlight(s.callers)
  }

  lemma {:induction false} InFlightUpdate(callers: seq<Caller>, i: nat, c: Caller)
    requires i < |callers|
    ensures InFlight(callers[i := c]) + (if callers[i].Holding? then 1 else 0) == InFlight(callers) + if c.Holding? then 1 else 0
  {
    var n := |callers| - 1;
    if i < n {
      InFlightUpdate(callers[..n], i, c);
      assert callers[i := c][..n] == callers[..n][i := c];
    } else {
      assert callers[i := c][..n] == callers[..n];
    }
  }

  lemma QueueKept(s: State, a: Action)
    requires QueueOk(s) && Enabled(s, a)
    ensures QueueOk(Apply(s, a))
  {
    hide InFlight, OfUri, OtherUris;
    if CallerAction(a) { InFlightUpdate(s.callers, a.i, NextCaller(s, a)); }
  }

  // ---------- where a spawned subscriber is ----------

  function HeldByWorker(w: Worker): seq<Entry> {
    match w
    case Spawned(e) => [e]
    case Publishing(es) => es
    case Recording(es) => es
    case _ => []
  }

  function HeldByCaller(c: Caller): seq<Entry> {
    if c.Reporting? then c.entries else []
  }

  function Count(es: seq<Entry>, e: Entry): nat {
    multiset(es)[e]
  }

  function HeldByCallers(callers: seq<Caller>, e: Entry): nat {
    if callers == [] then 0 else HeldByCallers(callers[..|callers| - 1], e) + Count(HeldByCaller(callers[|callers| - 1]), e)
  }

  /** How many times e occurs in the worker's hands, pending, recorded or dropped. */
  function Shared(s: State, e: Entry): nat {
    Count(HeldByWorker(s.worker), e) + Count(s.pending, e) + Count(s.recorded, e) + Count(s.dropped, e)
  }

  function Places(s: State, e: Entry): nat {
    Shared(s, e) + HeldByCallers(s.callers, e)
  }

  /** Every spawned subscriber is in exactly one place. */
  ghost predicate Conserved(s: State) {
    && (forall e :: Places(s, e) == Count(s.spawned, e))
    && (forall i | 0 <= i < |s.spawned| :: s.spawned[i].id == i)
  }

  lemma CountSplit(es: seq<Entry>, d: seq<Entry>, e: Entry)
    ensures Count(es + d, e) == Count(es, e) + Count(d, e)
    ensures Count([], e) == 0
    ensures es != [] ==> Count(es, e) == Count([es[0]], e) + Count(es[1..], e)
    ensures es + [] == es
  {
    if es != [] { assert es == [es[0]] + es[1..]; }
  }

  lemma {:induction false} UriSplit(es: seq<Entry>, uri: Uri, e: Entry)
    ensures Count(es, e) == Count(OfUri(es, uri), e) + Count(OtherUris(es, uri), e)
  {
    hide Count;
    CountSplit([], [], e);
    if es != [] {
      var n := |es| - 1;
      UriSplit(es[..n], uri, e);
      assert es == es[..n] + [es[n]];
      CountSplit(es[..n], [es[n]], e);
      CountSplit(OfUri(es[..n], uri), [es[n]], e);
      CountSplit(OtherUris(es[..n], uri), [es[n]], e);
    }
  }

  lemma {:induction false} HeldUpdate(callers: seq<Caller>, i: nat, c: Caller, e: Entry)
    requires i < |callers|
    ensures HeldByCallers(callers[i := c], e) + Count(HeldByCaller(callers[i]), e) == HeldByCallers(callers, e) + Count(HeldByCaller(c), e)
  {
    hide HeldByCaller, Count;
    var n := |callers| - 1;
    if i < n {
      HeldUpdate(callers[..n], i, c, e);
      assert callers[i := c][..n] == callers[..n][i := c];
    } else {
      assert callers[i := c][..n] == callers[..n];
    }
  }

  /** What the action spawns. */
  function NewEntries(s: State, a: Action): seq<Entry>
    requires Enabled(s, a)
  {
    if a.SpawnSub? && a.ok then [Entry(|s.spawned|, s.worker.item.uri)] else []
  }

  lemma WorkerShares(s: State, a: Action, e: Entry)
    requires Enabled(s, a) && !CallerAction(a)
    ensures Shared(Apply(s, a), e) == Shared(s, e) + Count(NewEntries(s, a), e)
    ensures Apply(s, a).callers == s.callers && Apply(s, a).spawned == s.spawned + NewEntries(s, a)
  {
    hide Count, OfUri, OtherUris;
    CountSplit([], [], e);
    if a.AppendSub? { CountSplit(s.pending, [s.worker.entry], e); }
    else if a.TakeSubs? { UriSplit(s.pending, s.worker.item.uri, e); }
    else if a.RunPub? { CountSplit(s.dropped, s.worker.entries, e); }
    else if a.RecordSub? {
      CountSplit(s.worker.entries, [], e);
      CountSplit(s.dropped, s.worker.entries, e);
      CountSplit(s.recorded, [s.worker.entries[0]], e);
    }
  }

  lemma CallerShares(s: State, a: Action, e: Entry)
    requires Enabled(s, a) && CallerAction(a)
    ensures Shared(Apply(s, a), e) + Count(HeldByCaller(NextCaller(s, a)), e) == Shared(s, e) + Count(HeldByCaller(s.callers[a.i]), e)
    ensures Apply(s, a).callers == s.callers[a.i := NextCaller(s, a)] && Apply(s, a).spawned == s.spawned
  {
    hide Count;
    CountSplit([], [], e);
    if a.Report? {
      CountSplit(s.callers[a.i].entries, [], e);
      CountSplit(s.recorded, [s.callers[a.i].entries[0]], e);
      CountSplit(s.dropped, s.callers[a.i].entries, e);
    }
  }

  lemma ConservedKept(s: State, a: Action)
    requires Conserved(s) && Enabled(s, a)
    ensures Conserved(Apply(s, a))
  {
    hide Count, Shared, HeldByCallers, HeldByCaller, Enabled, Apply;
    var t := Apply(s, a);
    forall e
      ensures Places(t, e) == Count(t.spawned, e)
    {
      PlacesKept(s, a, e);
    }
    if CallerAction(a) { CallerShares(s, a, Entry(0, 0)); } else { WorkerShares(s, a, Entry(0, 0)); }
    assert forall i | 0 <= i < |t.spawned| :: t.spawned[i].id == i;
  }

  lemma PlacesKept(s: State, a: Action, e: Entry)
    requires Enabled(s, a) && Places(s, e) == Count(s.spawned, e)
    ensures Places(Apply(s, a), e) == Count(Apply(s, a).spawned, e)
  {
    hide Count, Shared, HeldByCallers, HeldByCaller, Enabled, Apply, NewEntries;
    if CallerAction(a) {
      HeldInBounds(s, a);
      HeldUpdate(s.callers, a.i, NextCaller(s, a), e);
      CallerShares(s, a, e);
    } else {
      WorkerShares(s, a, e);
      CountSplit(s.spawned, NewEntries(s, a), e);
    }
  }

  lemma HeldInBounds(s: State, a: Action)
    requires Enabled(s, a) && CallerAction(a)
    ensures a.i < |s.callers|
  {
  }

  // ---------- whose subscribers a publisher waits for ----------

  lemma UriSnoc(es: seq<Entry>, d: Entry, uri: Uri)
    ensures OfUri(es + [d], uri) == OfUri(es, uri) + if d.uri == uri then [d] else []
    ensures OtherUris(es + [d], uri) == OtherUris(es, uri) + if d.uri == uri then [] else [d]
  {
    assert (es + [d])[..|es|] == es;
  }

  lemma {:induction false} UriParts(es: seq<Entry>, uri: Uri, e: Entry)
    ensures Count(OfUri(es, uri), e) == if e.uri == uri then Count(es, e) else 0
    ensures Count(OtherUris(es, uri), e) == if e.uri == uri then 0 else Count(es, e)
  {
    hide Count;
    CountSplit([], [], e);
    if es != [] {
      var front, last := es[..|es| - 1], es[|es| - 1];
      UriParts(front, uri, e);
      assert es == front + [last];
      UriSnoc(front, last, uri);
      CountSelf(last, e);
      hide OfUri, OtherUris;
      CountSplit(front, [last], e);
      CountSplit(OfUri(front, uri), if last.uri == uri then [last] else [], e);
      CountSplit(OtherUris(front, uri), if last.uri == uri then [] else [last], e);
    }
  }

  lemma CountSelf(d: Entry, e: Entry)
    ensures Count([d], e) == if d == e then 1 else 0
  {
  }

  /** A publisher takes every pending subscriber of its own URI and of no other. */
  lemma TakesItsOwn(s: State, e: Entry)
    requires Enabled(s, TakeSubs(false))
    ensures var t := Apply(s, TakeSubs(false));
            && t.worker.Publishing?
            && Count(t.worker.entries, e) == (if e.uri == s.worker.item.uri then Count(s.pending, e) else 0)
            && Count(t.pending, e) == (if e.uri == s.worker.item.uri then 0 else Count(s.pending, e))
  {
    hide Count, OfUri, OtherUris;
    UriParts(s.pending, s.worker.item.uri, e);
  }

  // ---------- stop ----------

  predicate Joined(c: Caller) {
    (c.Collecting? || c.Reporting? || c.Returned?) && c.joined
  }

  /** After a successful join the worker is gone, and after that call's collection
      nothing is pending any more. */
  ghost predicate JoinOk(s: State) {
    && (forall i | 0 <= i < |s.callers| && Joined(s.callers[i]) :: s.worker.Exited?)
    && (forall i | 0 <= i < |s.callers| && Joined(s.callers[i]) && !s.callers[i].Collecting? :: s.pending == [])
  }

  lemma JoinKept(s: State, a: Action)
    requires JoinOk(s) && Enabled(s, a)
    ensures JoinOk(Apply(s, a))
  {
    hide OfUri, OtherUris;
    var t := Apply(s, a);
    if CallerAction(a) {
      assert Joined(s.callers[a.i]) ==> s.worker.Exited?;
      forall i | 0 <= i < |t.callers| && Joined(t.callers[i])
        ensures t.worker.Exited? && (!t.callers[i].Collecting? ==> t.pending == [])
      {
        assert i != a.i ==> t.callers[i] == s.callers[i];
      }
    } else {
      forall i | 0 <= i < |t.callers| && Joined(t.callers[i])
        ensures t.worker.Exited? && (!t.callers[i].Collecting? ==> t.pending == [])
      {
        assert t.callers[i] == s.callers[i] && s.worker.Exited?;
      }
    }
  }

  // ---------- runs ----------

  ghost predicate Inv(s: State) {
    QueueOk(s) && Conserved(s) && JoinOk(s)
  }

  /** The worker runs and every call is yet to come. */
  predicate Initial(s: State) {
    s.queue == [] && s.unfinished == 0 && s.pending == [] && !s.cancel && s.worker.Idle?
    && s.spawned == [] && s.recorded == [] && s.dropped == []
    && forall c | c in s.callers :: c.Waiting? || c.StopCalled?
  }

  lemma {:induction false} NobodyHolds(callers: seq<Caller>, e: Entry)
    requires forall c | c in callers :: !c.Holding? && !c.Reporting?
    ensures InFlight(callers) == 0 && HeldByCallers(callers, e) == 0
  {
    if callers != [] { NobodyHolds(callers[..|callers| - 1], e); }
  }

  lemma InitialInv(s: State)
    requires Initial(s)
    ensures Inv(s)
  {
    NobodyHolds(s.callers, Entry(0, 0));
    forall e
      ensures Places(s, e) == Count(s.spawned, e)
    {
      NobodyHolds(s.callers, e);
    }
    assert forall i | 0 <= i < |s.callers| :: s.callers[i] in s.callers;
  }

  predicate Runs(s: State, run: seq<Action>)
    decreases |run|
  {
    run == [] || (Enabled(s, run[0]) && Runs(Apply(s, run[0]), run[1..]))
  }

  function After(s: State, run: seq<Action>): State
    requires Runs(s, run)
    decreases |run|
  {
    if run == [] then s else After(Apply(s, run[0]), run[1..])
  }

  lemma {:induction false} RunKeeps(s: State, run: seq<Action>)
    requires Inv(s) && Runs(s, run)
    ensures Inv(After(s, run))
    decreases |run|
  {
    hide QueueOk, Conserved, JoinOk, Enabled, Apply;
    if run != [] {
      QueueKept(s, run[0]);
      ConservedKept(s, run[0]);
      JoinKept(s, run[0]);
      RunKeeps(Apply(s, run[0]), run[1..]);
    }
  }

  /** An exception while subscribers are held, by a handler or by a call. */
  predicate Raises(a: Action) {
    (a.RunPub? || a.RecordSub? || a.Report?) && !a.ok
  }

  lemma {:induction false} NothingDropped(s: State, run: seq<Action>)
    requires Runs(s, run) && forall a | a in run :: !Raises(a)
    ensures After(s, run).dropped == s.dropped
    decreases |run|
  {
    hide OfUri, OtherUris;
    if run != [] {
      assert run[0] in run;
      NothingDropped(Apply(s, run[0]), run[1..]);
    }
  }

  // ---------- main results, for every interleaving ----------

  lemma {:induction false} CountDistinct(es: seq<Entry>, e: Entry)
    requires forall i | 0 <= i < |es| :: es[i].id == i
    ensures Count(es, e) == if e in es then 1 else 0
  {
    hide Count;
    CountSplit([], [], e);
    if es != [] {
      var n := |es| - 1;
      CountDistinct(es[..n], e);
      assert es == es[..n] + [es[n]];
      CountSplit(es[..n], [es[n]], e);
      CountSelf(es[n], e);
    }
  }

  /** No subscriber is recorded twice, and none that was not spawned. */
  lemma RecordedOnce(s: State, run: seq<Action>, e: Entry)
    requires Initial(s) && Runs(s, run)
    ensures var t := After(s, run);
            multiset(t.recorded)[e] <= if e in t.spawned then 1 else 0
  {
    hide Initial, Runs, After, QueueOk, JoinOk, HeldByCallers;
    InitialInv(s);
    RunKeeps(s, run);
    var t := After(s, run);
    CountDistinct(t.spawned, e);
    assert Places(t, e) == Count(t.spawned, e);
  }

  /** Once a stop has left after joining the worker, and no other call is in
      progress, every spawned subscriber was recorded exactly once or dropped by a
      handler or call that raised. */
  lemma AllRecorded(s: State, run: seq<Action>, i: nat)
    requires Initial(s) && Runs(s, run)
    requires var t := After(s, run);
             && i < |t.callers| && t.callers[i] == Returned(true, true)
             && forall c | c in t.callers :: c.Returned? || c.Waiting? || c.StopCalled?
    ensures var t := After(s, run);
            && multiset(t.recorded) + multiset(t.dropped) == multiset(t.spawned)
            && ((forall a | a in run :: !Raises(a)) ==> multiset(t.recorded) == multiset(t.spawned))
  {
    hide Runs, After, QueueOk, HeldByCallers;
    InitialInv(s);
    RunKeeps(s, run);
    var t := After(s, run);
    assert Joined(t.callers[i]);
    forall e
      ensures (multiset(t.recorded) + multiset(t.dropped))[e] == multiset(t.spawned)[e]
    {
      assert Places(t, e) == Count(t.spawned, e);
      NobodyHolds(t.callers, e);
    }
    assert multiset(t.recorded) + multiset(t.dropped) == multiset(t.spawned);
    if forall a | a in run :: !Raises(a) {
      NothingDropped(s, run);
      assert multiset(t.dropped) == multiset{};
    }
  }

  /** unfinished_tasks is never below the items around: task_done always has a task
      to account for, and a wait_all that is not timed out leaves with none around. */
  lemma QueueAccounted(s: State, run: seq<Action>)
    requires Initial(s) && Runs(s, run)
    ensures var t := After(s, run);
            && t.unfinished == |t.queue| + WorkerInFlight(t.worker) + InFlight(t.callers)
            && (Enabled(t, TaskDone) ==> t.unfinished >= 1)
            && (forall i | Enabled(t, DrainDone(i)) :: t.unfinished >= 1)
            && (forall i | Enabled(t, SeeQuiet(i)) :: t.queue == [] && (t.worker.Idle? || t.worker.Exited?))
  {
    hide Initial, Runs, After, Conserved, JoinOk, InFlight;
    InitialInv(s);
    RunKeeps(s, run);
    var t := After(s, run);
    forall i | Enabled(t, DrainDone(i))
      ensures t.unfinished >= 1
    {
      HoldingCounts(t.callers, i);
    }
  }

  lemma {:induction false} HoldingCounts(callers: seq<Caller>, i: nat)
    requires i < |callers| && callers[i].Holding?
    ensures InFlight(callers) >= 1
  {
    if i < |callers| - 1 { HoldingCounts(callers[..|callers| - 1], i); }
  }

  // ---------- operations are not skipped ----------

  /** The submitted operations of a run. */
  function Submitted(run: seq<Action>): nat {
    if run == [] then 0 else Submitted(run[1..]) + if run[0].Submit? then 1 else 0
  }

  /** The operations a handler took up: a subscriber started or failed to, a publisher
      begun, any other operation run. */
  function Handled(run: seq<Action>): nat {
    if run == [] then 0 else Handled(run[1..]) + if run[0].SpawnSub? || run[0].TakeSubs? || run[0].RunOther? then 1 else 0
  }

  function Unhandled(s: State): nat {
    |s.queue| + if s.worker.Got? || s.worker.Dispatched? then 1 else 0
  }

  /** Nobody has cancelled, drained the queue or told the worker to end. */
  ghost predicate Uncancelled(s: State) {
    && !s.cancel && Sentinel !in s.queue
    && (s.worker.Got? || s.worker.Dispatched? ==> !s.worker.item.Sentinel?)
    && forall c | c in s.callers :: !c.Draining? && !c.Holding? && !c.Posting?
  }

  lemma UncancelledStep(s: State, a: Action)
    requires Uncancelled(s) && Enabled(s, a) && !a.SetCancel? && !a.CallStop?
    ensures Uncancelled(Apply(s, a))
    ensures Unhandled(s) + (if a.Submit? then 1 else 0)
         == Unhandled(Apply(s, a)) + if a.SpawnSub? || a.TakeSubs? || a.RunOther? then 1 else 0
  {
    hide OfUri, OtherUris;
    if CallerAction(a) {
      assert s.callers[a.i] in s.callers;
    } else if a.Get? {
      assert s.queue[0] in s.queue;
    }
  }

  /** Without a timeout or a stop, every submitted operation is queued, in the worker's
      hands, or was taken up by its handler: none is skipped. */
  lemma {:induction false} NoneSkipped(s: State, run: seq<Action>)
    requires Uncancelled(s) && Runs(s, run) && forall a | a in run :: !a.SetCancel? && !a.CallStop?
    ensures Uncancelled(After(s, run)) && Unhandled(s) + Submitted(run) == Unhandled(After(s, run)) + Handled(run)
    decreases |run|
  {
    hide Enabled, Apply, Uncancelled, Unhandled;
    if run != [] {
      assert run[0] in run;
      UncancelledStep(s, run[0]);
      NoneSkipped(Apply(s, run[0]), run[1..]);
    }
  }

  lemma InitialUncancelled(s: State)
    requires Initial(s)
    ensures Uncancelled(s) && Unhandled(s) == 0
  {
  }
}
