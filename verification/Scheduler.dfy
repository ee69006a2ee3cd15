/** The event scheduler: a priority queue that feeds itself repeats and restores. */
module Scheduler {
  import opened Ordering
  import opened Wrappers

  // ---------- events ----------

  /** The keys of EVENT_SCHEMA; any other type is unknown. */
  datatype Kind =
    | LinkDown | LinkUp | FibAdd | FibDel | FibEnable | BwSet | ComputeCall
    | Put | Get | PubsubPub | PubsubSub | Ccninfo | HostAppRestart | Unknown(name: string)

  /** Same-timestamp priority; types without one of their own get 5. */
  function Priority(kind: Kind): int {
    match kind
    case Put => 1
    case Get => 3
    case PubsubPub => 2
    case PubsubSub => 0
    case _ => 5
  }

  /** Content operations are recorded by their own runner. */
  predicate IsContent(kind: Kind) {
    kind in {Put, Get, PubsubPub, PubsubSub, Ccninfo}
  }

  /** A `restore` dict: fields to override, possibly the type. */
  datatype Override = Override(kind: Option<Kind>, fields: map<string, string>)

  datatype Repeat = Repeat(interval: real, duration: Option<real>, count: Option<int>,
                           restore: Option<Override>, restoreType: Option<Kind>)

  datatype Event = Event(kind: Kind, fields: map<string, string>, repetition: Option<Repeat>)

  /** build_restore_event: `restore` wins over `restore_type`; both drop `repeat`. */
  function RestoreEvent(ev: Event): Option<Event> {
    if ev.repetition.None? then None
    else
      var r := ev.repetition.value;
      if r.restore.Some? then
        var o := r.restore.value;
        Some(Event(if o.kind.Some? then o.kind.value else ev.kind, ev.fields + o.fields, None))
      else if r.restoreType.Some? then Some(Event(r.restoreType.value, ev.fields, None))
      else None
  }

  /** The event has a restore to schedule: a positive duration, and something to restore to. */
  predicate Restores(ev: Event) {
    && ev.repetition.Some? && ev.repetition.value.duration.Some? && ev.repetition.value.duration.value > 0.0
    && (ev.repetition.value.restore.Some? || ev.repetition.value.restoreType.Some?)
  }

  /** `x` undoes `ev`: the fields of `restore` have its values and all others those of
      the event; the type is the override's if it has one. Without `restore`, only the
      type changes, to `restore_type`. A restore never repeats. */
  predicate Restored(ev: Event, x: Event)
    requires Restores(ev)
  {
    var r := ev.repetition.value;
    && x.repetition.None?
    && (match r.restore
        case Some(o) =>
          && x.kind == (if o.kind.Some? then o.kind.value else ev.kind)
          && x.fields.Keys == ev.fields.Keys + o.fields.Keys
          && (forall key | key in o.fields :: x.fields[key] == o.fields[key])
          && (forall key | key in ev.fields && key !in o.fields :: x.fields[key] == ev.fields[key])
        case None => x.kind == r.restoreType.value && x.fields == ev.fields)
  }

  lemma RestoredIs(ev: Event, x: Event)
    requires Restores(ev)
    ensures Restored(ev, x) <==> RestoreEvent(ev) == Some(x)
  {
    var r := ev.repetition.value;
    if Restored(ev, x) && r.restore.Some? {
      assert x.fields == ev.fields + r.restore.value.fields;
    }
  }

  /** The event fires again after this time. */
  predicate Repeats(ev: Event) {
    ev.repetition.Some? && ev.repetition.value.interval > 0.0
    && (ev.repetition.value.count.Some? ==> ev.repetition.value.count.value > 1)
  }

  /** `y` is `ev` with one repetition less. */
  predicate Reduced(ev: Event, y: Event)
    requires Repeats(ev)
  {
    var r := ev.repetition.value;
    && y.kind == ev.kind && y.fields == ev.fields && y.repetition.Some?
    && y.repetition.value.interval == r.interval && y.repetition.value.duration == r.duration
    && y.repetition.value.restore == r.restore && y.repetition.value.restoreType == r.restoreType
    && (match r.count
        case Some(n) => y.repetition.value.count == Some(n - 1)
        case None => y.repetition.value.count == None)
  }

  function Strip(ev: Event): Event {
    ev.(repetition := None)
  }

  // ---------- the declarative expansion ----------

  datatype Firing = Firing(at: real, priority: int, event: Event)

  function FiringOf(at: real, ev: Event): multiset<Firing> {
    if ev.kind.Unknown? then multiset{} else multiset{Firing(at, Priority(ev.kind), Strip(ev))}
  }

  /** When and what the event is restored to after each firing, if at all. */
  function RestoreAt(ev: Event): Option<(real, Event)> {
    if ev.repetition.Some? && ev.repetition.value.duration.Some? && ev.repetition.value.duration.value > 0.0 && RestoreEvent(ev).Some?
    then Some((ev.repetition.value.duration.value, RestoreEvent(ev).value)) else None
  }

  /** One firing with its one restore, which spawns nothing. */
  function Occurrence(at: real, ev: Event): multiset<Firing> {
    FiringOf(at, ev) + if RestoreAt(ev).Some? then FiringOf(at + RestoreAt(ev).value.0, RestoreAt(ev).value.1) else multiset{}
  }

  /** Some(n): fires n times, `interval` apart. None: forever. */
  function Occurrences(ev: Event): Option<nat> {
    if ev.repetition.None? || ev.repetition.value.interval <= 0.0 then Some(1)
    else match ev.repetition.value.count
      case None => None
      case Some(n) => Some(if n < 1 then 1 else n)
  }

  function Interval(ev: Event): real {
    if ev.repetition.Some? then ev.repetition.value.interval else 0.0
  }

  /** The time of the k-th occurrence, counted from 0. */
  function TimeOf(at: real, interval: real, k: nat): real {
    at + k as real * interval
  }

  /** Occurrences at at, at + interval, ..., at + (n - 1) * interval. */
  function FirstOccurrences(at: real, ev: Event, n: nat): multiset<Firing> {
    if n == 0 then multiset{} else FirstOccurrences(at, ev, n - 1) + Occurrence(TimeOf(at, Interval(ev), n - 1), ev)
  }

  predicate Finite(ev: Event) {
    !ev.kind.Unknown? ==> Occurrences(ev).Some?
  }

  /** Everything an event scheduled at `at` stands for. Unknown types are
      discarded when popped, repeats included. */
  function Expansion(at: real, ev: Event): multiset<Firing>
    requires Finite(ev)
  {
    if ev.kind.Unknown? then multiset{} else FirstOccurrences(at, ev, Occurrences(ev).value)
  }

  // ---------- the scheduler state ----------

  datatype Entry = Entry(at: real, priority: int, seqNo: nat, event: Event)

  predicate EntryLeq(a: Entry, b: Entry) {
    a.at < b.at || (a.at == b.at && (a.priority < b.priority || (a.priority == b.priority && a.seqNo <= b.seqNo)))
  }

  lemma EntryOrder()
    ensures TotalPreorder(EntryLeq)
  {
  }

  /** `_heap` in pop order, `_seq`, and what has been fired so far. */
  datatype State = State(heap: seq<Entry>, nextSeq: nat, fired: seq<Firing>)

  ghost predicate Ready(st: State) {
    Ordered(EntryLeq, st.heap) && forall e | e in st.heap :: e.priority == Priority(e.event.kind)
  }

  /** _push_event */
  function PushEvent(st: State, at: real, ev: Event): (r: State)
    requires Ready(st)
    ensures Ready(r)
  {
    EntryOrder();
    State(Push(EntryLeq, st.heap, Entry(at, Priority(ev.kind), st.nextSeq, ev)), st.nextSeq + 1, st.fired)
  }

  /** The next repetition, if there is one. */
  function NextEvent(ev: Event): Option<Event> {
    if ev.repetition.None? || ev.repetition.value.interval <= 0.0 then None
    else match ev.repetition.value.count
      case None => Some(ev)
      case Some(n) => if n - 1 <= 0 then None else Some(ev.(repetition := Some(ev.repetition.value.(count := Some(n - 1)))))
  }

  /** _handle_repeat */
  function HandleRepeat(st: State, at: real, ev: Event): (r: State)
    requires Ready(st)
    ensures Ready(r) && r.fired == st.fired
  {
    var s1 := if RestoreAt(ev).Some? then PushEvent(st, at + RestoreAt(ev).value.0, RestoreAt(ev).value.1) else st;
    if NextEvent(ev).Some? then PushEvent(s1, at + Interval(ev), NextEvent(ev).value) else s1
  }

  /** How a handler call ends: a verdict, an Exception, or a BaseException. */
  datatype Verdict = Passed | ReportedFailure | Raised | Fatal

  /** One loop iteration: pop, fire unless unknown, schedule what follows unless fatal. */
  function Step(st: State, v: Verdict): (r: State)
    requires Ready(st) && st.heap != []
    ensures Ready(r)
  {
    var e := st.heap[0];
    var popped := st.(heap := st.heap[1..]);
    assert st.heap == [e] + st.heap[1..];
    if e.event.kind.Unknown? then popped
    else
      var fired := popped.(fired := st.fired + [Firing(e.at, e.priority, Strip(e.event))]);
      if v == Fatal then fired else HandleRepeat(fired, e.at, e.event)
  }

  // ---------- conservation ----------

  ghost predicate AllFinite(heap: seq<Entry>) {
    forall e | e in heap :: Finite(e.event)
  }

  function ExpandAll(heap: seq<Entry>): multiset<Firing>
    requires AllFinite(heap)
  {
    if heap == [] then multiset{} else ExpandAll(heap[..|heap| - 1]) + Expansion(heap[|heap| - 1].at, heap[|heap| - 1].event)
  }

  lemma ExpandMore(a: seq<Entry>, e: Entry)
    requires AllFinite(a + [e])
    ensures AllFinite(a) && Finite(e.event)
    ensures ExpandAll(a + [e]) == ExpandAll(a) + Expansion(e.at, e.event)
  {
    hide Finite, Expansion;
    assert forall x | x in a :: x in a + [e];
    assert e in a + [e] && (a + [e])[..|a|] == a;
  }

  lemma {:induction false} ExpandInsert(a: seq<Entry>, e: Entry, b: seq<Entry>)
    requires AllFinite(a + [e] + b)
    ensures AllFinite(a + b) && Finite(e.event)
    ensures ExpandAll(a + [e] + b) == ExpandAll(a + b) + Expansion(e.at, e.event)
  {
    hide Finite, Expansion, ExpandAll;
    assert e in a + [e] + b;
    assert forall x | x in a + b :: x in a + [e] + b;
    if b == [] {
      assert a + [e] + b == a + [e] && a + b == a;
      ExpandMore(a, e);
    } else {
      var c, l := b[..|b| - 1], b[|b| - 1];
      assert a + [e] + b == (a + [e] + c) + [l] && a + b == (a + c) + [l];
      ExpandMore(a + [e] + c, l);
      ExpandMore(a + c, l);
      ExpandInsert(a, e, c);
    }
  }

  /** Where ordered insertion puts an element. */
  lemma {:induction false} PushSplits(q: seq<Entry>, e: Entry) returns (a: seq<Entry>, b: seq<Entry>)
    requires TotalPreorder(EntryLeq) && Ordered(EntryLeq, q)
    ensures q == a + b && Push(EntryLeq, q, e) == a + [e] + b
  {
    hide TotalPreorder;
    if q == [] {
      a, b := [], [];
    } else if EntryLeq(q[0], e) {
      a, b := PushSplits(q[1..], e);
      a := [q[0]] + a;
    } else {
      a, b := [], q;
    }
  }

  lemma ExpandPush(st: State, at: real, ev: Event)
    requires Ready(st) && AllFinite(st.heap) && Finite(ev)
    ensures AllFinite(PushEvent(st, at, ev).heap)
    ensures ExpandAll(PushEvent(st, at, ev).heap) == ExpandAll(st.heap) + Expansion(at, ev)
  {
    EntryOrder();
    var e := Entry(at, Priority(ev.kind), st.nextSeq, ev);
    var a, b := PushSplits(st.heap, e);
    assert AllFinite(a + [e] + b) by {
      assert forall x | x in a + [e] + b :: x in st.heap || x == e;
    }
    ExpandInsert(a, e, b);
  }

  lemma TimeShift(at: real, interval: real, k: nat)
    ensures TimeOf(at, interval, 0) == at
    ensures TimeOf(at + interval, interval, k) == TimeOf(at, interval, k + 1)
  {
    assert (k + 1) as real * interval == k as real * interval + interval;
  }

  /** Two events that fire and restore alike, at the same interval. */
  ghost predicate Alike(ev: Event, later: Event) {
    Interval(later) == Interval(ev) && forall t :: Occurrence(t, later) == Occurrence(t, ev)
  }

  /** Peeling the first occurrence off shifts the rest by one interval. */
  lemma {:induction false} UnrollFront(at: real, ev: Event, later: Event, n: nat)
    requires n >= 1 && Alike(ev, later)
    ensures FirstOccurrences(at, ev, n) == Occurrence(at, ev) + FirstOccurrences(at + Interval(ev), later, n - 1)
  {
    hide Occurrence, TimeOf, Interval;
    var x := Interval(ev);
    TimeShift(at, x, 0);
    if n == 1 {
      assert FirstOccurrences(at, ev, 1) == FirstOccurrences(at, ev, 0) + Occurrence(TimeOf(at, x, 0), ev);
    } else {
      UnrollFront(at, ev, later, n - 1);
      TimeShift(at, x, n - 2);
    }
  }

  lemma LaterAlike(ev: Event)
    requires NextEvent(ev).Some?
    ensures Alike(ev, NextEvent(ev).value) && NextEvent(ev).value.kind == ev.kind
  {
    var next := NextEvent(ev).value;
    assert RestoreEvent(next) == RestoreEvent(ev) && Strip(next) == Strip(ev);
    assert RestoreAt(next) == RestoreAt(ev);
    hide RestoreEvent, RestoreAt, FiringOf, Strip;
  }

  lemma OneOccurrence(at: real, ev: Event)
    requires !ev.kind.Unknown? && Occurrences(ev) == Some(1)
    ensures Finite(ev) && Expansion(at, ev) == Occurrence(at, ev)
  {
    hide Occurrence, TimeOf, Interval;
    TimeShift(at, Interval(ev), 0);
    assert FirstOccurrences(at, ev, 1) == FirstOccurrences(at, ev, 0) + Occurrence(TimeOf(at, Interval(ev), 0), ev);
  }

  /** One occurrence, said of its own fields: the event without its repeat, and a
      duration later the event that undoes it, if there is one of a known type. */
  lemma OccurrenceIs(at: real, ev: Event, x: Event)
    requires !ev.kind.Unknown? && (Restores(ev) ==> Restored(ev, x))
    ensures Occurrence(at, ev) == multiset{Firing(at, Priority(ev.kind), Event(ev.kind, ev.fields, None))}
              + (if Restores(ev) && !x.kind.Unknown? then multiset{Firing(at + ev.repetition.value.duration.value, Priority(x.kind), x)}
                 else multiset{})
  {
    if Restores(ev) { RestoredIs(ev, x); }
  }

  /** A restore fires once and spawns nothing. */
  lemma RestoreExpansion(at: real, ev: Event)
    requires ev.repetition.None?
    ensures Finite(ev) && Expansion(at, ev) == FiringOf(at, ev)
  {
    if !ev.kind.Unknown? {
      OneOccurrence(at, ev);
    }
  }

  lemma OccurrencesStep(ev: Event)
    requires !ev.kind.Unknown? && Finite(ev)
    ensures NextEvent(ev).None? ==> Occurrences(ev) == Some(1)
    ensures NextEvent(ev).Some? ==> Occurrences(ev).value >= 1 && Occurrences(NextEvent(ev).value) == Some(Occurrences(ev).value - 1)
  {
  }

  /** The firings an event stands for: its occurrence now and its next repetition. */
  lemma ExpansionStep(at: real, ev: Event)
    requires !ev.kind.Unknown? && Finite(ev)
    ensures NextEvent(ev).Some? ==> Finite(NextEvent(ev).value)
    ensures Expansion(at, ev) == Occurrence(at, ev)
              + (if NextEvent(ev).Some? then Expansion(at + Interval(ev), NextEvent(ev).value) else multiset{})
  {
    hide Occurrence, Occurrences, Interval, NextEvent, FirstOccurrences, Alike;
    OccurrencesStep(ev);
    if NextEvent(ev).Some? {
      LaterAlike(ev);
      UnrollFront(at, ev, NextEvent(ev).value, Occurrences(ev).value);
    } else {
      OneOccurrence(at, ev);
    }
  }

  /** An occurrence is its firing and the expansion of its restore. */
  lemma OccurrenceParts(at: real, ev: Event)
    requires !ev.kind.Unknown?
    ensures RestoreAt(ev).Some? ==> Finite(RestoreAt(ev).value.1)
    ensures Occurrence(at, ev) == multiset{Firing(at, Priority(ev.kind), Strip(ev))}
              + (if RestoreAt(ev).Some? then Expansion(at + RestoreAt(ev).value.0, RestoreAt(ev).value.1) else multiset{})
  {
    if RestoreAt(ev).Some? {
      RestoreExpansion(at + RestoreAt(ev).value.0, RestoreAt(ev).value.1);
    }
    hide Expansion;
  }

  /** All that has fired or is still due. */
  function Account(st: State): multiset<Firing>
    requires AllFinite(st.heap)
  {
    multiset(st.fired) + ExpandAll(st.heap)
  }

  lemma RepeatAccount(st: State, at: real, ev: Event)
    requires Ready(st) && AllFinite(st.heap) && !ev.kind.Unknown? && Finite(ev)
    ensures AllFinite(HandleRepeat(st, at, ev).heap)
    ensures multiset{Firing(at, Priority(ev.kind), Strip(ev))} + ExpandAll(HandleRepeat(st, at, ev).heap)
         == ExpandAll(st.heap) + Expansion(at, ev)
  {
    hide Expansion, Occurrence, ExpandAll, RestoreAt, NextEvent, Finite, AllFinite, PushEvent, Ready, Interval;
    ExpansionStep(at, ev);
    OccurrenceParts(at, ev);
    var s1 := st;
    if RestoreAt(ev).Some? {
      s1 := PushEvent(st, at + RestoreAt(ev).value.0, RestoreAt(ev).value.1);
      ExpandPush(st, at + RestoreAt(ev).value.0, RestoreAt(ev).value.1);
    }
    if NextEvent(ev).Some? {
      ExpandPush(s1, at + Interval(ev), NextEvent(ev).value);
    }
  }

  /** No step that is not fatal loses or invents a firing. */
  lemma StepConserves(st: State, v: Verdict)
    requires Ready(st) && st.heap != [] && AllFinite(st.heap) && v != Fatal
    ensures AllFinite(Step(st, v).heap) && Account(Step(st, v)) == Account(st)
  {
    hide Expansion, ExpandAll, HandleRepeat, Strip;
    var e := Popped(st);
    if !e.event.kind.Unknown? {
      var f := Firing(e.at, e.priority, Strip(e.event));
      RepeatAccount(State(st.heap[1..], st.nextSeq, st.fired + [f]), e.at, e.event);
    }
  }

  lemma Popped(st: State) returns (e: Entry)
    requires Ready(st) && st.heap != [] && AllFinite(st.heap)
    ensures e == st.heap[0] && e.priority == Priority(e.event.kind) && Finite(e.event)
    ensures AllFinite(st.heap[1..]) && Ready(st.(heap := st.heap[1..]))
    ensures forall f :: Ready(State(st.heap[1..], st.nextSeq, f))
    ensures ExpandAll(st.heap) == ExpandAll(st.heap[1..]) + Expansion(e.at, e.event)
    ensures e.event.kind.Unknown? ==> ExpandAll(st.heap) == ExpandAll(st.heap[1..])
  {
    e := st.heap[0];
    var rest := st.heap[1..];
    assert e in st.heap;
    assert st.heap == [] + [e] + rest && [] + rest == rest;
    ExpandInsert([], e, rest);
  }

  /** A fatal handler error only loses what its own event still stood for. */
  lemma FatalLoses(st: State)
    requires Ready(st) && st.heap != [] && AllFinite(st.heap)
    ensures AllFinite(Step(st, Fatal).heap) && Account(Step(st, Fatal)) <= Account(st)
    ensures var e := st.heap[0];
            !e.event.kind.Unknown? ==>
              Account(st) == Account(Step(st, Fatal)) + (Expansion(e.at, e.event) - multiset{Firing(e.at, e.priority, Strip(e.event))})
    ensures st.heap[0].event.kind.Unknown? ==> Account(Step(st, Fatal)) == Account(st)
  {
    hide Expansion, ExpandAll, Occurrence, Strip;
    var e := Popped(st);
    if !e.event.kind.Unknown? {
      ExpansionStep(e.at, e.event);
      OccurrenceParts(e.at, e.event);
    }
  }

  // ---------- order ----------

  predicate Before(a: Firing, b: Firing) {
    a.at < b.at || (a.at == b.at && a.priority <= b.priority)
  }

  predicate NotBefore(e: Entry, f: Firing) {
    f.at < e.at || (f.at == e.at && f.priority <= e.priority)
  }

  /** Fired in order of (at, priority), and nothing left ranks before what was fired. */
  ghost predicate InOrder(st: State) {
    && (forall i, j | 0 <= i < j < |st.fired| :: Before(st.fired[i], st.fired[j]))
    && (forall f, e | f in st.fired && e in st.heap :: NotBefore(e, f))
  }

  lemma PushKeepsOrder(st: State, at: real, ev: Event)
    requires Ready(st) && InOrder(st) && forall f | f in st.fired :: f.at < at
    ensures InOrder(PushEvent(st, at, ev))
  {
    EntryOrder();
  }

  lemma StepInOrder(st: State, v: Verdict)
    requires Ready(st) && st.heap != [] && InOrder(st)
    ensures InOrder(Step(st, v))
  {
    hide HandleRepeat, InOrder, Ready, Strip;
    TailReady(st);
    var e := st.heap[0];
    FireInOrder(st);
    if !e.event.kind.Unknown? {
      RepeatInOrder(State(st.heap[1..], st.nextSeq, st.fired + [Firing(e.at, e.priority, Strip(e.event))]), e.at, e.event);
    }
  }

  lemma TailReady(s: State)
    requires Ready(s) && s.heap != []
    ensures forall f :: Ready(State(s.heap[1..], s.nextSeq, f))
  {
    assert s.heap == [s.heap[0]] + s.heap[1..];
  }

  /** Taking out the head, and firing it, keeps the order. */
  lemma FireInOrder(st: State)
    requires Ready(st) && st.heap != [] && InOrder(st)
    ensures InOrder(st.(heap := st.heap[1..]))
    ensures var f := Firing(st.heap[0].at, st.heap[0].priority, Strip(st.heap[0].event));
            InOrder(State(st.heap[1..], st.nextSeq, st.fired + [f])) && forall g | g in st.fired + [f] :: g.at <= f.at
  {
    hide Strip;
    var e, rest := st.heap[0], st.heap[1..];
    var f := Firing(e.at, e.priority, Strip(e.event));
    assert st.heap == [e] + rest;
    assert e in st.heap && forall x | x in rest :: x in st.heap;
    forall x | x in rest ensures NotBefore(x, f) {
      var i :| 0 <= i < |rest| && rest[i] == x;
      assert EntryLeq(st.heap[0], st.heap[i + 1]);
    }
    forall g | g in st.fired ensures Before(g, f) {
      assert NotBefore(e, g);
    }
  }

  lemma RepeatInOrder(st: State, at: real, ev: Event)
    requires Ready(st) && InOrder(st) && forall f | f in st.fired :: f.at <= at
    ensures InOrder(HandleRepeat(st, at, ev))
  {
    hide InOrder, Ready;
    var s1 := st;
    if RestoreAt(ev).Some? {
      s1 := PushEvent(st, at + RestoreAt(ev).value.0, RestoreAt(ev).value.1);
      PushKeepsOrder(st, at + RestoreAt(ev).value.0, RestoreAt(ev).value.1);
    }
    if NextEvent(ev).Some? {
      PushKeepsOrder(s1, at + Interval(ev), NextEvent(ev).value);
    }
  }

  /** Nothing an event stands for ranks before its own entry. */
  lemma {:induction false} FirstOccurrencesLater(at: real, ev: Event, n: nat, g: Firing)
    requires g in FirstOccurrences(at, ev, n) && (n > 1 ==> Interval(ev) > 0.0)
    ensures g.at > at || g == Firing(at, Priority(ev.kind), Strip(ev))
  {
    hide Interval;
    if g in FirstOccurrences(at, ev, n - 1) {
      FirstOccurrencesLater(at, ev, n - 1, g);
    } else {
      OccurrenceLater(TimeOf(at, Interval(ev), n - 1), ev, g);
      hide Occurrence;
      if n > 1 { TimePositive(at, Interval(ev), n - 1); }
    }
  }

  lemma TimePositive(at: real, interval: real, k: nat)
    requires interval > 0.0 && k > 0
    ensures TimeOf(at, interval, k) > at
  {
  }

  lemma OccurrenceLater(at: real, ev: Event, g: Firing)
    requires g in Occurrence(at, ev)
    ensures g.at > at || g == Firing(at, Priority(ev.kind), Strip(ev))
  {
  }

  /** Whatever is still due ranks no earlier than whatever has fired. */
  lemma {:induction false} DueLater(st: State, heap: seq<Entry>, f: Firing, g: Firing)
    requires AllFinite(heap) && forall e | e in heap :: NotBefore(e, f) && e.priority == Priority(e.event.kind)
    requires g in ExpandAll(heap)
    ensures Before(f, g)
  {
    var front, last := heap[..|heap| - 1], heap[|heap| - 1];
    assert last in heap;
    if g in ExpandAll(front) {
      DueLater(st, front, f, g);
    } else {
      FirstOccurrencesLater(last.at, last.event, Occurrences(last.event).value, g);
    }
  }

  // ---------- runs ----------

  /** The scheduler after handling as many events as there are verdicts, or fewer if the heap runs dry. */
  function RunSteps(st: State, vs: seq<Verdict>): (r: State)
    requires Ready(st)
    ensures Ready(r)
  {
    if vs == [] then st else
      var s := RunSteps(st, vs[..|vs| - 1]);
      if s.heap == [] then s else Step(s, vs[|vs| - 1])
  }

  lemma {:induction false} RunConserves(st: State, vs: seq<Verdict>)
    requires Ready(st) && AllFinite(st.heap) && Fatal !in vs
    ensures AllFinite(RunSteps(st, vs).heap) && Account(RunSteps(st, vs)) == Account(st)
  {
    hide Step, Account, AllFinite, Ready;
    if vs != [] {
      RunConserves(st, vs[..|vs| - 1]);
      var s := RunSteps(st, vs[..|vs| - 1]);
      if s.heap != [] { StepConserves(s, vs[|vs| - 1]); }
    }
  }

  lemma {:induction false} RunInOrder(st: State, vs: seq<Verdict>)
    requires Ready(st) && InOrder(st)
    ensures InOrder(RunSteps(st, vs))
  {
    hide Step, InOrder, Ready;
    if vs != [] {
      RunInOrder(st, vs[..|vs| - 1]);
      var s := RunSteps(st, vs[..|vs| - 1]);
      if s.heap != [] { StepInOrder(s, vs[|vs| - 1]); }
    }
  }

  /** The constructor's pushes. */
  function Loaded(events: seq<(real, Event)>): (st: State)
    ensures Ready(st) && st.fired == []
  {
    if events == [] then State([], 0, []) else
      PushEvent(Loaded(events[..|events| - 1]), events[|events| - 1].0, events[|events| - 1].1)
  }

  ghost predicate FiniteEvents(events: seq<(real, Event)>) {
    forall e | e in events :: Finite(e.1)
  }

  /** The declarative schedule: the expansions of all configured events. */
  ghost function Expected(events: seq<(real, Event)>): multiset<Firing>
    requires FiniteEvents(events)
  {
    if events == [] then multiset{} else
      Expected(events[..|events| - 1]) + Expansion(events[|events| - 1].0, events[|events| - 1].1)
  }

  lemma {:induction false} LoadedExpands(events: seq<(real, Event)>)
    requires FiniteEvents(events)
    ensures AllFinite(Loaded(events).heap) && Account(Loaded(events)) == Expected(events)
  {
    if events != [] {
      var front, last := events[..|events| - 1], events[|events| - 1];
      hide Finite, Expansion, PushEvent;
      LoadedExpands(front);
      ExpandPush(Loaded(front), last.0, last.1);
    }
  }

  /** Every run without a fatal error fires a prefix of an ordered enumeration of
      the declarative schedule: it is in order, what it fired and what is still
      due make up the schedule exactly, and what is due ranks no earlier. When
      the heap is empty the whole schedule has been fired. */
  lemma RunRefines(events: seq<(real, Event)>, vs: seq<Verdict>)
    requires FiniteEvents(events) && Fatal !in vs
    ensures var st := RunSteps(Loaded(events), vs);
            && InOrder(st) && AllFinite(st.heap)
            && multiset(st.fired) + ExpandAll(st.heap) == Expected(events)
            && (forall f, g | f in st.fired && g in ExpandAll(st.heap) :: Before(f, g))
            && (st.heap == [] ==> multiset(st.fired) == Expected(events))
  {
    hide Step, Expansion, RunSteps, PushEvent;
    LoadedExpands(events);
    RunConserves(Loaded(events), vs);
    RunInOrder(Loaded(events), vs);
    var st := RunSteps(Loaded(events), vs);
    forall f, g | f in st.fired && g in ExpandAll(st.heap) ensures Before(f, g) {
      DueLater(st, st.heap, f, g);
    }
  }

  lemma {:induction false} ConfiguredExpected(events: seq<(real, Event)>, i: nat)
    requires FiniteEvents(events) && i < |events|
    ensures Finite(events[i].1) && Expansion(events[i].0, events[i].1) <= Expected(events)
  {
    hide Expansion, Finite;
    assert events[i] in events;
    if i < |events| - 1 { ConfiguredExpected(events[..|events| - 1], i); }
  }

  lemma {:induction false} OccurrenceIn(at: real, ev: Event, n: nat, k: nat)
    requires k < n
    ensures Occurrence(TimeOf(at, Interval(ev), k), ev) <= FirstOccurrences(at, ev, n)
  {
    hide Occurrence, TimeOf, Interval;
    if k < n - 1 { OccurrenceIn(at, ev, n - 1, k); }
  }

  /** Every occurrence of a configured event is in the schedule. */
  lemma OccurrenceExpected(events: seq<(real, Event)>, i: nat, k: nat)
    requires FiniteEvents(events) && i < |events| && !events[i].1.kind.Unknown? && k < Occurrences(events[i].1).value
    ensures Occurrence(TimeOf(events[i].0, Interval(events[i].1), k), events[i].1) <= Expected(events)
  {
    hide Occurrence, TimeOf, Interval, Expected, FirstOccurrences;
    ConfiguredExpected(events, i);
    ExpansionIs(events[i].0, events[i].1);
    OccurrenceIn(events[i].0, events[i].1, Occurrences(events[i].1).value, k);
  }

  /** When the queue has drained without a fatal error, every occurrence of every
      configured event has fired, and its restore a duration later. */
  lemma RestoresFire(events: seq<(real, Event)>, vs: seq<Verdict>, i: nat, k: nat, ev: Event, at: real, x: Event)
    requires FiniteEvents(events) && Fatal !in vs && RunSteps(Loaded(events), vs).heap == []
    requires i < |events| && events[i] == (at, ev) && !ev.kind.Unknown? && k < Occurrences(ev).value
    requires Restores(ev) ==> Restored(ev, x)
    ensures Firing(TimeOf(at, Interval(ev), k), Priority(ev.kind), Event(ev.kind, ev.fields, None)) in RunSteps(Loaded(events), vs).fired
    ensures Restores(ev) && !x.kind.Unknown? ==>
              Firing(TimeOf(at, Interval(ev), k) + ev.repetition.value.duration.value, Priority(x.kind), x) in RunSteps(Loaded(events), vs).fired
  {
    hide Occurrence, TimeOf, Interval, Expected, RunSteps, Loaded, Occurrences, FiniteEvents, Ready, InOrder, ExpandAll, AllFinite, Before, Restored, Priority;
    var fired := RunSteps(Loaded(events), vs).fired;
    RunRefines(events, vs);
    OccurrenceExpected(events, i, k);
    OccurrenceIs(TimeOf(at, Interval(ev), k), ev, x);
    OccurrenceHas(Occurrence(TimeOf(at, Interval(ev), k), ev), fired);
  }

  lemma ExpansionIs(at: real, ev: Event)
    requires Finite(ev) && !ev.kind.Unknown?
    ensures Occurrences(ev).Some? && Expansion(at, ev) == FirstOccurrences(at, ev, Occurrences(ev).value)
  {
  }

  lemma OccurrenceHas(some: multiset<Firing>, fired: seq<Firing>)
    requires some <= multiset(fired)
    ensures forall f | f in some :: f in fired
  {
    forall f | f in some
      ensures f in fired
    {
      assert f in multiset(fired);
    }
  }

  // ---------- which content operation comes first ----------

  /** A subscriber before a put, before a publisher, before a get, before the rest. */
  predicate Sooner(a: Kind, b: Kind) {
    || (a.PubsubSub? && !b.PubsubSub?)
    || (a.Put? && !b.PubsubSub? && !b.Put?)
    || (a.PubsubPub? && !b.PubsubSub? && !b.Put? && !b.PubsubPub?)
    || (a.Get? && !b.PubsubSub? && !b.Put? && !b.PubsubPub? && !b.Get?)
  }

  ghost predicate Prioritized(fired: seq<Firing>) {
    forall f | f in fired :: f.priority == Priority(f.event.kind)
  }

  lemma {:induction false} RunPrioritizes(st: State, vs: seq<Verdict>)
    requires Ready(st) && Prioritized(st.fired)
    ensures Prioritized(RunSteps(st, vs).fired)
  {
    hide HandleRepeat, PushEvent;
    if vs != [] {
      RunPrioritizes(st, vs[..|vs| - 1]);
      var s := RunSteps(st, vs[..|vs| - 1]);
      if s.heap != [] {
        StepFires(s, vs[|vs| - 1]);
        HeadPriority(s);
      }
    }
  }

  lemma HeadPriority(s: State)
    requires Ready(s) && s.heap != []
    ensures s.heap[0].priority == Priority(s.heap[0].event.kind)
  {
    assert s.heap[0] in s.heap;
  }

  lemma SoonerRanks(a: Kind, b: Kind)
    requires Sooner(a, b)
    ensures Priority(a) < Priority(b)
  {
  }

  lemma OrderAt(st: State, i: nat, j: nat)
    requires InOrder(st) && i < |st.fired| && j < |st.fired|
    ensures i < j ==> Before(st.fired[i], st.fired[j])
  {
  }

  /** In every run, events due at the same time fire in the order of their types. */
  lemma TypesInOrder(events: seq<(real, Event)>, vs: seq<Verdict>, i: nat, j: nat)
    requires var fired := RunSteps(Loaded(events), vs).fired;
             i < |fired| && j < |fired| && fired[i].at == fired[j].at && Sooner(fired[i].event.kind, fired[j].event.kind)
    ensures i < j
  {
    hide RunSteps, Loaded, Ready;
    var st := RunSteps(Loaded(events), vs);
    RunInOrder(Loaded(events), vs);
    RunPrioritizes(Loaded(events), vs);
    assert st.fired[i] in st.fired && st.fired[j] in st.fired;
    SoonerRanks(st.fired[i].event.kind, st.fired[j].event.kind);
    OrderAt(st, j, i);
  }

  // ---------- outcome records ----------

  /** One record_event call: the firing and whether its handler succeeded. */
  datatype Record = Record(firing: Firing, success: bool)

  /** _record_event_outcome: content operations are recorded elsewhere, and a
      fatal error leaves no record. */
  function RecordOf(e: Entry, v: Verdict): seq<Record> {
    if e.event.kind.Unknown? || v == Fatal || IsContent(e.event.kind) then []
    else [Record(Firing(e.at, e.priority, Strip(e.event)), v == Passed)]
  }

  function Records(st: State, vs: seq<Verdict>): seq<Record>
    requires Ready(st)
  {
    if vs == [] then [] else
      var s := RunSteps(st, vs[..|vs| - 1]);
      Records(st, vs[..|vs| - 1]) + if s.heap == [] then [] else RecordOf(s.heap[0], vs[|vs| - 1])
  }

  /** The i-th verdict is the handler's, unless the event popped then had none. */
  predicate Obeyed(st: State, vs: seq<Verdict>, i: nat, given: Verdict)
    requires Ready(st) && i < |vs|
  {
    var s := RunSteps(st, vs[..i]);
    vs[i] == given || (vs[i] == Passed && s.heap != [] && s.heap[0].event.kind.Unknown?)
  }

  function Reported(fs: seq<Firing>): seq<Firing> {
    if fs == [] then [] else Reported(fs[..|fs| - 1]) + if IsContent(fs[|fs| - 1].event.kind) then [] else [fs[|fs| - 1]]
  }

  function Firings(rs: seq<Record>): seq<Firing> {
    seq(|rs|, i requires 0 <= i < |rs| => rs[i].firing)
  }

  /** A run without a fatal error reports each firing that is no content operation
      exactly once, in firing order. */
  lemma {:induction false} RecordsFollowFirings(st: State, vs: seq<Verdict>)
    requires Ready(st) && Fatal !in vs
    ensures st.fired <= RunSteps(st, vs).fired
    ensures Firings(Records(st, vs)) == Reported(RunSteps(st, vs).fired[|st.fired|..])
  {
    hide Ready;
    if vs == [] {
      assert st.fired[|st.fired|..] == [];
    } else {
      var n := |vs| - 1;
      assert vs[n] in vs;
      RecordsFollowFirings(st, vs[..n]);
      var s := RunSteps(st, vs[..n]);
      if s.heap != [] { StepReports(st, s, vs[n], Records(st, vs[..n])); }
    }
  }

  lemma ReportedMore(fs: seq<Firing>, f: Firing)
    ensures Reported(fs + [f]) == Reported(fs) + if IsContent(f.event.kind) then [] else [f]
  {
    assert (fs + [f])[..|fs|] == fs;
  }

  /** What one step fires. */
  lemma StepFires(s: State, v: Verdict)
    requires Ready(s) && s.heap != []
    ensures var e := s.heap[0];
            Step(s, v).fired == if e.event.kind.Unknown? then s.fired else s.fired + [Firing(e.at, e.priority, Strip(e.event))]
  {
    hide Ready, TotalPreorder, Ordered, Push;
  }

  lemma StepReports(st: State, s: State, v: Verdict, rs: seq<Record>)
    requires Ready(s) && s.heap != [] && v != Fatal && st.fired <= s.fired
    requires Firings(rs) == Reported(s.fired[|st.fired|..])
    ensures st.fired <= Step(s, v).fired
    ensures Firings(rs + RecordOf(s.heap[0], v)) == Reported(Step(s, v).fired[|st.fired|..])
  {
    StepFires(s, v);
    hide Ready, Step, Reported, Firings, IsContent, Strip;
    var e := s.heap[0];
    assert rs + [] == rs;
    if !e.event.kind.Unknown? {
      var f := Firing(e.at, e.priority, Strip(e.event));
      StripKeepsKind(e.event);
      SuffixMore(st.fired, s.fired, f);
      ReportedMore(s.fired[|st.fired|..], f);
      FiringsMore(rs, Record(f, v == Passed));
    }
  }

  lemma StripKeepsKind(ev: Event)
    ensures Strip(ev).kind == ev.kind
  {
  }

  lemma SuffixMore(front: seq<Firing>, fs: seq<Firing>, f: Firing)
    requires front <= fs
    ensures front <= fs + [f] && (fs + [f])[|front|..] == fs[|front|..] + [f]
  {
  }

  lemma FiringsMore(rs: seq<Record>, r: Record)
    ensures Firings(rs + [r]) == Firings(rs) + [r.firing]
  {
  }

  // ---------- infinite repetition ----------

  /** The event with an unbounded count replaced by `m`. */
  function WithCount(ev: Event, m: int): Event {
    if ev.repetition.None? then ev else ev.(repetition := Some(ev.repetition.value.(count := Some(m))))
  }

  /** `f` is `e`, with an unbounded count possibly replaced by a bound of at least `n`. */
  ghost predicate Mimics(e: Event, f: Event, n: nat) {
    f == e || (Occurrences(e).None? && exists m: int :: m >= n && f == WithCount(e, m))
  }

  ghost predicate EntryMimics(e: Entry, f: Entry, n: nat) {
    e.at == f.at && e.priority == f.priority && e.seqNo == f.seqNo && Mimics(e.event, f.event, n)
  }

  ghost predicate HeapMimics(a: seq<Entry>, b: seq<Entry>, n: nat) {
    |a| == |b| && forall i | 0 <= i < |a| :: EntryMimics(a[i], b[i], n)
  }

  ghost predicate StateMimics(s: State, t: State, n: nat) {
    HeapMimics(s.heap, t.heap, n) && s.nextSeq == t.nextSeq && s.fired == t.fired
  }

  lemma {:induction false} PushMimics(a: seq<Entry>, b: seq<Entry>, e: Entry, f: Entry, n: nat)
    requires TotalPreorder(EntryLeq) && Ordered(EntryLeq, a) && Ordered(EntryLeq, b)
    requires HeapMimics(a, b, n) && EntryMimics(e, f, n)
    ensures HeapMimics(Push(EntryLeq, a, e), Push(EntryLeq, b, f), n)
  {
    hide TotalPreorder, Mimics;
    if a != [] {
      assert EntryMimics(a[0], b[0], n);
      assert EntryLeq(a[0], e) == EntryLeq(b[0], f);
      hide EntryMimics, EntryLeq;
      forall i | 0 <= i < |a[1..]| ensures EntryMimics(a[1..][i], b[1..][i], n) {
        assert EntryMimics(a[i + 1], b[i + 1], n);
      }
      if EntryLeq(a[0], e) {
        PushMimics(a[1..], b[1..], e, f, n);
      }
    }
  }

  lemma MimicsFollow(e: Event, f: Event, n: nat)
    requires Mimics(e, f, n + 1) && n >= 1
    ensures e.kind == f.kind && Strip(e) == Strip(f) && RestoreAt(e) == RestoreAt(f) && Interval(e) == Interval(f)
    ensures NextEvent(e).Some? <==> NextEvent(f).Some?
    ensures NextEvent(e).Some? ==> Mimics(NextEvent(e).value, NextEvent(f).value, n)
  {
    if f != e {
      var m: int :| m >= n + 1 && f == WithCount(e, m);
      assert RestoreEvent(e) == RestoreEvent(f);
      assert NextEvent(e) == Some(e) && NextEvent(f) == Some(WithCount(e, m - 1));
    }
  }

  lemma MimicsWeaken(a: seq<Entry>, b: seq<Entry>, n: nat)
    requires HeapMimics(a, b, n + 1)
    ensures HeapMimics(a, b, n)
  {
    forall i | 0 <= i < |a| ensures EntryMimics(a[i], b[i], n) {
      assert EntryMimics(a[i], b[i], n + 1);
    }
  }

  lemma PushEventMimics(s: State, t: State, at: real, e: Event, f: Event, n: nat)
    requires Ready(s) && Ready(t) && StateMimics(s, t, n) && Mimics(e, f, n) && e.kind == f.kind
    ensures StateMimics(PushEvent(s, at, e), PushEvent(t, at, f), n)
  {
    hide Mimics, HeapMimics;
    EntryOrder();
    PushMimics(s.heap, t.heap, Entry(at, Priority(e.kind), s.nextSeq, e), Entry(at, Priority(f.kind), t.nextSeq, f), n);
  }

  lemma StepMimics(s: State, t: State, v: Verdict, n: nat)
    requires Ready(s) && Ready(t) && StateMimics(s, t, n + 1) && n >= 1 && s.heap != []
    ensures t.heap != [] && StateMimics(Step(s, v), Step(t, v), n)
  {
    var e, f := s.heap[0], t.heap[0];
    assert EntryMimics(e, f, n + 1);
    MimicsFollow(e.event, f.event, n);
    MimicsWeaken(s.heap, t.heap, n);
    assert HeapMimics(s.heap[1..], t.heap[1..], n);
    if !e.event.kind.Unknown? && v != Fatal {
      hide Mimics, HeapMimics, RestoreAt, NextEvent, Interval, Strip;
      var s0 := State(s.heap[1..], s.nextSeq, s.fired + [Firing(e.at, e.priority, Strip(e.event))]);
      var t0 := State(t.heap[1..], t.nextSeq, t.fired + [Firing(f.at, f.priority, Strip(f.event))]);
      TailReady(s);
      TailReady(t);
      FollowMimics(s0, t0, e.at, e.event, f.event, n);
    }
  }

  lemma FollowMimics(s: State, t: State, at: real, e: Event, f: Event, n: nat)
    requires Ready(s) && Ready(t) && StateMimics(s, t, n) && e.kind == f.kind
    requires RestoreAt(e) == RestoreAt(f) && Interval(e) == Interval(f)
    requires NextEvent(e).Some? <==> NextEvent(f).Some?
    requires NextEvent(e).Some? ==> Mimics(NextEvent(e).value, NextEvent(f).value, n)
    ensures StateMimics(HandleRepeat(s, at, e), HandleRepeat(t, at, f), n)
  {
    hide StateMimics, RestoreAt, Interval, Ready, Mimics, PushEvent, NextEvent;
    var s1, t1 := s, t;
    if RestoreAt(e).Some? {
      var r := RestoreAt(e).value;
      MimicsItself(r.1, n);
      PushEventMimics(s, t, at + r.0, r.1, r.1, n);
      s1, t1 := PushEvent(s, at + r.0, r.1), PushEvent(t, at + r.0, r.1);
    }
    if NextEvent(e).Some? {
      NextKind(e);
      NextKind(f);
      PushEventMimics(s1, t1, at + Interval(e), NextEvent(e).value, NextEvent(f).value, n);
    }
  }

  lemma MimicsItself(e: Event, n: nat)
    ensures Mimics(e, e, n)
  {
  }

  lemma NextKind(e: Event)
    ensures NextEvent(e).Some? ==> NextEvent(e).value.kind == e.kind
  {
  }

  function Cut(ev: Event, m: nat): Event {
    if Occurrences(ev).None? then WithCount(ev, m) else ev
  }

  function CutAll(events: seq<(real, Event)>, m: nat): (r: seq<(real, Event)>)
    ensures |r| == |events| && forall i | 0 <= i < |events| :: r[i] == (events[i].0, Cut(events[i].1, m))
  {
    seq(|events|, i requires 0 <= i < |events| => (events[i].0, Cut(events[i].1, m)))
  }

  lemma {:induction false} LoadedMimics(events: seq<(real, Event)>, m: nat)
    ensures StateMimics(Loaded(events), Loaded(CutAll(events, m)), m)
  {
    if events != [] {
      var front, last := events[..|events| - 1], events[|events| - 1];
      LoadedMimics(front, m);
      assert CutAll(events, m)[..|events| - 1] == CutAll(front, m);
      PushEventMimics(Loaded(front), Loaded(CutAll(front, m)), last.0, last.1, Cut(last.1, m), m);
    }
  }

  lemma {:induction false} RunMimics(s: State, t: State, vs: seq<Verdict>, n: nat)
    requires Ready(s) && Ready(t) && n >= 1 && StateMimics(s, t, n + |vs|)
    ensures StateMimics(RunSteps(s, vs), RunSteps(t, vs), n)
  {
    if vs != [] {
      var front := vs[..|vs| - 1];
      RunMimics(s, t, front, n + 1);
      hide Step, Ready, HeapMimics;
      var a, b := RunSteps(s, front), RunSteps(t, front);
      if a.heap != [] {
        StepMimics(a, b, vs[|vs| - 1], n);
      } else {
        MimicsWeaken(a.heap, b.heap, n);
        assert |b.heap| == |a.heap| by { SameSize(a.heap, b.heap, n); }
      }
    }
  }

  lemma SameSize(a: seq<Entry>, b: seq<Entry>, n: nat)
    requires HeapMimics(a, b, n)
    ensures |a| == |b|
  {
  }

  /** A stopped run of any schedule, endless repetition included, fires exactly
      what the same run of a finite schedule fires: the one that caps every
      unbounded count beyond the number of steps taken. */
  lemma EndlessLooksFinite(events: seq<(real, Event)>, vs: seq<Verdict>, m: nat)
    requires m > |vs|
    ensures FiniteEvents(CutAll(events, m))
    ensures RunSteps(Loaded(events), vs).fired == RunSteps(Loaded(CutAll(events, m)), vs).fired
  {
    LoadedMimics(events, m);
    RunMimics(Loaded(events), Loaded(CutAll(events, m)), vs, m - |vs|);
  }

  // ---------- EventScheduler ----------

  /** The entries that follow a firing: the restore `x` first, then the repetition `y`. */
  function Follows(at: real, ev: Event, seqNo: nat, x: Event, y: Event): multiset<Entry> {
    (if Restores(ev) then multiset{Entry(at + ev.repetition.value.duration.value, Priority(x.kind), seqNo, x)} else multiset{})
    + (if Repeats(ev) then multiset{Entry(at + ev.repetition.value.interval, Priority(y.kind), if Restores(ev) then seqNo + 1 else seqNo, y)}
       else multiset{})
  }

  /** The entries that _handle_repeat pushes. */
  function PushedAfter(at: real, ev: Event, seqNo: nat): multiset<Entry> {
    (if RestoreAt(ev).Some? then multiset{Entry(at + RestoreAt(ev).value.0, Priority(RestoreAt(ev).value.1.kind), seqNo, RestoreAt(ev).value.1)}
     else multiset{})
    + (if NextEvent(ev).Some? then multiset{Entry(at + Interval(ev), Priority(NextEvent(ev).value.kind), if RestoreAt(ev).Some? then seqNo + 1 else seqNo,
                                                  NextEvent(ev).value)}
       else multiset{})
  }

  lemma FollowsRight(at: real, ev: Event, seqNo: nat, x: Event, y: Event)
    requires (Restores(ev) ==> Restored(ev, x)) && (Repeats(ev) ==> Reduced(ev, y))
    ensures Follows(at, ev, seqNo, x, y) == PushedAfter(at, ev, seqNo)
  {
    RestoreIs(ev, x);
    NextIs(ev, y);
    hide RestoreAt, NextEvent, Restored, Reduced, Priority;
  }

  lemma RestoreIs(ev: Event, x: Event)
    requires Restores(ev) ==> Restored(ev, x)
    ensures RestoreAt(ev) == if Restores(ev) then Some((ev.repetition.value.duration.value, x)) else None
  {
    if Restores(ev) { RestoredIs(ev, x); }
  }

  lemma NextIs(ev: Event, y: Event)
    requires Repeats(ev) ==> Reduced(ev, y)
    ensures NextEvent(ev) == if Repeats(ev) then Some(y) else None
  {
  }

  lemma HandlePushes(st: State, at: real, ev: Event)
    requires Ready(st)
    ensures multiset(HandleRepeat(st, at, ev).heap) == multiset(st.heap) + PushedAfter(at, ev, st.nextSeq)
  {
    hide RestoreAt, NextEvent, Interval, Ready, PushEvent;
    var s1 := if RestoreAt(ev).Some? then PushEvent(st, at + RestoreAt(ev).value.0, RestoreAt(ev).value.1) else st;
    if RestoreAt(ev).Some? { PushAdds(st, at + RestoreAt(ev).value.0, RestoreAt(ev).value.1); }
    if NextEvent(ev).Some? { PushAdds(s1, at + Interval(ev), NextEvent(ev).value); }
  }

  lemma PushAdds(st: State, at: real, ev: Event)
    requires Ready(st)
    ensures multiset(PushEvent(st, at, ev).heap) == multiset(st.heap) + multiset{Entry(at, Priority(ev.kind), st.nextSeq, ev)}
    ensures PushEvent(st, at, ev).nextSeq == st.nextSeq + 1
  {
    EntryOrder();
  }

  datatype Ending = Drained | Stopped | Died

  class EventScheduler {
    var heap: seq<Entry>
    var nextSeq: nat
    var fired: seq<Firing>
    var records: seq<Record>   // what the sink was given

    function St(): State
      reads this
    {
      State(heap, nextSeq, fired)
    }

    constructor (events: seq<(real, Event)>)
      ensures St() == Loaded(events) && records == []
    {
      heap, nextSeq, fired, records := [], 0, [], [];
      new;
      for i := 0 to |events|
        invariant St() == Loaded(events[..i]) && records == []
      {
        assert events[..i + 1][..i] == events[..i];
        Push(events[i].0, events[i].1);
      }
      assert events[..|events|] == events;
    }

    /** _push_event: one more entry, numbered by insertion, in a heap still in order. */
    method Push(at: real, ev: Event)
      requires Ready(St())
      modifies this
      ensures Ordered(EntryLeq, heap) && multiset(heap) == multiset(old(heap)) + multiset{Entry(at, Priority(ev.kind), old(nextSeq), ev)}
      ensures nextSeq == old(nextSeq) + 1 && fired == old(fired) && records == old(records)
      ensures St() == PushEvent(old(St()), at, ev)
    {
      EntryOrder();
      var s := PushEvent(St(), at, ev);
      heap, nextSeq := s.heap, s.nextSeq;
    }

    /** _handle_repeat: the restore first, then the next repetition. */
    method FollowUp(at: real, ev: Event)
      requires Ready(St())
      modifies this
      ensures St() == HandleRepeat(old(St()), at, ev) && records == old(records)
      ensures forall x, y | (Restores(ev) ==> Restored(ev, x)) && (Repeats(ev) ==> Reduced(ev, y)) ::
                multiset(heap) == multiset(old(heap)) + Follows(at, ev, old(nextSeq), x, y)
    {
      hide Ready, PushEvent, RestoreEvent, Restores, Restored, Repeats, Reduced, Follows, PushedAfter;
      HandlePushes(St(), at, ev);
      forall x, y | (Restores(ev) ==> Restored(ev, x)) && (Repeats(ev) ==> Reduced(ev, y))
        ensures Follows(at, ev, nextSeq, x, y) == PushedAfter(at, ev, nextSeq)
      {
        FollowsRight(at, ev, nextSeq, x, y);
      }
      if ev.repetition.None? {
        return;
      }
      var r := ev.repetition.value;
      if r.duration.Some? && r.duration.value > 0.0 {
        var restore := RestoreEvent(ev);
        if restore.Some? {
          Push(at + r.duration.value, restore.value);
        }
      }
      if r.interval > 0.0 {
        var next := ev;
        if r.count.Some? {
          var remaining := r.count.value - 1;
          if remaining <= 0 {
            return;
          }
          next := ev.(repetition := Some(r.(count := Some(remaining))));
        }
        Push(at + r.interval, next);
      }
    }

    /** _run. `stops(i)` tells whether the stop event is seen before the i-th pop,
        `verdicts(i)` how the i-th handler call ends. Without a stop the heap must
        be finite; then the loop drains it. */
    method Run(stops: nat -> bool, verdicts: nat -> Verdict, ghost horizon: nat) returns (ending: Ending, ghost taken: seq<Verdict>)
      requires Ready(St()) && (AllFinite(heap) || stops(horizon))
      modifies this
      ensures Ready(St()) && St() == RunSteps(old(St()), taken)
      ensures ending == Drained ==> heap == []
      ensures ending == Stopped ==> stops(|taken|)
      ensures forall i | 0 <= i < |taken| :: !stops(i) && Obeyed(old(St()), taken, i, verdicts(i))
      ensures records == old(records) + Records(old(St()), taken)
      ensures ending != Died ==> Fatal !in taken
      ensures ending == Died ==> taken != [] && taken[|taken| - 1] == Fatal && Fatal !in taken[..|taken| - 1]
    {
      hide Ready, RunSteps, AllFinite, ExpandAll, HandleRepeat, Records, Obeyed;
      taken := [];
      ghost var st0, finite := St(), AllFinite(heap);
      NoSteps(st0);
      var i := 0;
      while heap != []
        invariant Ready(St()) && St() == RunSteps(st0, taken) && Fatal !in taken
        invariant records == old(records) + Records(st0, taken)
        invariant forall j | 0 <= j < |taken| :: !stops(j) && Obeyed(st0, taken, j, verdicts(j))
        invariant i == |taken| && (finite ==> AllFinite(heap)) && (!finite ==> stops(horizon) && i <= horizon)
        decreases if finite then |ExpandAll(heap)| else horizon - i, |heap|
      {
        if stops(i) {
          return Stopped, taken;
        }
        ghost var before := St();
        var e := heap[0];
        TailReady(St());
        heap := heap[1..];
        if e.event.kind.Unknown? {
          OneMore(st0, taken, before, Passed);
          OneRecord(st0, taken, before, Passed, verdicts(i));
          if finite { Shrinks(before, Passed); }
          taken := taken + [Passed];
          i := i + 1;
          continue;
        }
        fired := fired + [Firing(e.at, e.priority, Strip(e.event))];
        var v := verdicts(i);
        OneMore(st0, taken, before, v);
        OneRecord(st0, taken, before, v, v);
        if finite { Shrinks(before, v); }
        taken := taken + [v];
        i := i + 1;
        if v == Fatal {
          assert taken[..|taken| - 1] == taken[..i - 1];
          return Died, taken;
        }
        if !IsContent(e.event.kind) {
          records := records + [Record(Firing(e.at, e.priority, Strip(e.event)), v == Passed)];
        }
        FollowUp(e.at, e.event);
      }
      ending := Drained;
    }
  }

  lemma NoSteps(st: State)
    requires Ready(st)
    ensures RunSteps(st, []) == st && Records(st, []) == []
  {
  }

  lemma OneMore(st0: State, taken: seq<Verdict>, st: State, v: Verdict)
    requires Ready(st0) && st == RunSteps(st0, taken) && st.heap != []
    ensures Ready(st) && Ready(Step(st, v)) && RunSteps(st0, taken + [v]) == Step(st, v)
  {
    hide Step, Ready;
    assert (taken + [v])[..|taken|] == taken;
  }

  lemma OneRecord(st0: State, taken: seq<Verdict>, st: State, v: Verdict, given: Verdict)
    requires Ready(st0) && st == RunSteps(st0, taken) && st.heap != []
    requires v == given || (v == Passed && st.heap[0].event.kind.Unknown?)
    ensures Records(st0, taken + [v]) == Records(st0, taken) + RecordOf(st.heap[0], v)
    ensures Obeyed(st0, taken + [v], |taken|, given)
    ensures forall i, g | 0 <= i < |taken| && Obeyed(st0, taken, i, g) :: Obeyed(st0, taken + [v], i, g)
  {
    hide Ready, RunSteps;
    assert (taken + [v])[..|taken|] == taken;
    forall i, g | 0 <= i < |taken| && Obeyed(st0, taken, i, g)
      ensures Obeyed(st0, taken + [v], i, g)
    {
      assert (taken + [v])[..i] == taken[..i];
    }
  }

  lemma Shrinks(st: State, v: Verdict)
    requires Ready(st) && st.heap != [] && AllFinite(st.heap)
    ensures AllFinite(Step(st, v).heap)
    ensures v != Fatal && !st.heap[0].event.kind.Unknown? ==> |ExpandAll(Step(st, v).heap)| < |ExpandAll(st.heap)|
    ensures st.heap[0].event.kind.Unknown? ==> ExpandAll(Step(st, v).heap) == ExpandAll(st.heap)
  {
    hide ExpandAll, HandleRepeat, AllFinite, Ready;
    var u := if st.heap[0].event.kind.Unknown? then Passed else v;
    if u == Fatal {
      FatalLoses(st);
    } else {
      StepConserves(st, u);
      StepFires(st, u);
      var a, b := Step(st, u), st;
      assert |multiset(a.fired)| == |a.fired| && |multiset(b.fired)| == |b.fired|;
      assert |Account(a)| == |multiset(a.fired)| + |ExpandAll(a.heap)| && |Account(b)| == |multiset(b.fired)| + |ExpandAll(b.heap)|;
      if st.heap[0].event.kind.Unknown? {
        assert ExpandAll(a.heap) == Account(a) - multiset(a.fired) && ExpandAll(b.heap) == Account(b) - multiset(b.fired);
      }
    }
  }
}
