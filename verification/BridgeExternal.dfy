/** Attaching a physical NIC to a host through a Linux bridge: the attach sequence,
    its rollback, and the cleanup of what stayed recorded. */
module BridgeExternal {
  import opened BridgeLedger
  import opened Wrappers

  // ---------- traces ----------

  /** A command that was issued, and whether it succeeded. */
  datatype Issued = Issued(command: Command, ok: bool)

  function Replay(k: Kernel, trace: seq<Issued>): Kernel {
    if trace == [] then k else
      var s := Replay(k, trace[..|trace| - 1]);
      if trace[|trace| - 1].ok then Do(s, trace[|trace| - 1].command) else s
  }

  /** Every command did what the environment decided. */
  predicate Honest(outcome: nat -> bool, k: Kernel, trace: seq<Issued>) {
    trace == [] ||
    var n := |trace| - 1;
    Honest(outcome, k, trace[..n]) && trace[n].ok == (outcome(n) && Possible(Replay(k, trace[..n]), trace[n].command))
  }

  function Succeeded(cs: seq<Command>): seq<Issued> {
    seq(|cs|, i requires 0 <= i < |cs| => Issued(cs[i], true))
  }

  /** The undo steps tried one after the other. */
  function Attempts(us: seq<Undo>, oks: seq<bool>, h: Host, n: Nic): seq<Issued>
    requires |oks| == |us|
  {
    seq(|us|, i requires 0 <= i < |us| => Issued(UndoCommand(us[i], h, n), oks[i]))
  }

  /** The steps whose command failed. */
  function FailedOf(us: seq<Undo>, oks: seq<bool>): seq<Undo>
    requires |oks| == |us|
  {
    if us == [] then [] else
      var n := |us| - 1;
      FailedOf(us[..n], oks[..n]) + if oks[n] then [] else [us[n]]
  }

  function Reversed(us: seq<Undo>): seq<Undo> {
    seq(|us|, i requires 0 <= i < |us| => us[|us| - 1 - i])
  }

  lemma HonestMore(outcome: nat -> bool, k: Kernel, trace: seq<Issued>, c: Command, ok: bool)
    requires Honest(outcome, k, trace) && ok == (outcome(|trace|) && Possible(Replay(k, trace), c))
    ensures Honest(outcome, k, trace + [Issued(c, ok)])
    ensures Replay(k, trace + [Issued(c, ok)]) == if ok then Do(Replay(k, trace), c) else Replay(k, trace)
  {
    assert (trace + [Issued(c, ok)])[..|trace|] == trace;
  }

  /** One more attempt at the end. */
  lemma AttemptMore(us: seq<Undo>, oks: seq<bool>, h: Host, n: Nic, u: Undo, ok: bool)
    requires |oks| == |us|
    ensures Attempts(us + [u], oks + [ok], h, n) == Attempts(us, oks, h, n) + [Issued(UndoCommand(u, h, n), ok)]
    ensures FailedOf(us + [u], oks + [ok]) == FailedOf(us, oks) + if ok then [] else [u]
  {
    assert (us + [u])[..|us|] == us && (oks + [ok])[..|oks|] == oks;
  }

  lemma NoAttempts(h: Host, n: Nic)
    ensures Attempts([], [], h, n) == [] && FailedOf([], []) == []
  {
  }

  /** Nothing failed exactly when every attempt succeeded. */
  lemma {:induction false} NoneFailed(us: seq<Undo>, oks: seq<bool>)
    requires |oks| == |us|
    ensures FailedOf(us, oks) == [] <==> false !in oks
  {
    if us != [] {
      var n := |us| - 1;
      NoneFailed(us[..n], oks[..n]);
      assert oks == oks[..n] + [oks[n]];
    }
  }

  // ---------- the attach sequence ----------

  function BridgePlan(h: Host): seq<Command> {
    [AddBridge(h), BridgeSetUp(h)]
  }

  function NicPlan(h: Host, n: Nic, priorUp: bool): seq<Command> {
    (if priorUp then [] else [NicUp(n)]) + [Command.Enslave(n, h)]
  }

  function VethPlan(h: Host): seq<Command> {
    [AddVeth(h), Configure(h, RootMaster), Configure(h, RootUp), Configure(h, HostUp), Configure(h, HostToNetns)]
  }

  function HostPlan(h: Host, mtu: bool): seq<Command> {
    [Configure(h, HostUpInNetns)] + (if mtu then [Configure(h, BridgeMtu), Configure(h, RootMtu), Configure(h, HostMtu)] else []) + [Configure(h, Address)]
  }

  /** The forward commands of an attach. */
  function Plan(q: Request, priorUp: bool): seq<Command> {
    BridgePlan(q.host) + NicPlan(q.host, q.nic, priorUp) + VethPlan(q.host) + HostPlan(q.host, q.mtu)
  }

  /** The undo step registered after a command, if any. */
  function UndoOf(c: Command): seq<Undo> {
    match c
    case AddBridge(_) => [DeleteBridge]
    case NicUp(_) => [RestoreDown]
    case Enslave(_, _) => [Unmaster]
    case AddVeth(_) => [DeleteVeth]
    case _ => []
  }

  function Undos(cs: seq<Command>): seq<Undo> {
    if cs == [] then [] else Undos(cs[..|cs| - 1]) + UndoOf(cs[|cs| - 1])
  }

  /** The first n commands of the plan succeeded and, if that is not all of them,
      the next one failed. */
  predicate Progress(t0: seq<Issued>, t: seq<Issued>, plan: seq<Command>, n: nat) {
    n <= |plan| && t == t0 + Succeeded(plan[..n]) + if n < |plan| then [Issued(plan[n], false)] else []
  }

  /** All of the plan's first n commands succeeded, nothing more was issued. */
  predicate Reached(t0: seq<Issued>, t: seq<Issued>, plan: seq<Command>, n: nat) {
    n <= |plan| && t == t0 + Succeeded(plan[..n])
  }

  lemma ReachedStart(t0: seq<Issued>, plan: seq<Command>)
    ensures Reached(t0, t0, plan, 0) && plan[..0] == [] && Undos([]) == []
  {
    assert t0 + Succeeded([]) == t0;
  }

  lemma ReachedStep(t0: seq<Issued>, t: seq<Issued>, plan: seq<Command>, n: nat, t': seq<Issued>, ok: bool)
    requires Reached(t0, t, plan, n) && n < |plan| && t' == t + [Issued(plan[n], ok)]
    ensures if ok then Reached(t0, t', plan, n + 1) else Progress(t0, t', plan, n)
    ensures Undos(plan[..n + 1]) == Undos(plan[..n]) + UndoOf(plan[n])
  {
    assert plan[..n + 1] == plan[..n] + [plan[n]];
    assert plan[..n + 1][..n] == plan[..n];
    assert Succeeded(plan[..n + 1]) == Succeeded(plan[..n]) + [Issued(plan[n], true)];
  }

  /** A command without an undo step. */
  lemma ReachedPlain(t0: seq<Issued>, t: seq<Issued>, plan: seq<Command>, n: nat, t': seq<Issued>, ok: bool)
    requires Reached(t0, t, plan, n) && n < |plan| && t' == t + [Issued(plan[n], ok)] && UndoOf(plan[n]) == []
    ensures if ok then Reached(t0, t', plan, n + 1) else Progress(t0, t', plan, n)
    ensures Undos(plan[..n + 1]) == Undos(plan[..n])
  {
    hide Reached, Progress, Undos, UndoOf;
    ReachedStep(t0, t, plan, n, t', ok);
    assert Undos(plan[..n]) + [] == Undos(plan[..n]);
  }

  /** A command with its undo step. */
  lemma ReachedUndoable(t0: seq<Issued>, t: seq<Issued>, plan: seq<Command>, n: nat, t': seq<Issued>, ok: bool, before: seq<Undo>)
    requires Reached(t0, t, plan, n) && n < |plan| && t' == t + [Issued(plan[n], ok)]
    ensures if ok then Reached(t0, t', plan, n + 1) else Progress(t0, t', plan, n)
    ensures before + Undos(plan[..n + 1]) == before + Undos(plan[..n]) + UndoOf(plan[n])
  {
    hide Reached, Progress, Undos, UndoOf;
    ReachedStep(t0, t, plan, n, t', ok);
    Assoc(before, Undos(plan[..n]), UndoOf(plan[n]));
  }

  lemma ReachedEnd(t0: seq<Issued>, t: seq<Issued>, plan: seq<Command>)
    requires Reached(t0, t, plan, |plan|)
    ensures Progress(t0, t, plan, |plan|) && plan[..|plan|] == plan
  {
  }

  lemma Assoc<T>(a: seq<T>, b: seq<T>, c: seq<T>)
    ensures a + b + c == a + (b + c)
  {
  }

  lemma SucceededAppend(p: seq<Command>, q: seq<Command>)
    ensures Succeeded(p + q) == Succeeded(p) + Succeeded(q)
  {
  }

  lemma ProgressBound(t0: seq<Issued>, t: seq<Issued>, plan: seq<Command>, n: nat)
    requires Progress(t0, t, plan, n)
    ensures n <= |plan|
  {
  }

  /** Two plans one after the other. */
  lemma PlansCompose(t0: seq<Issued>, t1: seq<Issued>, t2: seq<Issued>, p: seq<Command>, q: seq<Command>, n: nat)
    requires Progress(t0, t1, p, |p|) && Progress(t1, t2, q, n)
    ensures Progress(t0, t2, p + q, |p| + n) && Undos((p + q)[..|p| + n]) == Undos(p) + Undos(q[..n])
  {
    hide Undos, Succeeded;
    assert (p + q)[..|p| + n] == p + q[..n] && p[..|p|] == p;
    SucceededAppend(p, q[..n]);
    UndosAppend(p, q[..n]);
    assert t1 == t0 + Succeeded(p);
    Assoc(t0, Succeeded(p), Succeeded(q[..n]));
    if n < |q| {
      assert (p + q)[|p| + n] == q[n];
      assert t2 == t0 + Succeeded(p + q[..n]) + [Issued(q[n], false)];
    } else {
      assert t2 == t0 + Succeeded(p + q[..n]) + [];
    }
  }

  /** A plan that stopped early stops every plan it begins. */
  lemma PlanStops(t0: seq<Issued>, t: seq<Issued>, p: seq<Command>, q: seq<Command>, n: nat)
    requires Progress(t0, t, p, n) && n < |p|
    ensures Progress(t0, t, p + q, n) && (p + q)[..n] == p[..n]
  {
    assert (p + q)[..n] == p[..n] && (p + q)[n] == p[n];
  }

  lemma {:induction false} UndosAppend(p: seq<Command>, q: seq<Command>)
    ensures Undos(p + q) == Undos(p) + Undos(q)
  {
    if q == [] {
      assert p + q == p && Undos(p) + [] == Undos(p);
    } else {
      var n := |q| - 1;
      hide UndoOf;
      UndosAppend(p, q[..n]);
      assert (p + q)[..|p + q| - 1] == p + q[..n];
      Assoc(Undos(p), Undos(q[..n]), UndoOf(q[n]));
    }
  }

  // ---------- requests ----------

  datatype Request = Request(host: Host, nic: Nic, staticIp: bool, namesFit: bool, hostExists: bool, linkReadable: bool,
                             addressesReadable: bool, addressesClean: bool, flagsReadable: bool, mtu: bool)

  datatype Refusal =
    | NoStaticIp | NamesTooLong | AlreadyAttached | NicOwned | LinkUnreadable | Enslaved
    | AddressesUnreadable | HasAddress | AdminStateUnknown

  datatype Result =
    | Attached
    | NoSuchHost
    | Refused(why: Refusal)
    | BridgeNotCreated
    | RolledBack(failures: seq<Undo>)

  /** The flags of a completed attach. */
  function AttachedFlags(priorUp: bool, mtu: bool): set<Flag> {
    {BridgeCreated, BridgeUp, PhyEnslaved, VethCreated, VethRootMastered, VethRootUp, VethHostNsMoved, VethHostUp, IpAssigned}
    + (if priorUp then {} else {PhyUpChanged}) + if mtu then {MtuSet} else {}
  }

  /** The checks made before anything is touched, in order. */
  function Precheck(q: Request, recs: map<Host, Record>, k: Kernel): Option<Result> {
    if !q.staticIp then Some(Refused(NoStaticIp))
    else if !q.namesFit then Some(Refused(NamesTooLong))
    else if q.host in recs then Some(Refused(AlreadyAttached))
    else if !Unowned(recs, q.nic) then Some(Refused(NicOwned))
    else if !q.hostExists then Some(NoSuchHost)
    else if q.nic !in k.nics || !q.linkReadable then Some(Refused(LinkUnreadable))
    else if k.nics[q.nic].master != Free then Some(Refused(Refusal.Enslaved))
    else if !q.addressesReadable then Some(Refused(AddressesUnreadable))
    else if !q.addressesClean then Some(Refused(HasAddress))
    else if !q.flagsReadable then Some(Refused(AdminStateUnknown))
    else None
  }

  /** A request that is carried out: well-formed, on a known host, for an unowned, free
      and readable NIC without addresses. */
  predicate GoesAhead(q: Request, recs: map<Host, Record>, k: Kernel) {
    && q.staticIp && q.namesFit && q.host !in recs && Unowned(recs, q.nic) && q.hostExists
    && q.nic in k.nics && k.nics[q.nic].master == Free
    && q.linkReadable && q.addressesReadable && q.addressesClean && q.flagsReadable
  }

  /** What each refusal says of the request. */
  predicate Fault(q: Request, recs: map<Host, Record>, k: Kernel, why: Refusal) {
    match why
    case NoStaticIp => !q.staticIp
    case NamesTooLong => !q.namesFit
    case AlreadyAttached => q.host in recs
    case NicOwned => !Unowned(recs, q.nic)
    case LinkUnreadable => q.nic !in k.nics || !q.linkReadable
    case Enslaved => q.nic in k.nics && k.nics[q.nic].master != Free
    case AddressesUnreadable => !q.addressesReadable
    case HasAddress => !q.addressesClean
    case AdminStateUnknown => !q.flagsReadable
  }

  lemma PrecheckMeans(q: Request, recs: map<Host, Record>, k: Kernel)
    ensures Precheck(q, recs, k).None? <==> GoesAhead(q, recs, k)
    ensures Precheck(q, recs, k).Some? ==>
              match Precheck(q, recs, k).value
              case Refused(why) => Fault(q, recs, k, why)
              case NoSuchHost => !q.hostExists
              case _ => false
  {
    hide Unowned;
  }

  lemma ProgressLonger(t0: seq<Issued>, t: seq<Issued>, plan: seq<Command>, n: nat)
    requires Progress(t0, t, plan, n) && plan != []
    ensures |t| > |t0|
  {
  }

  lemma PlanNotEmpty(q: Request, priorUp: bool)
    ensures Plan(q, priorUp) != []
  {
  }

  /** What an attach issued and reports: it stops at the first of its commands that
      fails, then tries every registered undo step once, in reverse. */
  predicate Ran(plan: seq<Command>, q: Request, t0: seq<Issued>, t: seq<Issued>, r: Result, n: nat, oks: seq<bool>) {
    && n <= |plan|
    && if n == |plan| then r == Attached && oks == [] && t == t0 + Succeeded(plan)
       else
         var us := Reversed(Undos(plan[..n]));
         && |oks| == |us|
         && t == t0 + Succeeded(plan[..n]) + [Issued(plan[n], false)] + Attempts(us, oks, q.host, q.nic)
         && r == if n == 0 then BridgeNotCreated else RolledBack(FailedOf(us, oks))
  }

  lemma VethPlanIs(h: Host)
    ensures var p := VethPlan(h);
            && |p| == 5 && p[0] == AddVeth(h) && UndoOf(p[0]) == [DeleteVeth]
            && p[1] == Configure(h, RootMaster) && p[2] == Configure(h, RootUp) && p[3] == Configure(h, HostUp) && p[4] == Configure(h, HostToNetns)
            && UndoOf(p[1]) == UndoOf(p[2]) == UndoOf(p[3]) == UndoOf(p[4]) == []
  {
  }

  lemma HostPlanIs(h: Host, mtu: bool)
    ensures var p := HostPlan(h, mtu);
            && |p| == (if mtu then 5 else 2) && p[0] == Configure(h, HostUpInNetns) && p[|p| - 1] == Configure(h, Address)
            && UndoOf(p[0]) == UndoOf(p[|p| - 1]) == []
            && (mtu ==> p[1] == Configure(h, BridgeMtu) && p[2] == Configure(h, RootMtu) && p[3] == Configure(h, HostMtu)
                        && UndoOf(p[1]) == UndoOf(p[2]) == UndoOf(p[3]) == [])
  {
  }

  lemma NicPlanIs(h: Host, n: Nic, priorUp: bool)
    ensures var p := NicPlan(h, n, priorUp);
            && |p| == (if priorUp then 1 else 2) && p[|p| - 1] == Command.Enslave(n, h) && UndoOf(p[|p| - 1]) == [Unmaster]
            && (!priorUp ==> p[0] == NicUp(n) && UndoOf(p[0]) == [RestoreDown])
  {
  }

  lemma FirstUndo(plan: seq<Command>)
    requires plan != []
    ensures Undos(plan[..1]) == UndoOf(plan[0])
  {
    assert plan[..1][..0] == [];
  }

  lemma PlanSizes(q: Request, priorUp: bool)
    ensures |BridgePlan(q.host)| == 2
    ensures Plan(q, priorUp) == BridgePlan(q.host) + NicPlan(q.host, q.nic, priorUp) + VethPlan(q.host) + HostPlan(q.host, q.mtu)
    ensures |HostPlan(q.host, q.mtu)| > 0 && |NicPlan(q.host, q.nic, priorUp)| > 0 && |VethPlan(q.host)| > 0
  {
  }

  lemma StopsAt(t0: seq<Issued>, t: seq<Issued>, p1: seq<Command>, p2: seq<Command>, p3: seq<Command>, p4: seq<Command>, n: nat)
    requires Progress(t0, t, p1, n) && n < |p1|
    ensures Progress(t0, t, p1 + p2 + p3 + p4, n) && (p1 + p2 + p3 + p4)[..n] == p1[..n]
  {
    PlanStops(t0, t, p1, p2, n);
    StopsAfter(t0, t, p1 + p2, p3, p4, n);
  }

  lemma StopsAfter(t0: seq<Issued>, t: seq<Issued>, p: seq<Command>, p3: seq<Command>, p4: seq<Command>, n: nat)
    requires Progress(t0, t, p, n) && n < |p|
    ensures Progress(t0, t, p + p3 + p4, n) && (p + p3 + p4)[..n] == p[..n]
  {
    PlanStops(t0, t, p, p3, n);
    PlanStops(t0, t, p + p3, p4, n);
  }

  lemma RanThrough(plan: seq<Command>, q: Request, t0: seq<Issued>, t: seq<Issued>, n: nat)
    requires Progress(t0, t, plan, n) && n == |plan|
    ensures Ran(plan, q, t0, t, Attached, n, [])
  {
    assert plan[..n] == plan && t == t0 + Succeeded(plan) + [];
  }

  lemma RanNowhere(plan: seq<Command>, q: Request, t0: seq<Issued>, t: seq<Issued>)
    requires Progress(t0, t, plan, 0) && plan != []
    ensures Ran(plan, q, t0, t, BridgeNotCreated, 0, [])
  {
    assert plan[..0] == [] && Reversed(Undos([])) == [] && t + [] == t;
    NoAttempts(q.host, q.nic);
  }

  lemma RanBack(plan: seq<Command>, q: Request, t0: seq<Issued>, t: seq<Issued>, t': seq<Issued>, n: nat, oks: seq<bool>)
    requires 0 < n < |plan| && Progress(t0, t, plan, n)
    requires var us := Reversed(Undos(plan[..n])); |oks| == |us| && t' == t + Attempts(us, oks, q.host, q.nic)
    ensures Ran(plan, q, t0, t', RolledBack(FailedOf(Reversed(Undos(plan[..n])), oks)), n, oks)
  {
    hide Attempts, FailedOf, Undos, Reversed;
  }

  // ---------- cleanup ----------

  /** The cleanup steps a record asks for, in order. */
  function Due(flags: set<Flag>): seq<Undo> {
    (if VethCreated in flags then [DeleteVeth] else []) + (if PhyEnslaved in flags then [Unmaster] else [])
    + (if PhyUpChanged in flags then [RestoreDown] else []) + (if BridgeUp in flags then [LowerBridge] else [])
    + if BridgeCreated in flags then [DeleteBridge] else []
  }

  /** The cleanup's commands, record by record. */
  function CleanupTrace(order: seq<Host>, recs: map<Host, Record>, oks: map<Host, seq<bool>>): seq<Issued>
    requires forall h | h in order :: h in recs && h in oks && |oks[h]| == |Due(recs[h].flags)|
  {
    if order == [] then [] else
      var h := order[|order| - 1];
      CleanupTrace(order[..|order| - 1], recs, oks) + Attempts(Due(recs[h].flags), oks[h], h, recs[h].nic)
  }

  function Elems(us: seq<Undo>): set<Undo> {
    set u | u in us
  }

  /** The failed steps of a record's cleanup. */
  function Failures(flags: set<Flag>, oks: seq<bool>): set<Undo>
    requires |oks| == |Due(flags)|
  {
    Elems(FailedOf(Due(flags), oks))
  }

  lemma ElemsMore(us: seq<Undo>, u: Undo)
    ensures Elems(us + [u]) == Elems(us) + {u} && us + [] == us && Elems([]) == {}
    ensures Elems(us) == {} <==> us == []
  {
    assert us != [] ==> us[0] in Elems(us);
  }

  /** The steps still to come are due exactly if they were at the start. */
  predicate Untouched(f0: set<Flag>, flags: set<Flag>, rest: set<Undo>) {
    forall v | v in rest :: Main(v) in flags <==> Main(v) in f0
  }

  /** A cleanup step leaves the other steps' flags alone. */
  lemma UntouchedStep(f0: set<Flag>, flags: set<Flag>, rest: set<Undo>, u: Undo)
    requires Untouched(f0, flags, rest) && u in rest && (u.DeleteBridge? ==> rest == {u})
    ensures Main(u) in flags <==> Main(u) in f0
    ensures Untouched(f0, flags, rest - {u}) && Untouched(f0, flags - Clears(u), rest - {u})
  {
  }

  lemma UntouchedAtFirst(f0: set<Flag>)
    ensures Untouched(f0, f0, ALL_UNDO)
  {
  }

  lemma DueInOrder(f: set<Flag>, us: seq<Undo>)
    requires us == [] + (if Main(DeleteVeth) in f then [DeleteVeth] else []) + (if Main(Unmaster) in f then [Unmaster] else [])
                   + (if Main(RestoreDown) in f then [RestoreDown] else []) + (if Main(LowerBridge) in f then [LowerBridge] else [])
                   + if Main(DeleteBridge) in f then [DeleteBridge] else []
    ensures us == Due(f)
  {
  }

  lemma CleanupMore(order: seq<Host>, recs: map<Host, Record>, oks: map<Host, seq<bool>>, h: Host, ok: seq<bool>)
    requires forall x | x in order :: x in recs && x in oks && |oks[x]| == |Due(recs[x].flags)|
    requires h in recs && h !in order && |ok| == |Due(recs[h].flags)|
    ensures forall x | x in order + [h] :: x in recs && x in oks[h := ok] && |oks[h := ok][x]| == |Due(recs[x].flags)|
    ensures CleanupTrace(order + [h], recs, oks[h := ok]) == CleanupTrace(order, recs, oks) + Attempts(Due(recs[h].flags), ok, h, recs[h].nic)
  {
    hide Due, Attempts;
    assert (order + [h])[..|order|] == order;
    SameOks(order, recs, oks, h, ok);
  }

  lemma {:induction false} SameOks(order: seq<Host>, recs: map<Host, Record>, oks: map<Host, seq<bool>>, h: Host, ok: seq<bool>)
    requires forall x | x in order :: x in recs && x in oks && |oks[x]| == |Due(recs[x].flags)|
    requires h !in order
    ensures CleanupTrace(order, recs, oks[h := ok]) == CleanupTrace(order, recs, oks)
  {
    hide Due, Attempts;
    if order != [] {
      assert order[|order| - 1] in order;
      SameOks(order[..|order| - 1], recs, oks, h, ok);
    }
  }

  function Reported(failures: map<Host, set<Undo>>, h: Host): set<Undo> {
    if h in failures then failures[h] else {}
  }

  predicate OksFit(order: seq<Host>, recs: map<Host, Record>, oks: map<Host, seq<bool>>) {
    forall h | h in order :: h in recs && h in oks && |oks[h]| == |Due(recs[h].flags)|
  }

  /** The records in `order` have been swept, once each; what is reported for one is
      what failed, and it stays exactly when more than lowering its bridge failed. */
  ghost predicate Swept(recs0: map<Host, Record>, recs: map<Host, Record>, failures: map<Host, set<Undo>>, order: seq<Host>,
                        oks: map<Host, seq<bool>>, todo: set<Host>) {
    && OksFit(order, recs0, oks)
    && (forall h :: h in order <==> h in recs0 && h !in todo) && (forall i, j | 0 <= i < j < |order| :: order[i] != order[j])
    && failures.Keys <= recs0.Keys - todo && recs.Keys <= failures.Keys + todo && todo <= recs.Keys && todo <= recs0.Keys
    && (forall h | h in todo :: recs[h] == recs0[h])
    && (forall h | h in order :: Reported(failures, h) == Failures(recs0[h].flags, oks[h]) && (h in recs <==> !(Reported(failures, h) <= {LowerBridge})))
    && (forall h | h in recs :: h in recs0 && recs[h].nic == recs0[h].nic && recs[h].flags <= recs0[h].flags)
  }

  lemma SweptStart(recs: map<Host, Record>)
    ensures Swept(recs, recs, map[], [], map[], recs.Keys)
  {
    hide Failures;
  }

  lemma SweptNow(recs0: map<Host, Record>, recs: map<Host, Record>, failures: map<Host, set<Undo>>, order: seq<Host>,
                 oks: map<Host, seq<bool>>, todo: set<Host>, h: Host)
    requires Swept(recs0, recs, failures, order, oks, todo) && h in todo
    ensures h in recs && h in recs0 && recs[h] == recs0[h] && h !in order && h !in failures
  {
    hide Failures, OksFit;
  }

  lemma SweptStep(recs0: map<Host, Record>, recs: map<Host, Record>, recs': map<Host, Record>, failures: map<Host, set<Undo>>,
                  order: seq<Host>, oks: map<Host, seq<bool>>, todo: set<Host>, h: Host, f: set<Undo>, ok: seq<bool>)
    requires Swept(recs0, recs, failures, order, oks, todo) && h in todo && h in recs && h in recs0
    requires |ok| == |Due(recs0[h].flags)| && f == Failures(recs0[h].flags, ok)
    requires h in recs' <==> !(f <= {LowerBridge})
    requires recs' == if h in recs' then (recs - {h})[h := Record(recs[h].nic, recs'[h].flags)] else recs - {h}
    requires h in recs' ==> recs'[h].flags <= recs[h].flags
    ensures Swept(recs0, recs', if f == {} then failures else failures[h := f], order + [h], oks[h := ok], todo - {h})
  {
    hide Failures, Due;
    var failures', oks', order', todo' := if f == {} then failures else failures[h := f], oks[h := ok], order + [h], todo - {h};
    forall x
      ensures x in order' <==> x in recs0 && x !in todo'
    {
      assert x in order <==> x in recs0 && x !in todo;
    }
    assert h !in failures && h !in order;
    forall x | x in order
      ensures Reported(failures', x) == Failures(recs0[x].flags, oks'[x]) && (x in recs' <==> !(Reported(failures', x) <= {LowerBridge}))
    {
      assert x != h && x in recs0;
      assert x in recs' <==> x in recs;
    }
    assert Reported(failures', h) == f;
  }

  lemma SweptEnd(recs0: map<Host, Record>, recs: map<Host, Record>, failures: map<Host, set<Undo>>, order: seq<Host>, oks: map<Host, seq<bool>>)
    requires Swept(recs0, recs, failures, order, oks, {})
    ensures failures == map[] ==> recs == map[]
  {
    hide Failures, OksFit;
  }

  lemma FailuresAre(flags: set<Flag>, oks: seq<bool>)
    requires |oks| == |Due(flags)|
    ensures Failures(flags, oks) == Elems(FailedOf(Due(flags), oks))
  {
  }

  lemma NoCleanup(recs: map<Host, Record>, oks: map<Host, seq<bool>>)
    ensures CleanupTrace([], recs, oks) == []
  {
  }

  /** The commands since t0 all succeeded exactly if they had and this record has no failures. */
  lemma CleanOrNot(t0: seq<Issued>, t: seq<Issued>, t': seq<Issued>, us: seq<Undo>, oks: seq<bool>, h: Host, n: Nic)
    requires |oks| == |us| && |t0| <= |t| && t' == t + Attempts(us, oks, h, n)
    ensures (forall i | |t0| <= i < |t'| :: t'[i].ok) <==> (forall i | |t0| <= i < |t| :: t[i].ok) && Elems(FailedOf(us, oks)) == {}
  {
    var tail := Attempts(us, oks, h, n);
    NoneFailed(us, oks);
    ElemsMore(FailedOf(us, oks), DeleteVeth);
    assert forall i | 0 <= i < |t| :: t'[i] == t[i];
    assert forall i | 0 <= i < |tail| :: t'[|t| + i] == tail[i] && tail[i].ok == oks[i];
    if forall i | |t0| <= i < |t'| :: t'[i].ok {
      forall i | 0 <= i < |oks|
        ensures oks[i]
      {
        assert t'[|t| + i].ok;
      }
      forall i | |t0| <= i < |t|
        ensures t[i].ok
      {
        assert t'[i].ok;
      }
    }
    if (forall i | |t0| <= i < |t| :: t[i].ok) && false !in oks {
      forall i | |t0| <= i < |t'|
        ensures t'[i].ok
      {
        if i >= |t| { assert oks[i - |t|] in oks; }
      }
    }
  }

  class ExternalBridges {
    var records: map<Host, Record>   // _created_bridges
    var kernel: Kernel
    var trace: seq<Issued>           // every link command so far
    const outcome: nat -> bool       // which commands the environment lets succeed
    ghost const initial: Kernel      // the kernel before the first attach

    /** Between calls. */
    ghost predicate Valid()
      reads this
    {
      WellFormed(initial) && Accounts(initial, records, kernel) && AllOutstanding(records) && Traced()
    }

    /** The kernel is what the commands issued so far made of the initial one. */
    ghost predicate Traced()
      reads this`kernel, this`trace
    {
      Honest(outcome, initial, trace) && kernel == Replay(initial, trace)
    }

    /** During the attach of `host`, whose record may still be empty. */
    ghost predicate Attaching(host: Host, others: map<Host, Record>, r: Record)
      reads this
    {
      && WellFormed(initial) && Accounts(initial, records, kernel) && Traced()
      && host !in others && AllOutstanding(others) && records == others[host := r]
    }

    constructor (k: Kernel, succeeds: nat -> bool)
      requires WellFormed(k)
      ensures Valid() && kernel == initial == k && records == map[] && trace == [] && outcome == succeeds
    {
      records, kernel, trace, outcome, initial := map[], k, [], succeeds, k;
      NothingRecorded(k);
    }

    /** One kernel command: any command may fail, and then changes nothing. */
    method Run(c: Command) returns (ok: bool)
      requires Traced()
      modifies this`kernel, this`trace
      ensures Traced() && trace == old(trace) + [Issued(c, ok)]
      ensures ok == (outcome(|old(trace)|) && Possible(old(kernel), c))
      ensures kernel == if ok then Do(old(kernel), c) else old(kernel)
    {
      hide Do, Possible, Honest, Replay;
      ok := outcome(|trace|) && Possible(kernel, c);
      HonestMore(outcome, initial, trace, c, ok);
      trace := trace + [Issued(c, ok)];
      if ok { kernel := Do(kernel, c); }
    }

    /** A command of the attach sequence; on success the record gets `flags`. */
    method Forward(host: Host, ghost others: map<Host, Record>, c: Command, flags: set<Flag>) returns (ok: bool)
      requires host in records && Attaching(host, others, records[host])
      requires Possible(kernel, c) ==> MayIssue(kernel, host, records[host], c, flags)
      modifies this
      ensures trace == old(trace) + [Issued(c, ok)]
      ensures ok ==> Attaching(host, others, Record(old(records)[host].nic, old(records)[host].flags + flags)) && kernel == Do(old(kernel), c)
      ensures !ok ==> Attaching(host, others, old(records)[host]) && records == old(records) && kernel == old(kernel)
    {
      hide MayIssue, Do, Possible, WellFormed, Accounts, AllOutstanding, Honest, Replay;
      ok := Run(c);
      if ok {
        ForwardAccounts(initial, records, old(kernel), host, c, flags);
        records := records[host := Record(records[host].nic, records[host].flags + flags)];
      }
    }

    /** _rollback: every registered step once, in reverse, clearing flags only where
        the undo succeeded; the failures are the steps whose command failed. */
    method Rollback(host: Host, ghost others: map<Host, Record>, undo: seq<Undo>) returns (failures: seq<Undo>, ghost oks: seq<bool>)
      requires host in records && Attaching(host, others, records[host]) && Registered(undo, records[host].flags)
      modifies this
      ensures host in records && Attaching(host, others, records[host]) && records[host].nic == old(records)[host].nic
      ensures |oks| == |undo| && trace == old(trace) + Attempts(Reversed(undo), oks, host, records[host].nic)
      ensures failures == FailedOf(Reversed(undo), oks)
      ensures records[host].flags == old(records)[host].flags * ClearedBy(failures)
      ensures forall u | u in failures :: u in undo
    {
      hide Do, WellFormed, Accounts, AllOutstanding, Registered, Left, Honest, Replay, Attempts, FailedOf, Clears, Main, Possible;
      failures, oks := [], [];
      ghost var flags := records[host].flags;
      ghost var n := records[host].nic;
      ghost var back := Reversed(undo);
      var i := |undo|;
      LeftInitially(undo, flags);
      NoAttempts(host, n);
      assert back[..0] == [] && trace + [] == trace;
      while i > 0
        invariant 0 <= i <= |undo|
        invariant host in records && Attaching(host, others, records[host]) && records[host].nic == n
        invariant Left(undo, i, failures, flags, records[host].flags)
        invariant |oks| == |undo| - i && trace == old(trace) + Attempts(back[..|oks|], oks, host, n)
        invariant failures == FailedOf(back[..|oks|], oks)
      {
        i := i - 1;
        var u := undo[i];
        ghost var before := kernel;
        LeftStep(undo, i, failures, flags, records[host].flags);
        var ok := Run(UndoCommand(u, host, records[host].nic));
        assert back[..|oks| + 1] == back[..|oks|] + [u];
        AttemptMore(back[..|oks|], oks, host, n, u, ok);
        oks := oks + [ok];
        if ok {
          UndoAccounts(initial, records, before, host, u);
          records := records[host := Record(records[host].nic, records[host].flags - Clears(u))];
          assert failures + [] == failures;
        } else {
          failures := failures + [u];
        }
      }
      assert back[..|oks|] == back;
      LeftFinally(undo, failures, flags, records[host].flags);
    }

    /** _abort: roll back, and keep the record only if something is still out there. */
    method Abort(host: Host, ghost others: map<Host, Record>, undo: seq<Undo>) returns (r: Result, ghost oks: seq<bool>)
      requires host in records && Attaching(host, others, records[host]) && Registered(undo, records[host].flags)
      modifies this
      ensures Valid()
      ensures |oks| == |undo| && trace == old(trace) + Attempts(Reversed(undo), oks, host, old(records)[host].nic)
      ensures r == RolledBack(FailedOf(Reversed(undo), oks))
      ensures r.failures == [] ==> records == others
      ensures r.failures != [] ==> records == others[host := Record(old(records)[host].nic, old(records)[host].flags * ClearedBy(r.failures))]
                                   && forall u | u in r.failures :: Main(u) in records[host].flags
    {
      hide WellFormed, Accounts, Registered, ClearedBy, Honest, Replay, Attempts, FailedOf;
      var failures;
      failures, oks := Rollback(host, others, undo);
      Remaining(undo, failures, old(records)[host].flags);
      if records[host].flags == {} {
        PopEmpty(initial, records, kernel, host);
        records := records - {host};
        assert records == others;
      }
      r := RolledBack(failures);
    }

    /** A setting of the bridge or the veth pair, which goes when the pair goes. */
    method Configured(host: Host, ghost others: map<Host, Record>, ghost undo: seq<Undo>, setting: Setting, flags: set<Flag>) returns (ok: bool)
      requires host in records && Attaching(host, others, records[host]) && Registered(undo, records[host].flags)
      requires VethCreated in records[host].flags && flags <= VETH_FLAGS && DeleteVeth in undo
      modifies this
      ensures trace == old(trace) + [Issued(Configure(host, setting), ok)]
      ensures host in records && Attaching(host, others, records[host]) && Registered(undo, records[host].flags)
      ensures records[host] == Record(old(records)[host].nic, old(records)[host].flags + if ok then flags else {})
    {
      hide WellFormed, Accounts, AllOutstanding, Do, Possible, Registered, Honest, Replay;
      ok := Forward(host, others, Configure(host, setting), flags);
      if ok {
        RegisteredMore(undo, old(records)[host].flags, DeleteVeth, flags);
      } else {
        assert records[host].flags + {} == records[host].flags;
      }
    }

    /** The host end of the pair, once it is in the host's namespace. */
    method AttachHost(host: Host, ghost others: map<Host, Record>, ghost undo: seq<Undo>, mtu: bool) returns (ok: bool, ghost n: nat)
      requires host in records && Attaching(host, others, records[host]) && Registered(undo, records[host].flags)
      requires VethCreated in records[host].flags && DeleteVeth in undo
      modifies this
      ensures host in records && Attaching(host, others, records[host]) && Registered(undo, records[host].flags)
      ensures records[host].nic == old(records)[host].nic
      ensures ok ==> records[host].flags == old(records)[host].flags + {VethHostUp, IpAssigned} + if mtu then {MtuSet} else {}
      ensures Progress(old(trace), trace, HostPlan(host, mtu), n) && (ok <==> n == |HostPlan(host, mtu)|)
      ensures Undos(HostPlan(host, mtu)[..n]) == []
    {
      hide WellFormed, Accounts, AllOutstanding, Registered, Traced, Reached, Progress, Undos, UndoOf, VethPlan, HostPlan;
      HostPlanIs(host, mtu);
      ghost var t0, plan := trace, HostPlan(host, mtu);
      ReachedStart(t0, plan);
      n := 0;
      ok := Configured(host, others, undo, HostUpInNetns, {VethHostUp});
      ReachedPlain(t0, t0, plan, 0, trace, ok);
      if !ok { return; }
      n := 1;
      if mtu {
        ok, n := AttachMtu(host, others, undo, t0);
        if !ok { return; }
      }
      ghost var t := trace;
      ok := Configured(host, others, undo, Address, {IpAssigned});
      ReachedPlain(t0, t, plan, n, trace, ok);
      if !ok { return; }
      n := n + 1;
      ReachedEnd(t0, trace, plan);
    }

    /** The optional MTU, set on all three devices. */
    method AttachMtu(host: Host, ghost others: map<Host, Record>, ghost undo: seq<Undo>, ghost t0: seq<Issued>) returns (ok: bool, ghost n: nat)
      requires host in records && Attaching(host, others, records[host]) && Registered(undo, records[host].flags)
      requires VethCreated in records[host].flags && DeleteVeth in undo
      requires Reached(t0, trace, HostPlan(host, true), 1) && Undos(HostPlan(host, true)[..1]) == []
      modifies this
      ensures host in records && Attaching(host, others, records[host]) && Registered(undo, records[host].flags)
      ensures records[host].nic == old(records)[host].nic
      ensures ok ==> records[host].flags == old(records)[host].flags + {MtuSet} && n == 4 && Reached(t0, trace, HostPlan(host, true), 4)
      ensures !ok ==> n < 4 && Progress(t0, trace, HostPlan(host, true), n)
      ensures Undos(HostPlan(host, true)[..n]) == []
    {
      hide WellFormed, Accounts, AllOutstanding, Registered, Traced, Reached, Progress, Undos, UndoOf, VethPlan, HostPlan;
      HostPlanIs(host, true);
      ghost var plan, t := HostPlan(host, true), trace;
      n := 1;
      ok := Configured(host, others, undo, BridgeMtu, {});
      ReachedPlain(t0, t, plan, 1, trace, ok);
      if !ok { return; }
      n, t := 2, trace;
      ok := Configured(host, others, undo, RootMtu, {});
      ReachedPlain(t0, t, plan, 2, trace, ok);
      if !ok { return; }
      n, t := 3, trace;
      ok := Configured(host, others, undo, HostMtu, {MtuSet});
      ReachedPlain(t0, t, plan, 3, trace, ok);
      if !ok { return; }
      n := 4;
    }

    /** The veth pair, its root end, and the move of its host end. */
    method AttachVeth(host: Host, ghost others: map<Host, Record>, undo0: seq<Undo>) returns (ok: bool, undo: seq<Undo>, ghost n: nat)
      requires host in records && Attaching(host, others, records[host]) && Registered(undo0, records[host].flags)
      requires VethCreated !in records[host].flags && DeleteVeth !in undo0
      modifies this
      ensures host in records && Attaching(host, others, records[host]) && Registered(undo, records[host].flags)
      ensures records[host].nic == old(records)[host].nic
      ensures ok ==> DeleteVeth in undo
                     && records[host].flags == old(records)[host].flags + {VethCreated, VethRootMastered, VethRootUp, VethHostNsMoved}
      ensures Progress(old(trace), trace, VethPlan(host), n) && (ok <==> n == |VethPlan(host)|)
      ensures undo == undo0 + Undos(VethPlan(host)[..n])
    {
      hide WellFormed, Accounts, AllOutstanding, Do, Registered, HostAs, NicAs, Traced, Reached, Progress, Undos, UndoOf, VethPlan;
      VethPlanIs(host);
      undo, n := undo0, 0;
      assert undo0 + [] == undo0;
      ghost var f0, t0, plan, t := records[host].flags, trace, VethPlan(host), trace;
      ReachedStart(t0, plan);
      ok := Forward(host, others, AddVeth(host), {VethCreated});
      ReachedUndoable(t0, t, plan, 0, trace, ok, undo0);
      if !ok { return; }
      RegisterStep(undo, f0, DeleteVeth, {VethCreated});
      undo := undo + [DeleteVeth];
      n, t := 1, trace;
      assert Undos(plan[..1]) == [DeleteVeth] by { FirstUndo(plan); }
      ok, n := AttachRootEnd(host, others, undo, t0);
    }

    /** The settings of a new veth pair in the root namespace, and the move. */
    method AttachRootEnd(host: Host, ghost others: map<Host, Record>, ghost undo: seq<Undo>, ghost t0: seq<Issued>) returns (ok: bool, ghost n: nat)
      requires host in records && Attaching(host, others, records[host]) && Registered(undo, records[host].flags)
      requires VethCreated in records[host].flags && DeleteVeth in undo
      requires Reached(t0, trace, VethPlan(host), 1) && Undos(VethPlan(host)[..1]) == [DeleteVeth]
      modifies this
      ensures host in records && Attaching(host, others, records[host]) && Registered(undo, records[host].flags)
      ensures records[host].nic == old(records)[host].nic
      ensures ok ==> records[host].flags == old(records)[host].flags + {VethRootMastered, VethRootUp, VethHostNsMoved}
      ensures Progress(t0, trace, VethPlan(host), n) && (ok <==> n == |VethPlan(host)|)
      ensures Undos(VethPlan(host)[..n]) == [DeleteVeth]
    {
      hide WellFormed, Accounts, AllOutstanding, Registered, Traced, Reached, Progress, Undos, UndoOf, VethPlan, HostPlan;
      VethPlanIs(host);
      ghost var plan, t := VethPlan(host), trace;
      n := 1;
      ok := Configured(host, others, undo, RootMaster, {VethRootMastered});
      ReachedPlain(t0, t, plan, 1, trace, ok);
      if !ok { return; }
      n, t := 2, trace;
      ok := Configured(host, others, undo, RootUp, {VethRootUp});
      ReachedPlain(t0, t, plan, 2, trace, ok);
      if !ok { return; }
      n, t := 3, trace;
      ok := Configured(host, others, undo, HostUp, {});
      ReachedPlain(t0, t, plan, 3, trace, ok);
      if !ok { return; }
      n, t := 4, trace;
      ok := Configured(host, others, undo, HostToNetns, {VethHostNsMoved});
      ReachedPlain(t0, t, plan, 4, trace, ok);
      if !ok { return; }
      n := 5;
      ReachedEnd(t0, trace, plan);
    }

    /** The NIC goes up, if it was down, and under the bridge. */
    method AttachNic(host: Host, ghost others: map<Host, Record>, nic: Nic, priorUp: bool, undo0: seq<Undo>)
      returns (ok: bool, undo: seq<Undo>, ghost n: nat)
      requires host in records && Attaching(host, others, records[host]) && Registered(undo0, records[host].flags)
      requires records[host] == Record(nic, {BridgeCreated, BridgeUp}) && undo0 == [DeleteBridge]
      requires nic in kernel.nics && kernel.nics[nic].up == priorUp
      modifies this
      ensures host in records && Attaching(host, others, records[host]) && Registered(undo, records[host].flags)
      ensures records[host].nic == nic && VethCreated !in records[host].flags && DeleteVeth !in undo
      ensures ok ==> records[host].flags == {BridgeCreated, BridgeUp, PhyEnslaved} + if priorUp then {} else {PhyUpChanged}
      ensures Progress(old(trace), trace, NicPlan(host, nic, priorUp), n) && (ok <==> n == |NicPlan(host, nic, priorUp)|)
      ensures undo == undo0 + Undos(NicPlan(host, nic, priorUp)[..n])
    {
      hide WellFormed, Accounts, AllOutstanding, Registered, HostAs, NicAs, Do, Traced, Reached, Progress, Undos, UndoOf, NicPlan;
      NicPlanIs(host, nic, priorUp);
      undo, n := undo0, 0;
      assert undo0 + [] == undo0;
      ghost var t0, plan, t := trace, NicPlan(host, nic, priorUp), trace;
      ReachedStart(t0, plan);
      if !priorUp {
        ok := Forward(host, others, NicUp(nic), {PhyUpChanged});
        ReachedUndoable(t0, t, plan, 0, trace, ok, undo0);
        if !ok { return; }
        RegisterStep(undo, {BridgeCreated, BridgeUp}, RestoreDown, {PhyUpChanged});
        undo := undo + [RestoreDown];
        n, t := 1, trace;
      }
      ok, undo := EnslaveNic(host, others, nic, undo);
      ReachedUndoable(t0, t, plan, n, trace, ok, undo0);
      if !ok { return; }
      n := n + 1;
      ReachedEnd(t0, trace, plan);
    }

    method EnslaveNic(host: Host, ghost others: map<Host, Record>, nic: Nic, undo0: seq<Undo>) returns (ok: bool, undo: seq<Undo>)
      requires host in records && Attaching(host, others, records[host]) && Registered(undo0, records[host].flags)
      requires records[host].nic == nic && BridgeCreated in records[host].flags && Unmaster !in undo0
      modifies this
      ensures trace == old(trace) + [Issued(Command.Enslave(nic, host), ok)]
      ensures host in records && Attaching(host, others, records[host]) && Registered(undo, records[host].flags)
      ensures records[host] == Record(nic, old(records)[host].flags + if ok then {PhyEnslaved} else {})
      ensures undo == undo0 + if ok then [Unmaster] else []
    {
      hide WellFormed, Accounts, AllOutstanding, Registered, Do, Traced;
      undo := undo0;
      ghost var f := records[host].flags;
      ok := Forward(host, others, Command.Enslave(nic, host), {PhyEnslaved});
      if ok {
        RegisterStep(undo, f, Unmaster, {PhyEnslaved});
        undo := undo + [Unmaster];
      } else {
        assert undo + [] == undo && f + {} == f;
      }
    }

    /** The bridge. */
    method AttachBridge(host: Host, ghost others: map<Host, Record>, nic: Nic) returns (ok: bool, undo: seq<Undo>, ghost n: nat)
      requires Attaching(host, others, Record(nic, {}))
      modifies this
      ensures kernel.nics == old(kernel.nics) && (undo == [] <==> n == 0)
      ensures undo == [] ==> records == old(records) && kernel == old(kernel) && Attaching(host, others, Record(nic, {}))
      ensures undo != [] ==> host in records && Attaching(host, others, records[host]) && Registered(undo, records[host].flags) && records[host].nic == nic
      ensures ok ==> undo == [DeleteBridge] && records[host].flags == {BridgeCreated, BridgeUp}
      ensures Progress(old(trace), trace, BridgePlan(host), n) && (ok <==> n == 2)
      ensures undo == Undos(BridgePlan(host)[..n])
    {
      hide WellFormed, Accounts, AllOutstanding, Registered, HostAs, NicAs, Do, Traced, Reached, Progress, Undos;
      undo, n := [], 0;
      ghost var t0, plan, t := trace, BridgePlan(host), trace;
      ReachedStart(t0, plan);
      ok := Forward(host, others, AddBridge(host), {BridgeCreated});
      ReachedStep(t0, t, plan, 0, trace, ok);
      if !ok { return; }
      BridgeOnly(old(kernel), AddBridge(host));
      RegisterStep([], {}, DeleteBridge, {BridgeCreated});
      undo := [] + [DeleteBridge];
      n, t := 1, trace;
      assert Undos(plan[..1]) == undo;
      assert records[host].flags == {} + {BridgeCreated};
      ghost var k := kernel;
      ok := Forward(host, others, BridgeSetUp(host), {BridgeUp});
      ReachedStep(t0, t, plan, 1, trace, ok);
      if !ok { return; }
      BridgeOnly(k, BridgeSetUp(host));
      RegisteredMore(undo, {} + {BridgeCreated}, DeleteBridge, {BridgeUp});
      n := 2;
      assert undo + [] == undo;
      assert records[host].flags == {BridgeCreated, BridgeUp};
      ReachedEnd(t0, trace, plan);
    }

    /** The forward commands, up to the first that fails. */
    method AttachAll(q: Request, ghost others: map<Host, Record>, priorUp: bool) returns (ok: bool, undo: seq<Undo>, ghost n: nat)
      requires Attaching(q.host, others, Record(q.nic, {}))
      requires q.nic in kernel.nics && kernel.nics[q.nic].up == priorUp
      modifies this
      ensures undo == [] <==> n == 0
      ensures undo == [] ==> records == old(records) && kernel == old(kernel) && Attaching(q.host, others, Record(q.nic, {}))
      ensures undo != [] ==> q.host in records && Attaching(q.host, others, records[q.host]) && Registered(undo, records[q.host].flags)
                             && records[q.host].nic == q.nic
      ensures ok ==> undo != [] && records[q.host].flags == AttachedFlags(priorUp, q.mtu)
      ensures Progress(old(trace), trace, Plan(q, priorUp), n) && (ok <==> n == |Plan(q, priorUp)|)
      ensures undo == Undos(Plan(q, priorUp)[..n])
    {
      hide WellFormed, Accounts, AllOutstanding, Registered, Traced, Progress, Undos, BridgePlan, NicPlan, VethPlan, HostPlan;
      ghost var t0, p1, p2, p3, p4 := trace, BridgePlan(q.host), NicPlan(q.host, q.nic, priorUp), VethPlan(q.host), HostPlan(q.host, q.mtu);
      PlanSizes(q, priorUp);
      ok, undo, n := AttachBridge(q.host, others, q.nic);
      ProgressBound(t0, trace, p1, n);
      if !ok {
        StopsAt(t0, trace, p1, p2, p3, p4, n);
        return;
      }
      ghost var t1, m := trace, 0;
      ok, undo, m := AttachNic(q.host, others, q.nic, priorUp, undo);
      ProgressBound(t1, trace, p2, m);
      PlansCompose(t0, t1, trace, p1, p2, m);
      n := |p1| + m;
      assert p1[..2] == p1;
      if !ok {
        StopsAfter(t0, trace, p1 + p2, p3, p4, n);
        return;
      }
      assert (p1 + p2)[..|p1 + p2|] == p1 + p2;
      assert undo == Undos(p1 + p2);
      ghost var t2 := trace;
      ok, undo, m := AttachVeth(q.host, others, undo);
      ProgressBound(t2, trace, p3, m);
      PlansCompose(t0, t2, trace, p1 + p2, p3, m);
      n := |p1 + p2| + m;
      if !ok {
        PlanStops(t0, trace, p1 + p2 + p3, p4, n);
        return;
      }
      assert (p1 + p2 + p3)[..|p1 + p2 + p3|] == p1 + p2 + p3;
      assert undo == Undos(p1 + p2 + p3);
      ghost var t3 := trace;
      ok, m := AttachHost(q.host, others, undo, q.mtu);
      PlansCompose(t0, t3, trace, p1 + p2 + p3, p4, m);
      n := |p1 + p2 + p3| + m;
    }

    /** attach_external_via_bridge: refused exactly on its pre-checks, with nothing
        touched; otherwise it runs its plan, and on the first failure everything done
        is undone, and what could not be undone stays recorded. */
    method Attach(q: Request) returns (r: Result, ghost n: nat, ghost oks: seq<bool>)
      requires Valid()
      modifies this
      ensures Valid()
      ensures var p := Precheck(q, old(records), old(kernel));
              if p.Some? then r == p.value && trace == old(trace) && records == old(records) && kernel == old(kernel)
              else Ran(Plan(q, old(kernel.nics)[q.nic].up), q, old(trace), trace, r, n, oks)
      ensures trace == old(trace) <==> !GoesAhead(q, old(records), old(kernel))
      ensures r.Refused? ==> Fault(q, old(records), old(kernel), r.why)
      ensures r.NoSuchHost? ==> !q.hostExists
      ensures !r.Attached? && false !in oks ==> records == old(records) && kernel == old(kernel)
      ensures r.Attached? ==> records == old(records)[q.host := Record(q.nic, AttachedFlags(old(kernel.nics)[q.nic].up, q.mtu))]
      ensures r.RolledBack? ==> records.Keys <= old(records).Keys + {q.host} && forall h | h in old(records) :: h in records && records[h] == old(records)[h]
      ensures r.RolledBack? ==> (q.host in records <==> r.failures != [])
      ensures r.RolledBack? && r.failures != [] ==>
                && records[q.host].nic == q.nic && records[q.host].flags <= ClearedBy(r.failures)
                && forall u | u in r.failures :: Main(u) in records[q.host].flags
    {
      hide WellFormed, Accounts, AllOutstanding, Registered, Traced, Plan, Undos, Attempts, FailedOf, ClearedBy, Unowned;
      n, oks := 0, [];
      PrecheckMeans(q, records, kernel);
      if !q.staticIp { return Refused(NoStaticIp), n, oks; }
      if !q.namesFit { return Refused(NamesTooLong), n, oks; }
      if q.host in records { return Refused(AlreadyAttached), n, oks; }
      if !Unowned(records, q.nic) { return Refused(NicOwned), n, oks; }
      if !q.hostExists { return NoSuchHost, n, oks; }
      if q.nic !in kernel.nics || !q.linkReadable { return Refused(LinkUnreadable), n, oks; }
      if kernel.nics[q.nic].master != Free { return Refused(Refusal.Enslaved), n, oks; }
      if !q.addressesReadable { return Refused(AddressesUnreadable), n, oks; }
      if !q.addressesClean { return Refused(HasAddress), n, oks; }
      if !q.flagsReadable { return Refused(AdminStateUnknown), n, oks; }
      var priorUp := kernel.nics[q.nic].up;
      ghost var others := records;
      EmptyRecord(initial, records, kernel, q.host, q.nic);
      records := records[q.host := Record(q.nic, {})];
      var ok, undo;
      ok, undo, n := AttachAll(q, others, priorUp);
      ghost var t := trace;
      ProgressBound(old(trace), t, Plan(q, priorUp), n);
      PlanNotEmpty(q, priorUp);
      ProgressLonger(old(trace), t, Plan(q, priorUp), n);
      if ok {
        NowOutstanding(others, q.host, records[q.host]);
        RanThrough(Plan(q, priorUp), q, old(trace), t, n);
        return Attached, n, oks;
      }
      if undo == [] {
        PopEmpty(initial, records, kernel, q.host);
        records := records - {q.host};
        assert records == others;
        RanNowhere(Plan(q, priorUp), q, old(trace), t);
        return BridgeNotCreated, n, oks;
      }
      r, oks := Abort(q.host, others, undo);
      RanBack(Plan(q, priorUp), q, old(trace), t, trace, n, oks);
      NoneFailed(Reversed(undo), oks);
      if r.failures == [] {
        Determined(initial, records, kernel, old(kernel));
      }
    }

    /** One cleanup step of one record, if its flag asks for it. */
    method CleanupStep(host: Host, ghost others: map<Host, Record>, u: Undo, ghost done: set<Undo>, failed: set<Undo>,
                       ghost us0: seq<Undo>, ghost oks0: seq<bool>, ghost t0: seq<Issued>, ghost f0: set<Flag>, ghost rest: set<Undo>)
      returns (failures: set<Undo>, ghost us: seq<Undo>, ghost oks: seq<bool>)
      requires host in records && Attaching(host, others, records[host])
      requires u !in done && failed <= done && Settled(done, failed, records[host].flags)
      requires Untouched(f0, records[host].flags, rest) && u in rest && (u.DeleteBridge? ==> rest == {u})
      requires |oks0| == |us0| && trace == t0 + Attempts(us0, oks0, host, records[host].nic) && failed == Elems(FailedOf(us0, oks0))
      modifies this
      ensures host in records && Attaching(host, others, records[host])
      ensures failed <= failures <= failed + {u} && Settled(done + {u}, failures, records[host].flags)
      ensures records[host].nic == old(records)[host].nic && records[host].flags <= old(records)[host].flags
      ensures us == us0 + (if Main(u) in f0 then [u] else []) && Untouched(f0, records[host].flags, rest - {u})
      ensures |oks| == |us| && trace == t0 + Attempts(us, oks, host, records[host].nic) && failures == Elems(FailedOf(us, oks))
    {
      hide WellFormed, Accounts, AllOutstanding, Do, Possible, Clears, Settled, Traced, Attempts, FailedOf, Elems, Main, Untouched;
      failures, us, oks := failed, us0, oks0;
      assert us0 + [] == us0;
      SettledMore(done, failed, records[host].flags, u);
      UntouchedStep(f0, records[host].flags, rest, u);
      if Main(u) in records[host].flags {
        ghost var before := kernel;
        var ok := Run(UndoCommand(u, host, records[host].nic));
        AttemptMore(us0, oks0, host, records[host].nic, u, ok);
        ElemsMore(FailedOf(us0, oks0), u);
        us, oks := us0 + [u], oks0 + [ok];
        if ok {
          UndoAccounts(initial, records, before, host, u);
          records := records[host := Record(records[host].nic, records[host].flags - Clears(u))];
        } else {
          failures := failures + {u};
        }
      }
    }

    /** The steps of one record's cleanup. */
    method CleanupSteps(host: Host, ghost others: map<Host, Record>) returns (failures: set<Undo>, ghost oks: seq<bool>)
      requires host in records && Attaching(host, others, records[host])
      modifies this
      ensures host in records && Attaching(host, others, records[host]) && records[host].nic == old(records)[host].nic
      ensures |oks| == |Due(old(records)[host].flags)|
      ensures trace == old(trace) + Attempts(Due(old(records)[host].flags), oks, host, old(records)[host].nic)
      ensures failures == Failures(old(records)[host].flags, oks)
      ensures records[host].flags <= old(records)[host].flags && Settled(ALL_UNDO, failures, records[host].flags)
    {
      hide WellFormed, Accounts, AllOutstanding, Settled, Main, Traced, Attempts, FailedOf, Elems, Due, Untouched, Attaching;
      UntouchedAtFirst(records[host].flags);
      NothingSettled(records[host].flags);
      ghost var f0, t0, us := records[host].flags, trace, [];
      NoAttempts(host, records[host].nic);
      ElemsMore([], DeleteVeth);
      assert trace + [] == trace;
      ghost var done, rest: set<Undo> := {}, ALL_UNDO;
      failures, us, oks := CleanupStep(host, others, DeleteVeth, {}, {}, [], [], t0, f0, ALL_UNDO);
      done, rest := done + {DeleteVeth}, rest - {DeleteVeth};
      failures, us, oks := CleanupStep(host, others, Unmaster, done, failures, us, oks, t0, f0, rest);
      done, rest := done + {Unmaster}, rest - {Unmaster};
      failures, us, oks := CleanupStep(host, others, RestoreDown, done, failures, us, oks, t0, f0, rest);
      done, rest := done + {RestoreDown}, rest - {RestoreDown};
      failures, us, oks := CleanupStep(host, others, LowerBridge, done, failures, us, oks, t0, f0, rest);
      done, rest := done + {LowerBridge}, rest - {LowerBridge};
      failures, us, oks := CleanupStep(host, others, DeleteBridge, done, failures, us, oks, t0, f0, rest);
      DueInOrder(f0, us);
      assert done + {DeleteBridge} == ALL_UNDO;
    }

    /** cleanup_external_bridges for one record: every step that is due is tried once,
        in order; a failure to lower the bridge no longer matters once it is deleted. */
    method CleanupRecord(host: Host, ghost others: map<Host, Record>) returns (failures: set<Undo>, ghost oks: seq<bool>)
      requires host in records && Valid() && others == records - {host}
      modifies this
      ensures Valid()
      ensures |oks| == |Due(old(records)[host].flags)|
      ensures trace == old(trace) + Attempts(Due(old(records)[host].flags), oks, host, old(records)[host].nic)
      ensures failures == Failures(old(records)[host].flags, oks)
      ensures host in records <==> !(failures <= {LowerBridge})
      ensures records == if host in records then others[host := Record(old(records)[host].nic, records[host].flags)] else others
      ensures host in records ==> records[host].flags <= old(records)[host].flags && Settled(ALL_UNDO, failures, records[host].flags)
    {
      hide WellFormed, Accounts, AllOutstanding, Settled, HostFits, Main, Traced, Attempts, Failures, Due;
      OthersOutstanding(records, host);
      assert records == others[host := records[host]];
      failures, oks := CleanupSteps(host, others);
      Fits(initial, records, kernel, host);
      WhatStays(initial, records, kernel, host, failures);
      if records[host].flags == {} {
        PopEmpty(initial, records, kernel, host);
        records := records - {host};
        assert records == others;
      } else {
        NowOutstanding(others, host, records[host]);
      }
    }

    /** cleanup_external_bridges: every due step of every record is tried once, the
        failures are the steps whose command failed, and if none failed the kernel is
        back to what it was before the first attach. */
    method Cleanup() returns (failures: map<Host, set<Undo>>, ghost order: seq<Host>, ghost oks: map<Host, seq<bool>>)
      requires Valid()
      modifies this
      ensures Valid() && Swept(old(records), records, failures, order, oks, {})
      ensures trace == old(trace) + CleanupTrace(order, old(records), oks)
      ensures (forall i | |old(trace)| <= i < |trace| :: trace[i].ok) ==> records == map[] && kernel == initial
    {
      hide WellFormed, Accounts, AllOutstanding, Settled, Traced, Attempts, Due, Failures, CleanupTrace, Swept;
      failures, order, oks := map[], [], map[];
      var todo := records.Keys;
      NoCleanup(records, oks);
      SweptStart(records);
      assert trace + [] == trace;
      ghost var clean := true;
      while todo != {}
        invariant Valid() && Swept(old(records), records, failures, order, oks, todo)
        invariant OksFit(order, old(records), oks) && trace == old(trace) + CleanupTrace(order, old(records), oks)
        invariant |old(trace)| <= |trace| && (clean <==> forall i | |old(trace)| <= i < |trace| :: trace[i].ok)
        invariant clean ==> failures == map[]
      {
        var h :| h in todo;
        SweptNow(old(records), records, failures, order, oks, todo, h);
        ghost var others, t, r, recs := records - {h}, trace, records[h], records;
        var f;
        ghost var ok;
        f, ok := CleanupRecord(h, others);
        CleanupMore(order, old(records), oks, h, ok);
        Assoc(old(trace), CleanupTrace(order, old(records), oks), Attempts(Due(r.flags), ok, h, r.nic));
        CleanOrNot(old(trace), t, trace, Due(r.flags), ok, h, r.nic);
        FailuresAre(r.flags, ok);
        SweptStep(old(records), recs, records, failures, order, oks, todo, h, f, ok);
        clean := clean && f == {};
        order, oks, todo := order + [h], oks[h := ok], todo - {h};
        if f != {} { failures := failures[h := f]; }
      }
      SweptEnd(old(records), records, failures, order, oks);
      if clean {
        NothingRecorded(initial);
        Determined(initial, records, kernel, initial);
      }
    }
  }
}
