/** What the records of attached NICs account for: the kernel's links, the flags of a
    record, and how each command and each undo step keeps the two in step. */
module BridgeLedger {

  newtype Host = x: int | 0 <= x
  newtype Nic = x: int | 0 <= x

  // ---------- the kernel ----------

  datatype Master = Free | Bridge(host: Host) | Foreign

  datatype Port = Port(up: bool, master: Master)

  /** Bridges br-<host> with their admin state, physical NICs, and the hosts whose
      veth pair exists. */
  datatype Kernel = Kernel(bridges: map<Host, bool>, nics: map<Nic, Port>, veths: set<Host>)

  /** A NIC's master exists. */
  predicate WellFormed(k: Kernel) {
    forall n | n in k.nics && k.nics[n].master.Bridge? :: k.nics[n].master.host in k.bridges
  }

  datatype Command =
    | AddBridge(h: Host) | BridgeSetUp(h: Host) | BridgeSetDown(h: Host) | DelBridge(h: Host)
    | NicUp(n: Nic) | NicDown(n: Nic) | Enslave(n: Nic, h: Host) | NoMaster(n: Nic)
    | AddVeth(h: Host) | DelVeth(h: Host)
    | Configure(h: Host, setting: Setting)

  /** Settings that live and die with the veth pair or the bridge. */
  datatype Setting = RootMaster | RootUp | HostUp | HostToNetns | HostUpInNetns | BridgeMtu | RootMtu | HostMtu | Address

  function SetPort(k: Kernel, n: Nic, p: Port): Kernel {
    k.(nics := k.nics[n := p])
  }

  /** What a successful command does; deleting a bridge releases its ports. */
  function Do(k: Kernel, c: Command): Kernel {
    match c
    case AddBridge(h) => k.(bridges := k.bridges[h := false])
    case BridgeSetUp(h) => k.(bridges := k.bridges[h := true])
    case BridgeSetDown(h) => k.(bridges := k.bridges[h := false])
    case DelBridge(h) => k.(bridges := k.bridges - {h}, nics := map n | n in k.nics :: Released(k.nics[n], h))
    case NicUp(n) => if n in k.nics then SetPort(k, n, Port(true, k.nics[n].master)) else k
    case NicDown(n) => if n in k.nics then SetPort(k, n, Port(false, k.nics[n].master)) else k
    case Enslave(n, h) => if n in k.nics then SetPort(k, n, Port(k.nics[n].up, Bridge(h))) else k
    case NoMaster(n) => if n in k.nics then SetPort(k, n, Port(k.nics[n].up, Free)) else k
    case AddVeth(h) => k.(veths := k.veths + {h})
    case DelVeth(h) => k.(veths := k.veths - {h})
    case Configure(_, _) => k
  }

  function Released(p: Port, h: Host): Port {
    if p.master == Bridge(h) then Port(p.up, Free) else p
  }

  /** The kernel refuses to add a link whose name is taken. */
  predicate Possible(k: Kernel, c: Command) {
    match c
    case AddBridge(h) => h !in k.bridges
    case AddVeth(h) => h !in k.veths
    case _ => true
  }

  // ---------- the registry ----------

  /** The outstanding-state flags of a record. */
  datatype Flag =
    | BridgeCreated | BridgeUp | PhyUpChanged | PhyEnslaved
    | VethCreated | VethRootMastered | VethRootUp | VethHostNsMoved | VethHostUp | MtuSet | IpAssigned

  const VETH_FLAGS: set<Flag> := {VethCreated, VethRootMastered, VethRootUp, VethHostNsMoved, VethHostUp, MtuSet, IpAssigned}

  datatype Record = Record(nic: Nic, flags: set<Flag>)

  /** Undo steps; LowerBridge is used by cleanup only. */
  datatype Undo = DeleteBridge | LowerBridge | RestoreDown | Unmaster | DeleteVeth

  function Clears(u: Undo): set<Flag> {
    match u
    case DeleteBridge => {BridgeCreated, BridgeUp}
    case LowerBridge => {BridgeUp}
    case RestoreDown => {PhyUpChanged}
    case Unmaster => {PhyEnslaved}
    case DeleteVeth => VETH_FLAGS
  }

  /** The flag that asks for the undo step. */
  function Main(u: Undo): Flag {
    match u
    case DeleteBridge => BridgeCreated
    case LowerBridge => BridgeUp
    case RestoreDown => PhyUpChanged
    case Unmaster => PhyEnslaved
    case DeleteVeth => VethCreated
  }

  function UndoCommand(u: Undo, h: Host, n: Nic): Command {
    match u
    case DeleteBridge => DelBridge(h)
    case LowerBridge => BridgeSetDown(h)
    case RestoreDown => NicDown(n)
    case Unmaster => NoMaster(n)
    case DeleteVeth => DelVeth(h)
  }

  // ---------- what the records account for ----------

  predicate SameHost(k: Kernel, k': Kernel, h: Host) {
    && (h in k.bridges <==> h in k'.bridges)
    && (h in k.bridges && h in k'.bridges ==> k.bridges[h] == k'.bridges[h])
    && (h in k.veths <==> h in k'.veths)
  }

  predicate SameNic(k: Kernel, k': Kernel, n: Nic) {
    && (n in k.nics <==> n in k'.nics)
    && (n in k.nics && n in k'.nics ==> k.nics[n] == k'.nics[n])
  }

  /** The host's bridge and veth pair are exactly what its flags say. */
  predicate HostAs(k0: Kernel, k: Kernel, h: Host, flags: set<Flag>) {
    && (if BridgeCreated in flags then h !in k0.bridges && h in k.bridges && k.bridges[h] == (BridgeUp in flags)
        else BridgeUp !in flags && (h in k.bridges <==> h in k0.bridges) && (h in k.bridges && h in k0.bridges ==> k.bridges[h] == k0.bridges[h]))
    && (if VethCreated in flags then h !in k0.veths && h in k.veths
        else flags !! VETH_FLAGS && (h in k.veths <==> h in k0.veths))
  }

  /** The NIC is exactly what the flags say; a deleted bridge no longer holds it. */
  predicate NicAs(k0: Kernel, k: Kernel, h: Host, r: Record) {
    && r.nic in k0.nics && r.nic in k.nics && k0.nics[r.nic].master == Free
    && (PhyUpChanged in r.flags ==> !k0.nics[r.nic].up)
    && k.nics[r.nic].up == (k0.nics[r.nic].up || PhyUpChanged in r.flags)
    && k.nics[r.nic].master == (if PhyEnslaved in r.flags && BridgeCreated in r.flags then Bridge(h) else Free)
  }

  predicate Unowned(recs: map<Host, Record>, n: Nic) {
    forall h | h in recs :: recs[h].nic != n
  }

  predicate HostFits(k0: Kernel, recs: map<Host, Record>, k: Kernel, h: Host) {
    if h in recs then HostAs(k0, k, h, recs[h].flags) && NicAs(k0, k, h, recs[h]) else SameHost(k0, k, h)
  }

  ghost predicate NicFits(k0: Kernel, recs: map<Host, Record>, k: Kernel, n: Nic) {
    (n in k.nics <==> n in k0.nics) && (Unowned(recs, n) ==> SameNic(k0, k, n))
  }

  /** No NIC belongs to two records. */
  predicate OneOwner(recs: map<Host, Record>) {
    forall h, h' | h in recs && h' in recs && h != h' :: recs[h].nic != recs[h'].nic
  }

  /** The kernel differs from k0 exactly as the records' flags say. */
  ghost predicate Accounts(k0: Kernel, recs: map<Host, Record>, k: Kernel) {
    && OneOwner(recs)
    && (forall h :: HostFits(k0, recs, k, h))
    && (forall n :: NicFits(k0, recs, k, n))
  }

  /** Nothing is retained without reason. */
  predicate AllOutstanding(recs: map<Host, Record>) {
    forall h | h in recs :: recs[h].flags != {}
  }

  /** The records leave one kernel state only. */
  lemma Determined(k0: Kernel, recs: map<Host, Record>, k: Kernel, k': Kernel)
    requires Accounts(k0, recs, k) && Accounts(k0, recs, k')
    ensures k == k'
  {
    forall h
      ensures SameHost(k, k', h)
    {
      assert HostFits(k0, recs, k, h) && HostFits(k0, recs, k', h);
    }
    forall n
      ensures SameNic(k, k', n)
    {
      assert NicFits(k0, recs, k, n) && NicFits(k0, recs, k', n);
      if !Unowned(recs, n) {
        var h :| h in recs && recs[h].nic == n;
        assert HostFits(k0, recs, k, h) && HostFits(k0, recs, k', h);
      }
    }
    SameEverywhere(k, k');
  }

  lemma SameEverywhere(k: Kernel, k': Kernel)
    requires (forall h :: SameHost(k, k', h)) && (forall n :: SameNic(k, k', n))
    ensures k == k'
  {
    assert forall h :: h in k.bridges <==> h in k'.bridges by {
      forall h ensures h in k.bridges <==> h in k'.bridges { assert SameHost(k, k', h); }
    }
    assert forall h | h in k.bridges :: k.bridges[h] == k'.bridges[h] by {
      forall h | h in k.bridges ensures k.bridges[h] == k'.bridges[h] { assert SameHost(k, k', h); }
    }
    assert k.bridges == k'.bridges;
    assert forall h :: h in k.veths <==> h in k'.veths by {
      forall h ensures h in k.veths <==> h in k'.veths { assert SameHost(k, k', h); }
    }
    assert k.veths == k'.veths;
    assert forall n :: n in k.nics <==> n in k'.nics by {
      forall n ensures n in k.nics <==> n in k'.nics { assert SameNic(k, k', n); }
    }
    assert forall n | n in k.nics :: k.nics[n] == k'.nics[n] by {
      forall n | n in k.nics ensures k.nics[n] == k'.nics[n] { assert SameNic(k, k', n); }
    }
    assert k.nics == k'.nics;
  }

  lemma NothingRecorded(k: Kernel)
    ensures Accounts(k, map[], k)
  {
  }

  /** Whatever the kernel has beyond k0 is flagged in a record. */
  lemma LeftoverIsFlagged(k0: Kernel, recs: map<Host, Record>, k: Kernel, h: Host, n: Nic)
    requires Accounts(k0, recs, k)
    ensures h in k.bridges && h !in k0.bridges ==> h in recs && BridgeCreated in recs[h].flags
    ensures h in k.veths && h !in k0.veths ==> h in recs && VethCreated in recs[h].flags
    ensures !SameNic(k0, k, n) ==> exists o :: o in recs && recs[o].nic == n && (PhyUpChanged in recs[o].flags || PhyEnslaved in recs[o].flags)
  {
    assert HostFits(k0, recs, k, h) && NicFits(k0, recs, k, n);
    if !Unowned(recs, n) {
      var o :| o in recs && recs[o].nic == n;
      assert HostFits(k0, recs, k, o);
    }
  }

  /** A change to one record and to its own host and NIC keeps the account. */
  lemma LocalChange(k0: Kernel, recs: map<Host, Record>, k: Kernel, h: Host, r: Record, k': Kernel)
    requires Accounts(k0, recs, k) && h in recs && r.nic == recs[h].nic
    requires forall h' | h' != h :: SameHost(k, k', h')
    requires forall n | n != r.nic :: SameNic(k, k', n)
    requires HostAs(k0, k', h, r.flags) && NicAs(k0, k', h, r)
    ensures Accounts(k0, recs[h := r], k')
  {
    var recs' := recs[h := r];
    forall h'
      ensures HostFits(k0, recs', k', h')
    {
      assert HostFits(k0, recs, k, h');
      if h' != h {
        assert SameHost(k, k', h');
        assert h' in recs ==> recs[h'].nic != r.nic && SameNic(k, k', recs[h'].nic);
      }
    }
    forall n
      ensures NicFits(k0, recs', k', n)
    {
      assert NicFits(k0, recs, k, n);
      if n != r.nic {
        assert SameNic(k, k', n);
        assert forall x | x in recs :: x in recs' && recs'[x].nic == recs[x].nic;
      } else {
        assert recs'[h].nic == n;
      }
    }
  }

  /** A forward command with the flag it sets is one the attach sequence may issue now. */
  predicate MayIssue(k: Kernel, h: Host, r: Record, c: Command, flags: set<Flag>) {
    match c
    case AddBridge(b) => b == h && flags == {BridgeCreated} && BridgeCreated !in r.flags && PhyEnslaved !in r.flags && h !in k.bridges
    case BridgeSetUp(b) => b == h && flags == {BridgeUp} && BridgeCreated in r.flags
    case NicUp(n) => n == r.nic && flags == {PhyUpChanged} && n in k.nics && !k.nics[n].up && PhyUpChanged !in r.flags
    case Enslave(n, b) => n == r.nic && b == h && flags == {PhyEnslaved} && BridgeCreated in r.flags
    case AddVeth(b) => b == h && flags == {VethCreated} && VethCreated !in r.flags && h !in k.veths
    case Configure(b, _) => b == h && flags <= VETH_FLAGS && VethCreated in r.flags
    case _ => false
  }

  lemma ForwardLocal(k0: Kernel, k: Kernel, h: Host, r: Record, c: Command, flags: set<Flag>)
    requires HostAs(k0, k, h, r.flags) && NicAs(k0, k, h, r) && MayIssue(k, h, r, c, flags)
    ensures HostAs(k0, Do(k, c), h, r.flags + flags) && NicAs(k0, Do(k, c), h, Record(r.nic, r.flags + flags))
    ensures forall h' | h' != h :: SameHost(k, Do(k, c), h')
    ensures forall n | n != r.nic :: SameNic(k, Do(k, c), n)
  {
  }

  lemma ForwardAccounts(k0: Kernel, recs: map<Host, Record>, k: Kernel, h: Host, c: Command, flags: set<Flag>)
    requires Accounts(k0, recs, k) && h in recs && MayIssue(k, h, recs[h], c, flags)
    ensures Accounts(k0, recs[h := Record(recs[h].nic, recs[h].flags + flags)], Do(k, c))
  {
    hide MayIssue, Do, HostAs, NicAs, SameHost, SameNic;
    assert HostFits(k0, recs, k, h);
    ForwardLocal(k0, k, h, recs[h], c, flags);
    LocalChange(k0, recs, k, h, Record(recs[h].nic, recs[h].flags + flags), Do(k, c));
  }

  lemma BridgeOnly(k: Kernel, c: Command)
    requires c.AddBridge? || c.BridgeSetUp?
    ensures Do(k, c).nics == k.nics
  {
  }

  /** Only the record's own NIC hangs on its bridge. */
  lemma OnlyPort(k0: Kernel, recs: map<Host, Record>, k: Kernel, h: Host, n: Nic)
    requires WellFormed(k0) && Accounts(k0, recs, k) && h in recs && BridgeCreated in recs[h].flags
    requires n in k.nics && n != recs[h].nic
    ensures k.nics[n].master != Bridge(h)
  {
    assert HostFits(k0, recs, k, h) && NicFits(k0, recs, k, n);
    if !Unowned(recs, n) {
      var h' :| h' in recs && recs[h'].nic == n;
      assert HostFits(k0, recs, k, h');
    }
  }

  lemma UndoLocal(k0: Kernel, k: Kernel, h: Host, r: Record, u: Undo)
    requires HostAs(k0, k, h, r.flags) && NicAs(k0, k, h, r) && Main(u) in r.flags
    requires u.DeleteBridge? ==> forall n | n in k.nics && n != r.nic :: k.nics[n].master != Bridge(h)
    ensures var k' := Do(k, UndoCommand(u, h, r.nic));
            && HostAs(k0, k', h, r.flags - Clears(u)) && NicAs(k0, k', h, Record(r.nic, r.flags - Clears(u)))
            && (forall h' | h' != h :: SameHost(k, k', h'))
            && (forall n | n != r.nic :: SameNic(k, k', n))
  {
  }

  lemma UndoAccounts(k0: Kernel, recs: map<Host, Record>, k: Kernel, h: Host, u: Undo)
    requires WellFormed(k0) && Accounts(k0, recs, k) && h in recs && Main(u) in recs[h].flags
    ensures Accounts(k0, recs[h := Record(recs[h].nic, recs[h].flags - Clears(u))], Do(k, UndoCommand(u, h, recs[h].nic)))
  {
    hide Do, HostAs, NicAs, SameHost, SameNic, WellFormed;
    assert HostFits(k0, recs, k, h);
    if u.DeleteBridge? {
      forall n | n in k.nics && n != recs[h].nic
        ensures k.nics[n].master != Bridge(h)
      {
        OnlyPort(k0, recs, k, h, n);
      }
    }
    UndoLocal(k0, k, h, recs[h], u);
    LocalChange(k0, recs, k, h, Record(recs[h].nic, recs[h].flags - Clears(u)), Do(k, UndoCommand(u, h, recs[h].nic)));
  }

  /** An empty record may come and go. */
  lemma EmptyRecord(k0: Kernel, recs: map<Host, Record>, k: Kernel, h: Host, n: Nic)
    requires h !in recs && Unowned(recs, n) && n in k.nics && k.nics[n].master == Free && Accounts(k0, recs, k)
    ensures Accounts(k0, recs[h := Record(n, {})], k)
  {
    var recs' := recs[h := Record(n, {})];
    forall h'
      ensures HostFits(k0, recs', k, h')
    {
      assert HostFits(k0, recs, k, h') && NicFits(k0, recs, k, n);
    }
    forall m
      ensures NicFits(k0, recs', k, m)
    {
      assert NicFits(k0, recs, k, m);
      assert Unowned(recs', m) ==> Unowned(recs, m) by {
        assert forall x | x in recs :: x in recs' && recs'[x] == recs[x];
      }
    }
  }

  lemma PopEmpty(k0: Kernel, recs: map<Host, Record>, k: Kernel, h: Host)
    requires h in recs && recs[h].flags == {} && Accounts(k0, recs, k)
    ensures Accounts(k0, recs - {h}, k)
  {
    var recs' := recs - {h};
    forall h'
      ensures HostFits(k0, recs', k, h')
    {
      assert HostFits(k0, recs, k, h');
    }
    forall n
      ensures NicFits(k0, recs', k, n)
    {
      assert NicFits(k0, recs, k, n) && HostFits(k0, recs, k, h);
      assert forall x | x in recs && x != h :: x in recs' && recs'[x] == recs[x];
    }
  }

  // ---------- the rollback list ----------

  function ClearedBy(us: seq<Undo>): set<Flag> {
    if us == [] then {} else ClearedBy(us[..|us| - 1]) + Clears(us[|us| - 1])
  }

  /** The rollback list of an attach in progress: its steps are due, each once,
      and between them they answer for every flag. */
  predicate Registered(us: seq<Undo>, flags: set<Flag>) {
    && (forall i | 0 <= i < |us| :: Main(us[i]) in flags && !us[i].LowerBridge?)
    && (forall i, j | 0 <= i < j < |us| :: us[i] != us[j])
    && flags <= ClearedBy(us)
  }

  /** Distinct rollback steps clear distinct flags. */
  lemma {:induction false} ClearsApart(us: seq<Undo>, u: Undo)
    requires u !in us && !u.LowerBridge? && LowerBridge !in us
    ensures Clears(u) !! ClearedBy(us)
  {
    if us != [] {
      assert us[|us| - 1] in us;
      ClearsApart(us[..|us| - 1], u);
    }
  }

  lemma {:induction false} MainCleared(us: seq<Undo>, j: nat)
    requires j < |us|
    ensures Main(us[j]) in ClearedBy(us)
  {
    if j < |us| - 1 { MainCleared(us[..|us| - 1], j); }
  }

  /** The flags left when the first i steps of `undo` are still to come. */
  predicate Left(undo: seq<Undo>, i: nat, failures: seq<Undo>, flags: set<Flag>, now: set<Flag>)
    requires i <= |undo|
  {
    && now == flags * (ClearedBy(undo[..i]) + ClearedBy(failures))
    && (forall u | u in failures :: u in undo[i..])
  }

  lemma LeftInitially(undo: seq<Undo>, flags: set<Flag>)
    requires Registered(undo, flags)
    ensures Left(undo, |undo|, [], flags, flags)
  {
    assert undo[..|undo|] == undo;
  }

  lemma ClearedMore(us: seq<Undo>, u: Undo)
    ensures ClearedBy(us + [u]) == ClearedBy(us) + Clears(u)
  {
    hide Clears;
    assert (us + [u])[..|us|] == us;
  }

  lemma LeftStep(undo: seq<Undo>, i: nat, failures: seq<Undo>, flags: set<Flag>, now: set<Flag>)
    requires i < |undo| && Registered(undo, flags) && Left(undo, i + 1, failures, flags, now)
    ensures Main(undo[i]) in now
    ensures Left(undo, i, failures, flags, now - Clears(undo[i]))
    ensures Left(undo, i, failures + [undo[i]], flags, now)
  {
    hide Clears, Main, ClearedBy;
    var u, us := undo[i], undo[..i];
    assert undo[..i + 1] == us + [u];
    ClearedMore(us, u);
    ClearedMore(failures, u);
    MainCleared(undo[..i + 1], i);
    assert undo[i..] == [u] + undo[i + 1..];
    assert u !in us && u !in undo[i + 1..];
    assert LowerBridge !in undo;
    ClearsApart(us, u);
    ClearsApart(failures, u);
  }

  lemma LeftFinally(undo: seq<Undo>, failures: seq<Undo>, flags: set<Flag>, now: set<Flag>)
    requires Left(undo, 0, failures, flags, now)
    ensures now == flags * ClearedBy(failures) && forall u | u in failures :: u in undo
  {
    assert undo[0..] == undo && undo[..0] == [];
  }

  /** What cannot be undone leaves its flag behind. */
  lemma Remaining(undo: seq<Undo>, failures: seq<Undo>, flags: set<Flag>)
    requires Registered(undo, flags) && forall u | u in failures :: u in undo
    ensures flags * ClearedBy(failures) == {} <==> failures == []
    ensures forall u | u in failures :: Main(u) in flags * ClearedBy(failures)
  {
    forall i | 0 <= i < |failures|
      ensures Main(failures[i]) in flags * ClearedBy(failures)
    {
      MainCleared(failures, i);
      assert failures[i] in undo;
    }
    assert failures != [] ==> Main(failures[0]) in flags * ClearedBy(failures);
  }

  lemma RegisterStep(undo: seq<Undo>, flags: set<Flag>, u: Undo, more: set<Flag>)
    requires Registered(undo, flags) || (undo == [] && flags == {})
    requires u !in undo && !u.LowerBridge? && Main(u) in more && more <= Clears(u)
    ensures Registered(undo + [u], flags + more)
  {
    assert (undo + [u])[..|undo|] == undo;
  }

  lemma {:induction false} ClearsWithin(undo: seq<Undo>, u: Undo)
    requires u in undo
    ensures Clears(u) <= ClearedBy(undo)
  {
    if undo[|undo| - 1] != u { ClearsWithin(undo[..|undo| - 1], u); }
  }

  lemma RegisteredMore(undo: seq<Undo>, flags: set<Flag>, u: Undo, more: set<Flag>)
    requires Registered(undo, flags) && u in undo && more <= Clears(u)
    ensures Registered(undo, flags + more)
  {
    ClearsWithin(undo, u);
  }

  lemma NowOutstanding(recs: map<Host, Record>, h: Host, r: Record)
    requires AllOutstanding(recs) && r.flags != {}
    ensures AllOutstanding(recs[h := r])
  {
  }

  const ALL_UNDO: set<Undo> := {DeleteVeth, Unmaster, RestoreDown, LowerBridge, DeleteBridge}

  /** Of the cleanup steps done, exactly the failed ones left their flag behind. */
  predicate Settled(done: set<Undo>, failures: set<Undo>, flags: set<Flag>) {
    forall u | u in done && !u.LowerBridge? :: u in failures <==> Main(u) in flags
  }

  lemma NothingSettled(flags: set<Flag>)
    ensures Settled({}, {}, flags)
  {
  }

  lemma SettledMore(done: set<Undo>, failures: set<Undo>, flags: set<Flag>, u: Undo)
    requires u !in done && failures <= done && Settled(done, failures, flags)
    ensures Main(u) !in flags ==> Settled(done + {u}, failures, flags)
    ensures Main(u) in flags ==> Settled(done + {u}, failures + {u}, flags) && Settled(done + {u}, failures, flags - Clears(u))
  {
  }

  lemma FlagKinds(f: Flag)
    ensures f in VETH_FLAGS || f in {BridgeCreated, BridgeUp, PhyUpChanged, PhyEnslaved}
  {
    match f
    case VethCreated => case VethRootMastered => case VethRootUp => case VethHostNsMoved => case VethHostUp => case MtuSet => case IpAssigned =>
    case BridgeCreated => case BridgeUp => case PhyUpChanged => case PhyEnslaved =>
  }

  lemma WhatStays(k0: Kernel, recs: map<Host, Record>, k: Kernel, h: Host, failures: set<Undo>)
    requires h in recs && HostFits(k0, recs, k, h) && Settled(ALL_UNDO, failures, recs[h].flags)
    ensures recs[h].flags == {} <==> failures <= {LowerBridge}
  {
    var flags := recs[h].flags;
    assert DeleteVeth in ALL_UNDO && Unmaster in ALL_UNDO && RestoreDown in ALL_UNDO && DeleteBridge in ALL_UNDO;
    assert VethCreated == Main(DeleteVeth) && PhyEnslaved == Main(Unmaster) && PhyUpChanged == Main(RestoreDown) && BridgeCreated == Main(DeleteBridge);
    forall u: Undo | u in failures && !u.LowerBridge?
      ensures Main(u) in flags
    {
      assert u.DeleteBridge? || u.RestoreDown? || u.Unmaster? || u.DeleteVeth?;
      assert u in ALL_UNDO;
    }
    if failures <= {LowerBridge} {
      assert VethCreated !in flags && PhyEnslaved !in flags && PhyUpChanged !in flags && BridgeCreated !in flags;
      assert flags !! VETH_FLAGS && BridgeUp !in flags;
      forall f: Flag
        ensures f !in flags
      {
        FlagKinds(f);
      }
      assert flags == {};
    } else {
      var u :| u in failures && u != LowerBridge;
      assert Main(u) in flags;
    }
  }

  lemma OthersOutstanding(recs: map<Host, Record>, h: Host)
    requires AllOutstanding(recs)
    ensures AllOutstanding(recs - {h})
  {
  }

  lemma Fits(k0: Kernel, recs: map<Host, Record>, k: Kernel, h: Host)
    requires Accounts(k0, recs, k)
    ensures HostFits(k0, recs, k, h)
  {
  }
}
