/** BridgeManager: owned mutations of the root namespace and the undo stack that
    takes them back. */
module BridgeRoot {
  import opened Wrappers

  newtype Intf = x: int | 0 <= x
  newtype Prefix = x: int | 0 <= x
  newtype Host = x: int | 0 <= x

  // ---------- kernel and undo actions ----------

  /** Single-valued settings: /etc/resolv.conf and the sysctls. */
  datatype Cell = Resolv | IpForward | ProxyArp(intf: Intf) | ProxyArpAll

  datatype Rule =
    | Masquerade(src: Prefix, out: Intf)
    | ForwardOut(root: Option<Intf>, out: Intf, src: Prefix)
    | ForwardBack(out: Intf, root: Option<Intf>, dst: Prefix)

  /** A route of the root namespace, or of a host. */
  datatype Route = Route(node: Option<Host>, dest: Prefix)

  datatype Kernel = Kernel(cells: map<Cell, string>, rules: multiset<Rule>, routes: set<Route>)

  datatype Action = Restore(cell: Cell, value: string) | DropRule(rule: Rule) | DropRoute(route: Route)

  /** Only route removal is best effort. */
  predicate Mandatory(a: Action) {
    !a.DropRoute?
  }

  function Exec(k: Kernel, a: Action): Kernel {
    match a
    case Restore(c, v) => k.(cells := k.cells[c := v])
    case DropRule(r) => k.(rules := k.rules - multiset{r})
    case DropRoute(r) => k.(routes := k.routes - {r})
  }

  // ---------- draining the stack ----------

  /** The kernel after a cleanup whose actions all succeed. */
  function UndoAll(k: Kernel, acts: seq<Action>): Kernel
    decreases |acts|
  {
    if acts == [] then k else UndoAll(Exec(k, acts[|acts| - 1]), acts[..|acts| - 1])
  }

  /** The kernel after a cleanup where action i succeeds iff ok[i]. */
  function AfterCleanup(k: Kernel, acts: seq<Action>, ok: seq<bool>): Kernel
    requires |ok| == |acts|
    decreases |acts|
  {
    if acts == [] then k else
      var n := |acts| - 1;
      AfterCleanup(if ok[n] then Exec(k, acts[n]) else k, acts[..n], ok[..n])
  }

  /** What a cleanup keeps: the mandatory actions that failed, in order. */
  function Retained(acts: seq<Action>, ok: seq<bool>): seq<Action>
    requires |ok| == |acts|
    decreases |acts|
  {
    if acts == [] then [] else
      var n := |acts| - 1;
      Retained(acts[..n], ok[..n]) + if ok[n] || !Mandatory(acts[n]) then [] else [acts[n]]
  }

  // ---------- what undoing leaves, part by part ----------

  function RulesOf(acts: seq<Action>): multiset<Rule> {
    if acts == [] then multiset{} else
      RulesOf(acts[..|acts| - 1]) + if acts[|acts| - 1].DropRule? then multiset{acts[|acts| - 1].rule} else multiset{}
  }

  function RoutesOf(acts: seq<Action>): set<Route> {
    if acts == [] then {} else
      RoutesOf(acts[..|acts| - 1]) + if acts[|acts| - 1].DropRoute? then {acts[|acts| - 1].route} else {}
  }

  predicate Touches(a: Action, c: Cell) {
    a.Restore? && a.cell == c
  }

  /** The value the earliest action on the cell restores. */
  function FirstValue(acts: seq<Action>, c: Cell): Option<string> {
    if acts == [] then None
    else if FirstValue(acts[..|acts| - 1], c).Some? then FirstValue(acts[..|acts| - 1], c)
    else if Touches(acts[|acts| - 1], c) then Some(acts[|acts| - 1].value) else None
  }

  function ValueAt(k: Kernel, c: Cell): Option<string> {
    if c in k.cells then Some(k.cells[c]) else None
  }

  function Or(a: Option<string>, b: Option<string>): Option<string> {
    if a.Some? then a else b
  }

  lemma AppendParts(acts: seq<Action>, a: Action)
    ensures RulesOf(acts + [a]) == RulesOf(acts) + if a.DropRule? then multiset{a.rule} else multiset{}
    ensures RoutesOf(acts + [a]) == RoutesOf(acts) + if a.DropRoute? then {a.route} else {}
    ensures forall k :: UndoAll(k, acts + [a]) == UndoAll(Exec(k, a), acts)
    ensures acts + [] == acts
  {
    assert (acts + [a])[..|acts|] == acts;
  }

  lemma AppendValue(acts: seq<Action>, a: Action, c: Cell)
    ensures FirstValue(acts + [a], c) == Or(FirstValue(acts, c), if Touches(a, c) then Some(a.value) else None)
    ensures acts + [] == acts
  {
    assert (acts + [a])[..|acts|] == acts;
  }

  /** Undoing everything leaves each cell at its earliest captured value ... */
  lemma {:induction false} UndoAllCells(k: Kernel, acts: seq<Action>, c: Cell)
    ensures ValueAt(UndoAll(k, acts), c) == Or(FirstValue(acts, c), ValueAt(k, c))
    decreases |acts|
  {
    if acts != [] {
      UndoAllCells(Exec(k, acts[|acts| - 1]), acts[..|acts| - 1], c);
    }
  }

  /** ... and takes back every owned rule and route. */
  lemma {:induction false} UndoAllRules(k: Kernel, acts: seq<Action>)
    ensures UndoAll(k, acts).rules == k.rules - RulesOf(acts)
    ensures UndoAll(k, acts).routes == k.routes - RoutesOf(acts)
    decreases |acts|
  {
    if acts != [] {
      var a := acts[|acts| - 1];
      UndoAllRules(Exec(k, a), acts[..|acts| - 1]);
      MinusMinus(k.rules, if a.DropRule? then multiset{a.rule} else multiset{}, RulesOf(acts[..|acts| - 1]));
    }
  }

  lemma MinusMinus<T>(m: multiset<T>, a: multiset<T>, b: multiset<T>)
    ensures m - a - b == m - (b + a)
    ensures m - multiset{} == m
  {
  }

  /** The actions that succeeded. */
  function Succeeded(acts: seq<Action>, ok: seq<bool>): seq<Action>
    requires |ok| == |acts|
    decreases |acts|
  {
    if acts == [] then [] else
      var n := |acts| - 1;
      Succeeded(acts[..n], ok[..n]) + if ok[n] then [acts[n]] else []
  }

  /** A cleanup runs the succeeding actions and those only. */
  lemma {:induction false} CleanupRunsSucceeded(k: Kernel, acts: seq<Action>, ok: seq<bool>)
    requires |ok| == |acts|
    ensures AfterCleanup(k, acts, ok) == UndoAll(k, Succeeded(acts, ok))
    decreases |acts|
  {
    if acts != [] {
      var n := |acts| - 1;
      CleanupRunsSucceeded(if ok[n] then Exec(k, acts[n]) else k, acts[..n], ok[..n]);
      AppendParts(Succeeded(acts[..n], ok[..n]), acts[n]);
    }
  }

  /** Each rule removal succeeded or was retained; a route removal that failed is given up. */
  lemma {:induction false} CleanupSplitsRules(acts: seq<Action>, ok: seq<bool>)
    requires |ok| == |acts|
    ensures RulesOf(acts) == RulesOf(Succeeded(acts, ok)) + RulesOf(Retained(acts, ok))
    ensures RoutesOf(Retained(acts, ok)) == {} && RoutesOf(Succeeded(acts, ok)) <= RoutesOf(acts)
    decreases |acts|
  {
    if acts != [] {
      var n := |acts| - 1;
      CleanupSplitsRules(acts[..n], ok[..n]);
      var s, r := Succeeded(acts[..n], ok[..n]), Retained(acts[..n], ok[..n]);
      AppendParts(s, acts[n]);
      AppendParts(r, acts[n]);
    }
  }

  lemma {:induction false} CleanupSplitsCells(acts: seq<Action>, ok: seq<bool>, c: Cell)
    requires |ok| == |acts|
    ensures FirstValue(acts, c) == None <==> FirstValue(Succeeded(acts, ok), c) == None && FirstValue(Retained(acts, ok), c) == None
    ensures FirstValue(Retained(acts, ok), c) == None ==> FirstValue(Succeeded(acts, ok), c) == FirstValue(acts, c)
    decreases |acts|
  {
    if acts != [] {
      var n := |acts| - 1;
      CleanupSplitsCells(acts[..n], ok[..n], c);
      var s, r := Succeeded(acts[..n], ok[..n]), Retained(acts[..n], ok[..n]);
      AppendValue(s, acts[n], c);
      AppendValue(r, acts[n], c);
    }
  }

  // ---------- main results about cleanup ----------

  /** With no failure, cleanup reaches the target and keeps nothing. */
  lemma {:induction false} AllSucceed(k: Kernel, acts: seq<Action>, ok: seq<bool>)
    requires |ok| == |acts| && false !in ok
    ensures AfterCleanup(k, acts, ok) == UndoAll(k, acts) && Retained(acts, ok) == []
    decreases |acts|
  {
    if acts != [] {
      var n := |acts| - 1;
      assert ok[n] in ok;
      AllSucceed(Exec(k, acts[n]), acts[..n], ok[..n]);
    }
  }

  /** Every mandatory failure is retained, in its place among the others. */
  lemma {:induction false} RetainedInOrder(acts: seq<Action>, ok: seq<bool>, i: nat)
    requires |ok| == |acts| && i < |acts|
    ensures Retained(acts[..i], ok[..i]) <= Retained(acts, ok)
    ensures !ok[i] && Mandatory(acts[i]) <==> Retained(acts[..i + 1], ok[..i + 1]) == Retained(acts[..i], ok[..i]) + [acts[i]]
    ensures !(!ok[i] && Mandatory(acts[i])) <==> Retained(acts[..i + 1], ok[..i + 1]) == Retained(acts[..i], ok[..i])
    decreases |acts|
  {
    var n := |acts| - 1;
    if i < n {
      RetainedInOrder(acts[..n], ok[..n], i);
      assert acts[..n][..i] == acts[..i] && ok[..n][..i] == ok[..i];
      assert acts[..n][..i + 1] == acts[..i + 1] && ok[..n][..i + 1] == ok[..i + 1];
    } else {
      assert acts[..i + 1] == acts && ok[..i + 1] == ok;
    }
  }

  /** The earliest retained value of the cell, if any, is its earliest captured one. */
  predicate SameFirst(retained: seq<Action>, acts: seq<Action>, c: Cell) {
    FirstValue(retained, c).Some? ==> FirstValue(retained, c) == FirstValue(acts, c)
  }

  lemma SameCells(k: Kernel, k': Kernel)
    ensures k.cells == k'.cells <==> forall c :: ValueAt(k, c) == ValueAt(k', c)
  {
    if forall c :: ValueAt(k, c) == ValueAt(k', c) {
      forall c
        ensures (c in k.cells <==> c in k'.cells) && (c in k.cells && c in k'.cells ==> k.cells[c] == k'.cells[c])
      {
        assert ValueAt(k, c) == ValueAt(k', c);
      }
      assert k.cells.Keys == k'.cells.Keys;
    }
  }

  lemma RetryCell(k: Kernel, acts: seq<Action>, ok: seq<bool>, c: Cell)
    requires |ok| == |acts|
    ensures var k' := AfterCleanup(k, acts, ok);
            ValueAt(UndoAll(k', Retained(acts, ok)), c) == ValueAt(UndoAll(k, acts), c) <==> SameFirst(Retained(acts, ok), acts, c)
  {
    var k' := AfterCleanup(k, acts, ok);
    CleanupRunsSucceeded(k, acts, ok);
    CleanupSplitsCells(acts, ok, c);
    UndoAllCells(k, acts, c);
    UndoAllCells(k, Succeeded(acts, ok), c);
    UndoAllCells(k', Retained(acts, ok), c);
  }

  lemma RetryRules(k: Kernel, acts: seq<Action>, ok: seq<bool>)
    requires |ok| == |acts|
    ensures var t := UndoAll(AfterCleanup(k, acts, ok), Retained(acts, ok));
            && t.rules == UndoAll(k, acts).rules
            && t.routes == UndoAll(k, acts).routes + (k.routes * (RoutesOf(acts) - RoutesOf(Succeeded(acts, ok))))
  {
    var k' := AfterCleanup(k, acts, ok);
    CleanupRunsSucceeded(k, acts, ok);
    CleanupSplitsRules(acts, ok);
    UndoAllRules(k, acts);
    UndoAllRules(k, Succeeded(acts, ok));
    UndoAllRules(k', Retained(acts, ok));
    MinusMinus(k.rules, RulesOf(Succeeded(acts, ok)), RulesOf(Retained(acts, ok)));
    assert RulesOf(acts) == RulesOf(Retained(acts, ok)) + RulesOf(Succeeded(acts, ok));
  }

  /** A partly failed cleanup followed by a fully successful one reaches what a
      fully successful first one would have reached exactly when each cell with a
      failed restore had its earliest captured value among the failed ones first,
      and every owned route still there was removed by some action. */
  lemma RetryRestores(k: Kernel, acts: seq<Action>, ok: seq<bool>)
    requires |ok| == |acts|
    ensures UndoAll(AfterCleanup(k, acts, ok), Retained(acts, ok)) == UndoAll(k, acts)
            <==> (forall c :: SameFirst(Retained(acts, ok), acts, c)) && k.routes * RoutesOf(acts) <= RoutesOf(Succeeded(acts, ok))
  {
    hide SameFirst, ValueAt, UndoAll, AfterCleanup, Retained, Succeeded, RoutesOf;
    var t, u := UndoAll(AfterCleanup(k, acts, ok), Retained(acts, ok)), UndoAll(k, acts);
    RetryRules(k, acts, ok);
    UndoAllRules(k, acts);
    SameCells(t, u);
    forall c
      ensures ValueAt(t, c) == ValueAt(u, c) <==> SameFirst(Retained(acts, ok), acts, c)
    {
      RetryCell(k, acts, ok, c);
    }
    if (forall c :: SameFirst(Retained(acts, ok), acts, c)) && k.routes * RoutesOf(acts) <= RoutesOf(Succeeded(acts, ok)) {
      SameKernel(t, u, k.routes, RoutesOf(acts), RoutesOf(Succeeded(acts, ok)));
    }
    if t == u {
      assert forall c :: ValueAt(t, c) == ValueAt(u, c);
      forall r | r in k.routes * RoutesOf(acts)
        ensures r in RoutesOf(Succeeded(acts, ok))
      {
        assert r !in u.routes;
      }
    }
  }

  lemma SameKernel(t: Kernel, u: Kernel, all: set<Route>, owned: set<Route>, gone: set<Route>)
    requires t.cells == u.cells && t.rules == u.rules
    requires t.routes == u.routes + (all * (owned - gone)) && all * owned <= gone
    ensures t == u
  {
    assert all * (owned - gone) == {};
  }

  // ---------- setups keep the target ----------

  /** Registering the inverse of what was just done leaves the target alone. */
  lemma Registers(k: Kernel, k': Kernel, acts: seq<Action>, a: Action)
    requires Exec(k', a) == k
    ensures UndoAll(k', acts + [a]) == UndoAll(k, acts)
  {
    AppendParts(acts, a);
  }

  lemma CellInverse(k: Kernel, c: Cell, v: string, w: string)
    requires c in k.cells && k.cells[c] == v
    ensures Exec(k.(cells := k.cells[c := w]), Restore(c, v)) == k
  {
    assert k.cells[c := w][c := v] == k.cells;
  }

  lemma ExtraStep(k: Kernel, a: Action, extra: multiset<Rule>)
    requires a.DropRule? ==> a.rule in k.rules
    ensures Exec(WithRules(k, extra), a) == WithRules(Exec(k, a), extra)
  {
    if a.DropRule? {
      assert (k.rules + extra) - multiset{a.rule} == (k.rules - multiset{a.rule}) + extra;
    }
  }

  /** Extra rules ride along through the undo stack. */
  lemma {:induction false} ExtraRules(k: Kernel, acts: seq<Action>, extra: multiset<Rule>)
    requires RulesOf(acts) <= k.rules
    ensures UndoAll(WithRules(k, extra), acts) == WithRules(UndoAll(k, acts), extra)
    decreases |acts|
  {
    hide WithRules, Exec;
    if acts != [] {
      var a := acts[|acts| - 1];
      RulesLeft(k, acts);
      ExtraStep(k, a, extra);
      ExtraRules(Exec(k, a), acts[..|acts| - 1], extra);
    }
  }

  lemma RulesLeft(k: Kernel, acts: seq<Action>)
    requires RulesOf(acts) <= k.rules && acts != []
    ensures var a := acts[|acts| - 1];
            (a.DropRule? ==> a.rule in k.rules) && RulesOf(acts[..|acts| - 1]) <= Exec(k, a).rules
  {
    var a, m := acts[|acts| - 1], RulesOf(acts[..|acts| - 1]);
    if a.DropRule? {
      assert a.rule in m + multiset{a.rule};
      assert m + multiset{a.rule} <= k.rules;
    } else {
      assert m + multiset{} == m;
    }
  }

  function Drops(rules: seq<Rule>): seq<Action> {
    seq(|rules|, i requires 0 <= i < |rules| => DropRule(rules[i]))
  }

  function WithRules(k: Kernel, m: multiset<Rule>): Kernel {
    k.(rules := k.rules + m)
  }

  lemma DropsLast(k: Kernel, m: multiset<Rule>, r: Rule)
    ensures Exec(WithRules(k, m + multiset{r}), DropRule(r)) == WithRules(k, m)
  {
    assert k.rules + (m + multiset{r}) - multiset{r} == k.rules + m;
  }

  lemma DropsSnoc(acts: seq<Action>, rules: seq<Rule>)
    requires rules != []
    ensures var n := |rules| - 1;
            && acts + Drops(rules) == (acts + Drops(rules[..n])) + [DropRule(rules[n])]
            && multiset(rules) == multiset(rules[..n]) + multiset{rules[n]}
  {
    assert rules == rules[..|rules| - 1] + [rules[|rules| - 1]];
  }

  lemma {:induction false} DropsInstalled(k: Kernel, acts: seq<Action>, rules: seq<Rule>)
    ensures UndoAll(WithRules(k, multiset(rules)), acts + Drops(rules)) == UndoAll(k, acts)
    ensures RulesOf(acts + Drops(rules)) == RulesOf(acts) + multiset(rules)
    decreases |rules|
  {
    hide UndoAll, RulesOf, Exec, WithRules;
    if rules == [] {
      assert acts + Drops(rules) == acts;
      assert WithRules(k, multiset{}) == k by { NoRules(k); }
      assert multiset(rules) == multiset{};
    } else {
      var n := |rules| - 1;
      DropsSnoc(acts, rules);
      DropsInstalled(k, acts, rules[..n]);
      DropsLast(k, multiset(rules[..n]), rules[n]);
      AppendParts(acts + Drops(rules[..n]), DropRule(rules[n]));
    }
  }

  lemma NoRules(k: Kernel)
    ensures WithRules(k, multiset{}) == k
  {
    assert k.rules + multiset{} == k.rules;
  }

  lemma MoreRules(k: Kernel, m: multiset<Rule>, n: multiset<Rule>)
    ensures WithRules(WithRules(k, m), n) == WithRules(k, m + n)
  {
    assert k.rules + m + n == k.rules + (m + n);
  }

  lemma RulesGrow(k: Kernel, m: multiset<Rule>)
    ensures WithRules(k, m).rules == k.rules + m
  {
  }

  /** The rules of retained actions are still installed. */
  lemma StillInstalled(k: Kernel, acts: seq<Action>, ok: seq<bool>)
    requires |ok| == |acts| && RulesOf(acts) <= k.rules
    ensures RulesOf(Retained(acts, ok)) <= AfterCleanup(k, acts, ok).rules
  {
    hide RulesOf, Retained, AfterCleanup, Succeeded, UndoAll;
    CleanupRunsSucceeded(k, acts, ok);
    CleanupSplitsRules(acts, ok);
    UndoAllRules(k, Succeeded(acts, ok));
  }

  datatype Outcome = Done | Skipped | Raised

  /** The text written to every host's resolv.conf. */
  const NAMESERVER := "nameserver 8.8.8.8\n"

  function NatRules(src: Prefix, out: Intf, root: Option<Intf>): seq<Rule> {
    [Masquerade(src, out), ForwardOut(root, out, src), ForwardBack(out, root, src)]
  }

  lemma ThreeRules(src: Prefix, out: Intf, root: Option<Intf>)
    ensures |NatRules(src, out, root)| == 3
  {
  }

  /** A bridge entry; `attached` is the root interface, None when the entry is
      skipped for want of a switch or a root address. */
  datatype Config = Config(attached: Option<Intf>, localRoutes: Prefix, external: Option<Prefix>, gateway: bool, hosts: seq<Host>,
                           useNat: bool, natOut: Option<Intf>, proxyArp: bool, vmNetwork: Option<Prefix>)

  /** sysctl values the writers accept as prior state. */
  predicate IsSwitch(v: string) {
    v == "0" || v == "1"
  }

  predicate SwitchAt(k: Kernel, c: Cell) {
    c in k.cells && IsSwitch(k.cells[c])
  }

  /** A NAT installation that failed: the rules it had installed, and the number of
      the command that tried to delete the last of them. */
  datatype Rollback = NoRollback | Rollback(owned: seq<Rule>, from: nat)

  /** Of the rules deleted in reverse by commands `from`, `from` + 1, ..., those
      whose command failed. */
  function Undeleted(owned: seq<Rule>, outcome: nat -> bool, from: nat): multiset<Rule>
    decreases |owned|
  {
    if owned == [] then multiset{} else
      Undeleted(owned[..|owned| - 1], outcome, from + 1) + if outcome(from) then multiset{} else multiset{owned[|owned| - 1]}
  }

  function LeakedBy(outcome: nat -> bool, rb: Rollback): multiset<Rule> {
    if rb.NoRollback? then multiset{} else Undeleted(rb.owned, outcome, rb.from)
  }

  /** Every delete of the rollback succeeded. */
  predicate DeletesSucceed(outcome: nat -> bool, rb: Rollback) {
    rb.Rollback? ==> forall i | rb.from <= i < rb.from + |rb.owned| :: outcome(i)
  }

  lemma {:induction false} UndeletedNone(owned: seq<Rule>, outcome: nat -> bool, from: nat)
    ensures Undeleted(owned, outcome, from) == multiset{} <==> forall i | from <= i < from + |owned| :: outcome(i)
    decreases |owned|
  {
    if owned != [] {
      UndeletedNone(owned[..|owned| - 1], outcome, from + 1);
      var rest := Undeleted(owned[..|owned| - 1], outcome, from + 1);
      assert !outcome(from) ==> owned[|owned| - 1] in rest + multiset{owned[|owned| - 1]};
      assert rest + multiset{} == rest;
    }
  }

  lemma UndeletedStep(owned: seq<Rule>, i: nat, outcome: nat -> bool, from: nat, leaked: multiset<Rule>)
    requires i < |owned|
    ensures Undeleted(owned[..i + 1], outcome, from) + leaked
         == Undeleted(owned[..i], outcome, from + 1) + if outcome(from) then leaked else leaked + multiset{owned[i]}
  {
    assert owned[..i + 1][..i] == owned[..i];
  }

  lemma UndeletedEnd(owned: seq<Rule>, outcome: nat -> bool, from: nat, leaked: multiset<Rule>)
    ensures Undeleted(owned[..0], outcome, from) + leaked == leaked
  {
  }

  /** Rules leak exactly when a delete failed. */
  lemma LeaksIff(k: Kernel, outcome: nat -> bool, rb: Rollback)
    ensures WithRules(k, LeakedBy(outcome, rb)) == k <==> DeletesSucceed(outcome, rb)
  {
    var leaked := LeakedBy(outcome, rb);
    if rb.Rollback? { UndeletedNone(rb.owned, outcome, rb.from); }
    NoRules(k);
    if leaked != multiset{} {
      assert |k.rules + leaked| == |k.rules| + |leaked|;
      assert |leaked| > 0;
    }
  }

  lemma CleanupStep(k: Kernel, acts: seq<Action>, ok: seq<bool>, i: nat)
    requires |ok| == |acts| && i < |acts|
    ensures AfterCleanup(k, acts[..i + 1], ok[..i + 1]) == AfterCleanup(if ok[i] then Exec(k, acts[i]) else k, acts[..i], ok[..i])
    ensures Retained(acts[..i + 1], ok[..i + 1]) == Retained(acts[..i], ok[..i]) + if ok[i] || !Mandatory(acts[i]) then [] else [acts[i]]
  {
    assert acts[..i + 1][..i] == acts[..i] && ok[..i + 1][..i] == ok[..i];
  }

  lemma NothingToDo(k: Kernel)
    ensures AfterCleanup(k, [], []) == k && Retained([], []) == []
  {
  }

  /** Some command from number `from` up to `to` succeeds. */
  ghost predicate SomeSucceeds(outcome: nat -> bool, from: nat, to: nat) {
    exists i :: from <= i < to && outcome(i)
  }

  lemma NoCommand(outcome: nat -> bool, from: nat)
    ensures !SomeSucceeds(outcome, from, from)
  {
  }

  lemma OneMoreCommand(outcome: nat -> bool, from: nat, to: nat)
    requires from <= to
    ensures SomeSucceeds(outcome, from, to + 1) <==> SomeSucceeds(outcome, from, to) || outcome(to)
  {
  }

  /** Which of n actions, run in reverse by commands `from`, `from` + 1, ..., succeed. */
  function Oks(outcome: nat -> bool, from: nat, n: nat): seq<bool> {
    seq(n, i requires 0 <= i < n => outcome(from + (n - 1 - i)))
  }

  /** A bound on the commands the entries issue. */
  function Budget(cs: seq<Config>): nat {
    if cs == [] then 0 else Budget(cs[..|cs| - 1]) + 15 + 3 * |cs[|cs| - 1].hosts|
  }

  lemma {:induction false} BudgetGrows(cs: seq<Config>, i: nat)
    requires i < |cs|
    ensures Budget(cs[..i + 1]) == Budget(cs[..i]) + Budget([cs[i]]) && Budget(cs[..i + 1]) <= Budget(cs) && Budget([]) == 0
    ensures cs[..|cs|] == cs && cs[..0] == []
    decreases |cs|
  {
    assert cs[..i + 1][..i] == cs[..i] && [cs[i]][..0] == [];
    if i < |cs| - 1 {
      BudgetGrows(cs[..|cs| - 1], i);
      assert cs[..|cs| - 1][..i + 1] == cs[..i + 1];
    }
  }

  /** Every command from number `from` up to `to` succeeded. */
  predicate AllSucceeded(outcome: nat -> bool, from: nat, to: nat) {
    forall i | from <= i < to :: outcome(i)
  }

  lemma AllOks(outcome: nat -> bool, from: nat, n: nat)
    ensures false !in Oks(outcome, from, n) <==> AllSucceeded(outcome, from, from + n)
  {
    var oks := Oks(outcome, from, n);
    forall i | from <= i < from + n
      ensures outcome(i) <==> oks[from + n - 1 - i]
    {
    }
    forall j | 0 <= j < n
      ensures outcome(from + n - 1 - j) <==> oks[j]
    {
    }
  }

  // ---------- what one entry does to the kernel ----------

  function HostRoutes(hosts: seq<Host>, dest: Prefix): seq<Route> {
    seq(|hosts|, i requires 0 <= i < |hosts| => Route(Some(hosts[i]), dest))
  }

  /** The routes an entry adds before anything else, in order. */
  function PreRoutes(c: Config): seq<Route> {
    [Route(None, c.localRoutes)]
    + if c.external.None? then []
      else (if c.gateway then [Route(None, c.external.value)] else []) + HostRoutes(c.hosts, c.external.value)
  }

  /** Those whose command, numbered from `from` on, succeeds. */
  function Added(rs: seq<Route>, outcome: nat -> bool, from: nat): set<Route> {
    set i | 0 <= i < |rs| && outcome(from + i) :: rs[i]
  }

  /** resolv.conf was read, by command number p. */
  predicate Captures(k: Kernel, c: Config, outcome: nat -> bool, p: nat) {
    c.external.Some? && c.hosts != [] && outcome(p) && Resolv in k.cells
  }

  function ResolvCommands(k: Kernel, c: Config, outcome: nat -> bool, p: nat): nat {
    if c.external.None? || c.hosts == [] then 0 else 1 + if Captures(k, c, outcome, p) then |c.hosts| else 0
  }

  /** The first part of an entry that begins with command number f. */
  ghost predicate Connected(c: Config, outcome: nat -> bool, k: Kernel, f: nat, k': Kernel, f': nat) {
    var p := f + |PreRoutes(c)|;
    && f' == p + ResolvCommands(k, c, outcome, p)
    && k'.routes == k.routes + Added(PreRoutes(c), outcome, f) && k'.rules == k.rules
    && k'.cells == if Captures(k, c, outcome, p) && SomeSucceeds(outcome, p + 1, p + 1 + |c.hosts|) then k.cells[Resolv := NAMESERVER] else k.cells
  }

  function NatCommands(c: Config): nat {
    if !c.useNat then 0 else if c.natOut.None? then 2 else 5
  }

  /** Every command of the NAT and proxy-ARP part succeeds, from number q on, and the
      settings it reads hold a switch value. */
  ghost predicate Serves(c: Config, outcome: nat -> bool, k: Kernel, q: nat)
    requires c.attached.Some?
  {
    && (c.useNat ==> outcome(q) && SwitchAt(k, IpForward) && outcome(q + 1) && (c.natOut.Some? ==> outcome(q + 2) && outcome(q + 3) && outcome(q + 4)))
    && (c.proxyArp ==>
          var r := q + NatCommands(c);
          && outcome(r) && SwitchAt(k, ProxyArp(c.attached.value)) && outcome(r + 1) && SwitchAt(k, ProxyArpAll) && outcome(r + 2) && outcome(r + 3))
  }

  /** The three rules of an entry with NAT. */
  function RulesFor(c: Config): multiset<Rule> {
    if c.attached.Some? && c.useNat && c.natOut.Some? then
      multiset{Masquerade(c.localRoutes, c.natOut.value),
               ForwardOut(c.attached, c.natOut.value, c.localRoutes),
               ForwardBack(c.natOut.value, c.attached, c.localRoutes)}
    else multiset{}
  }

  /** The settings an entry switches on. */
  predicate SwitchesOn(c: Config, cell: Cell) {
    match cell
    case Resolv => false
    case IpForward => c.attached.Some? && c.useNat
    case ProxyArp(i) => c.attached == Some(i) && c.proxyArp
    case ProxyArpAll => c.attached.Some? && c.proxyArp
  }

  /** The second part, when it does not raise. */
  ghost predicate Served(c: Config, k: Kernel, q: nat, k': Kernel, q': nat) {
    && q' == q + NatCommands(c) + (if c.proxyArp then 4 else 0)
    && k'.routes == k.routes && k'.rules == k.rules + RulesFor(c)
    && forall cell :: ValueAt(k', cell) == if SwitchesOn(c, cell) then Some("1") else ValueAt(k, cell)
  }

  function LaterRoutes(c: Config): seq<Route> {
    if c.vmNetwork.Some? then HostRoutes(c.hosts, c.vmNetwork.value) else []
  }

  /** An entry that did not raise, from kernel k and command number f to k' and f'. */
  ghost predicate EntryDone(c: Config, outcome: nat -> bool, k: Kernel, f: nat, k': Kernel, f': nat) {
    if c.attached.None? then k' == k && f' == f
    else exists k1, f1: nat, k2, f2: nat ::
           && Connected(c, outcome, k, f, k1, f1) && Serves(c, outcome, k1, f1) && Served(c, k1, f1, k2, f2)
           && f' == f2 + |LaterRoutes(c)| && k' == k2.(routes := k2.routes + Added(LaterRoutes(c), outcome, f2))
  }

  /** An entry that raises: some command of its second part fails, or a setting it
      reads holds no switch value. */
  ghost predicate EntryFails(c: Config, outcome: nat -> bool, k: Kernel, f: nat) {
    c.attached.Some? && exists k1, f1: nat :: Connected(c, outcome, k, f, k1, f1) && !Serves(c, outcome, k1, f1)
  }

  /** The entries, done one after the other: ks and fs are the kernels and command
      numbers between them. */
  ghost predicate Stages(cs: seq<Config>, outcome: nat -> bool, ks: seq<Kernel>, fs: seq<nat>) {
    && |ks| == |fs| == |cs| + 1
    && forall i | 0 <= i < |cs| :: EntryDone(cs[i], outcome, ks[i], fs[i], ks[i + 1], fs[i + 1])
  }

  /** What an entry asks of the kernel for good. */
  predicate InForce(c: Config, k: Kernel) {
    c.attached.Some? ==>
      && (c.useNat ==> ValueAt(k, IpForward) == Some("1"))
      && (c.useNat && c.natOut.Some? ==>
            && Masquerade(c.localRoutes, c.natOut.value) in k.rules
            && ForwardOut(Some(c.attached.value), c.natOut.value, c.localRoutes) in k.rules
            && ForwardBack(c.natOut.value, Some(c.attached.value), c.localRoutes) in k.rules)
      && (c.proxyArp ==> ValueAt(k, ProxyArp(c.attached.value)) == Some("1") && ValueAt(k, ProxyArpAll) == Some("1"))
  }

  /** ... and of its commands: the routes whose command succeeded are there, and
      resolv.conf is overwritten if it was captured and a write succeeded. */
  ghost predicate Delivered(c: Config, outcome: nat -> bool, at: Kernel, f: nat, k: Kernel) {
    c.attached.Some? ==> LinkDelivered(c, outcome, at, f, k) && Added(LaterRoutes(c), outcome, LaterFrom(c, outcome, at, f)) <= k.routes
  }

  /** The number of the first command after NAT and proxy ARP. */
  function LaterFrom(c: Config, outcome: nat -> bool, at: Kernel, f: nat): nat {
    var p := f + |PreRoutes(c)|;
    p + ResolvCommands(at, c, outcome, p) + NatCommands(c) + if c.proxyArp then 4 else 0
  }

  ghost predicate LinkDelivered(c: Config, outcome: nat -> bool, at: Kernel, f: nat, k: Kernel) {
      && Added(PreRoutes(c), outcome, f) <= k.routes
      && var p := f + |PreRoutes(c)|;
         Captures(at, c, outcome, p) && SomeSucceeds(outcome, p + 1, p + 1 + |c.hosts|) ==> ValueAt(k, Resolv) == Some(NAMESERVER)
  }

  /** Nothing that is in force is lost. */
  ghost predicate Keeps(k: Kernel, k': Kernel) {
    && k.rules <= k'.rules && k.routes <= k'.routes
    && (forall cell | cell != Resolv && ValueAt(k, cell) == Some("1") :: ValueAt(k', cell) == Some("1"))
    && (ValueAt(k, Resolv) == Some(NAMESERVER) ==> ValueAt(k', Resolv) == Some(NAMESERVER))
  }

  lemma EntryKeeps(c: Config, outcome: nat -> bool, k: Kernel, f: nat, k': Kernel, f': nat)
    requires EntryDone(c, outcome, k, f, k', f')
    ensures Keeps(k, k') && InForce(c, k') && Delivered(c, outcome, k, f, k')
  {
    hide Added, Connected, Serves, Served, LaterRoutes, Keeps, Delivered, InForce;
    if c.attached.Some? {
      var k1, f1: nat, k2, f2: nat :|
        && Connected(c, outcome, k, f, k1, f1) && Serves(c, outcome, k1, f1) && Served(c, k1, f1, k2, f2)
        && f' == f2 + |LaterRoutes(c)| && k' == k2.(routes := k2.routes + Added(LaterRoutes(c), outcome, f2));
      LinkKeeps(c, outcome, k, f, k1, f1);
      ServicesKeep(c, k1, f1, k2, f2);
      RoutesKeep(k2, Added(LaterRoutes(c), outcome, f2));
      LaterIs(c, outcome, k, f, k1, f1, k2, f2);
      KeepsAll(c, outcome, k, f, k1, k2, k', f2);
    } else {
      Skipped(c, outcome, k, f);
    }
  }

  lemma Skipped(c: Config, outcome: nat -> bool, k: Kernel, f: nat)
    requires c.attached.None?
    ensures Keeps(k, k) && InForce(c, k) && Delivered(c, outcome, k, f, k)
  {
  }

  lemma RoutesKeep(k: Kernel, rs: set<Route>)
    ensures Keeps(k, k.(routes := k.routes + rs))
  {
  }

  lemma LaterIs(c: Config, outcome: nat -> bool, k: Kernel, f: nat, k1: Kernel, f1: nat, k2: Kernel, f2: nat)
    requires Connected(c, outcome, k, f, k1, f1) && Served(c, k1, f1, k2, f2)
    ensures f2 == LaterFrom(c, outcome, k, f)
  {
    hide Added, PreRoutes, ResolvCommands, NatCommands, SomeSucceeds, Captures, RulesFor, SwitchesOn;
  }

  lemma KeepsAll(c: Config, outcome: nat -> bool, at: Kernel, f: nat, k1: Kernel, k2: Kernel, k3: Kernel, f2: nat)
    requires Keeps(at, k1) && Keeps(k1, k2) && Keeps(k2, k3)
    requires c.attached.Some? ==> LinkDelivered(c, outcome, at, f, k1)
    requires InForce(c, k2) && f2 == LaterFrom(c, outcome, at, f) && Added(LaterRoutes(c), outcome, f2) <= k3.routes
    ensures Keeps(at, k3) && InForce(c, k3) && Delivered(c, outcome, at, f, k3)
  {
    hide Added, SomeSucceeds, Captures, PreRoutes, LaterRoutes, LaterFrom;
  }

  lemma LinkKeeps(c: Config, outcome: nat -> bool, k: Kernel, f: nat, k1: Kernel, f1: nat)
    requires Connected(c, outcome, k, f, k1, f1)
    ensures Keeps(k, k1) && LinkDelivered(c, outcome, k, f, k1)
  {
    hide Added, SomeSucceeds, Captures, ResolvCommands, PreRoutes;
  }

  lemma ServicesKeep(c: Config, k: Kernel, q: nat, k': Kernel, q': nat)
    requires c.attached.Some? && Served(c, k, q, k', q')
    ensures Keeps(k, k') && InForce(c, k') && ValueAt(k', Resolv) == ValueAt(k, Resolv)
  {
    assert RulesFor(c) <= k'.rules;
    assert ValueAt(k', IpForward) == if SwitchesOn(c, IpForward) then Some("1") else ValueAt(k, IpForward);
    assert ValueAt(k', ProxyArp(c.attached.value)) == if SwitchesOn(c, ProxyArp(c.attached.value)) then Some("1") else ValueAt(k, ProxyArp(c.attached.value));
    assert ValueAt(k', ProxyArpAll) == if SwitchesOn(c, ProxyArpAll) then Some("1") else ValueAt(k, ProxyArpAll);
    if c.useNat && c.natOut.Some? {
      assert Masquerade(c.localRoutes, c.natOut.value) in RulesFor(c);
      assert ForwardOut(c.attached, c.natOut.value, c.localRoutes) in RulesFor(c);
      assert ForwardBack(c.natOut.value, c.attached, c.localRoutes) in RulesFor(c);
    }
  }

  lemma KeptInForce(c: Config, outcome: nat -> bool, at: Kernel, f: nat, k: Kernel, k': Kernel)
    requires Keeps(k, k') && InForce(c, k) && Delivered(c, outcome, at, f, k)
    ensures InForce(c, k') && Delivered(c, outcome, at, f, k')
  {
    hide Added, SomeSucceeds, Captures, PreRoutes, LaterRoutes, LaterFrom;
  }

  /** Everything the entries asked for is in force at the end. */
  lemma {:induction false} StagesInForce(cs: seq<Config>, outcome: nat -> bool, ks: seq<Kernel>, fs: seq<nat>)
    requires Stages(cs, outcome, ks, fs)
    ensures forall i | 0 <= i < |cs| :: InForce(cs[i], ks[|cs|]) && Delivered(cs[i], outcome, ks[i], fs[i], ks[|cs|])
    decreases |cs|
  {
    hide EntryDone, InForce, Delivered, Keeps;
    if cs != [] {
      var n := |cs| - 1;
      StagesBefore(cs, outcome, ks, fs);
      StagesInForce(cs[..n], outcome, ks[..n + 1], fs[..n + 1]);
      EntryKeeps(cs[n], outcome, ks[n], fs[n], ks[n + 1], fs[n + 1]);
      forall i | 0 <= i < n
        ensures InForce(cs[i], ks[n + 1]) && Delivered(cs[i], outcome, ks[i], fs[i], ks[n + 1])
      {
        assert cs[..n][i] == cs[i] && ks[..n + 1][i] == ks[i] && fs[..n + 1][i] == fs[i] && ks[..n + 1][n] == ks[n];
        KeptInForce(cs[i], outcome, ks[i], fs[i], ks[n], ks[n + 1]);
      }
    }
  }

  lemma StagesBefore(cs: seq<Config>, outcome: nat -> bool, ks: seq<Kernel>, fs: seq<nat>)
    requires Stages(cs, outcome, ks, fs) && cs != []
    ensures Stages(cs[..|cs| - 1], outcome, ks[..|cs|], fs[..|cs|])
  {
    hide EntryDone;
  }

  lemma StagesMore(cs: seq<Config>, outcome: nat -> bool, ks: seq<Kernel>, fs: seq<nat>, c: Config, k: Kernel, f: nat)
    requires Stages(cs, outcome, ks, fs) && EntryDone(c, outcome, ks[|cs|], fs[|cs|], k, f)
    ensures Stages(cs + [c], outcome, ks + [k], fs + [f])
  {
    hide EntryDone;
  }

  /** The rules of the entries, each once per entry, and no others. */
  function AllRules(cs: seq<Config>): multiset<Rule> {
    if cs == [] then multiset{} else AllRules(cs[..|cs| - 1]) + RulesFor(cs[|cs| - 1])
  }

  /** Nothing else: the rules are exactly the entries', and every setting besides
      resolv.conf that no entry switches on is as before. */
  lemma {:induction false} StagesExact(cs: seq<Config>, outcome: nat -> bool, ks: seq<Kernel>, fs: seq<nat>, cell: Cell)
    requires Stages(cs, outcome, ks, fs) && cell != Resolv
    ensures ks[|cs|].rules == ks[0].rules + AllRules(cs)
    ensures ValueAt(ks[|cs|], cell) == if exists i :: 0 <= i < |cs| && SwitchesOn(cs[i], cell) then Some("1") else ValueAt(ks[0], cell)
    decreases |cs|
  {
    hide EntryDone, RulesFor, SwitchesOn;
    if cs != [] {
      var n := |cs| - 1;
      StagesBefore(cs, outcome, ks, fs);
      StagesExact(cs[..n], outcome, ks[..n + 1], fs[..n + 1], cell);
      EntryExact(cs[n], outcome, ks[n], fs[n], ks[n + 1], fs[n + 1], cell);
      assert ks[0].rules + AllRules(cs[..n]) + RulesFor(cs[n]) == ks[0].rules + AllRules(cs);
      if i :| 0 <= i < |cs| && SwitchesOn(cs[i], cell) { assert i < n ==> SwitchesOn(cs[..n][i], cell); }
    }
  }

  lemma EntryExact(c: Config, outcome: nat -> bool, k: Kernel, f: nat, k': Kernel, f': nat, cell: Cell)
    requires EntryDone(c, outcome, k, f, k', f') && cell != Resolv
    ensures k'.rules == k.rules + RulesFor(c)
    ensures ValueAt(k', cell) == if SwitchesOn(c, cell) then Some("1") else ValueAt(k, cell)
  {
    hide Added, SomeSucceeds, Serves, Captures, ResolvCommands, LaterRoutes, PreRoutes;
    if c.attached.Some? {
      var k1, f1: nat, k2, f2: nat :|
        && Connected(c, outcome, k, f, k1, f1) && Serves(c, outcome, k1, f1) && Served(c, k1, f1, k2, f2)
        && f' == f2 + |LaterRoutes(c)| && k' == k2.(routes := k2.routes + Added(LaterRoutes(c), outcome, f2));
      assert ValueAt(k2, cell) == if SwitchesOn(c, cell) then Some("1") else ValueAt(k1, cell);
    } else {
      assert k.rules + multiset{} == k.rules;
    }
  }

  lemma NothingAdded(outcome: nat -> bool, from: nat)
    ensures Added([], outcome, from) == {}
  {
  }

  lemma AddedMore(rs: seq<Route>, more: seq<Route>, outcome: nat -> bool, from: nat)
    ensures Added(rs + more, outcome, from) == Added(rs, outcome, from) + Added(more, outcome, from + |rs|)
  {
    var all := rs + more;
    forall r
      ensures r in Added(all, outcome, from) <==> r in Added(rs, outcome, from) + Added(more, outcome, from + |rs|)
    {
      if r in Added(all, outcome, from) {
        var i :| 0 <= i < |all| && outcome(from + i) && all[i] == r;
        assert i >= |rs| ==> more[i - |rs|] == r && outcome(from + |rs| + (i - |rs|));
      }
      if r in Added(rs, outcome, from) {
        var i :| 0 <= i < |rs| && outcome(from + i) && rs[i] == r;
        assert all[i] == r;
      }
      if r in Added(more, outcome, from + |rs|) {
        var i :| 0 <= i < |more| && outcome(from + |rs| + i) && more[i] == r;
        assert all[|rs| + i] == r && outcome(from + (|rs| + i));
      }
    }
  }

  lemma OneAdded(r: Route, outcome: nat -> bool, from: nat)
    ensures Added([r], outcome, from) == if outcome(from) then {r} else {}
  {
    assert outcome(from) ==> [r][0] == r && outcome(from + 0);
  }

  /** What holds between the NAT and the proxy-ARP part. */
  ghost predicate Natted(c: Config, k: Kernel, k1: Kernel) {
    && k1.routes == k.routes && k1.rules == k.rules + RulesFor(c)
    && forall cell :: ValueAt(k1, cell) == if cell == IpForward && c.useNat then Some("1") else ValueAt(k, cell)
  }

  lemma NatServed(c: Config, k: Kernel, k1: Kernel)
    requires c.attached.Some? && c.useNat
    requires k1 == WithRules(k.(cells := k.cells[IpForward := "1"]),
                             if c.natOut.None? then multiset{} else multiset(NatRules(c.localRoutes, c.natOut.value, c.attached)))
    ensures Natted(c, k, k1)
  {
    if c.natOut.Some? {
      var (src, out) := (c.localRoutes, c.natOut.value);
      assert multiset(NatRules(src, out, c.attached))
          == multiset{Masquerade(src, out), ForwardOut(c.attached, out, src), ForwardBack(out, c.attached, src)};
    }
  }

  lemma NoNatServed(c: Config, k: Kernel)
    requires !c.useNat
    ensures Natted(c, k, k)
  {
    assert k.rules + multiset{} == k.rules;
  }

  lemma SameSwitches(c: Config, k: Kernel, k1: Kernel)
    requires c.attached.Some? && Natted(c, k, k1)
    ensures SwitchAt(k1, ProxyArp(c.attached.value)) <==> SwitchAt(k, ProxyArp(c.attached.value))
    ensures SwitchAt(k1, ProxyArpAll) <==> SwitchAt(k, ProxyArpAll)
  {
    hide RulesFor;
    assert ValueAt(k1, ProxyArp(c.attached.value)) == ValueAt(k, ProxyArp(c.attached.value));
    assert ValueAt(k1, ProxyArpAll) == ValueAt(k, ProxyArpAll);
  }

  lemma ArpServed(c: Config, k: Kernel, k1: Kernel, k2: Kernel)
    requires c.attached.Some? && c.proxyArp && Natted(c, k, k1)
    requires k2 == k1.(cells := k1.cells[ProxyArp(c.attached.value) := "1"][ProxyArpAll := "1"])
    ensures k2.routes == k.routes && k2.rules == k.rules + RulesFor(c)
    ensures forall cell :: ValueAt(k2, cell) == if SwitchesOn(c, cell) then Some("1") else ValueAt(k, cell)
  {
    hide RulesFor;
    forall cell
      ensures ValueAt(k2, cell) == if SwitchesOn(c, cell) then Some("1") else ValueAt(k, cell)
    {
      assert ValueAt(k1, cell) == if cell == IpForward && c.useNat then Some("1") else ValueAt(k, cell);
    }
  }

  lemma NoArpServed(c: Config, k: Kernel, k1: Kernel)
    requires c.attached.Some? && !c.proxyArp && Natted(c, k, k1)
    ensures k1.routes == k.routes && k1.rules == k.rules + RulesFor(c)
    ensures forall cell :: ValueAt(k1, cell) == if SwitchesOn(c, cell) then Some("1") else ValueAt(k, cell)
  {
    hide RulesFor;
    forall cell
      ensures ValueAt(k1, cell) == if SwitchesOn(c, cell) then Some("1") else ValueAt(k, cell)
    {
      assert ValueAt(k1, cell) == if cell == IpForward && c.useNat then Some("1") else ValueAt(k, cell);
    }
  }

  class BridgeManager {
    var actions: seq<Action>        // cleanup_actions
    var rootIntf: Option<Intf>
    var kernel: Kernel
    var issued: nat                 // commands run so far
    const outcome: nat -> bool      // which commands succeed
    ghost var cleanups: seq<nat>    // the command numbers at which cleanups began

    /** Every owned rule is installed. */
    ghost predicate Valid()
      reads this
    {
      RulesOf(actions) <= kernel.rules
    }

    /** The kernel a cleanup without failures would leave. */
    ghost function Target(): Kernel
      reads this
    {
      UndoAll(kernel, actions)
    }

    constructor (k: Kernel, succeeds: nat -> bool)
      ensures Valid() && actions == [] && rootIntf == None && kernel == k && issued == 0 && outcome == succeeds && Target() == k && cleanups == []
    {
      actions, rootIntf, kernel, issued, outcome, cleanups := [], None, k, 0, succeeds, [];
    }

    // Commands: each may fail, and then changes nothing.

    method Issue() returns (ok: bool)
      modifies this`issued
      ensures ok == outcome(old(issued)) && issued == old(issued) + 1
    {
      ok := outcome(issued);
      issued := issued + 1;
    }

    method Read(c: Cell) returns (v: Option<string>)
      modifies this`issued
      ensures issued == old(issued) + 1
      ensures v == if outcome(old(issued)) && c in kernel.cells then Some(kernel.cells[c]) else None
    {
      var ok := Issue();
      v := if ok && c in kernel.cells then Some(kernel.cells[c]) else None;
    }

    method Write(c: Cell, v: string) returns (ok: bool)
      modifies this`kernel, this`issued
      ensures ok == outcome(old(issued)) && issued == old(issued) + 1
      ensures kernel == if ok then old(kernel).(cells := old(kernel).cells[c := v]) else old(kernel)
    {
      ok := Issue();
      if ok { kernel := kernel.(cells := kernel.cells[c := v]); }
    }

    method RunAction(a: Action) returns (ok: bool)
      modifies this`kernel, this`issued
      ensures ok == outcome(old(issued)) && issued == old(issued) + 1
      ensures kernel == if ok then Exec(old(kernel), a) else old(kernel)
    {
      ok := Issue();
      if ok { kernel := Exec(kernel, a); }
    }

    method AppendRule(r: Rule) returns (ok: bool)
      modifies this`kernel, this`issued
      ensures ok == outcome(old(issued)) && issued == old(issued) + 1
      ensures kernel == if ok then WithRules(old(kernel), multiset{r}) else old(kernel)
    {
      ok := Issue();
      if ok { kernel := WithRules(kernel, multiset{r}); }
    }

    /** _apply_reversible for a route: adding one that exists fails, and only a
        success registers its removal. */
    method AddRoute(r: Route) returns (ok: bool)
      requires Valid()
      modifies this`kernel, this`actions, this`issued
      ensures Valid() && Target() == old(Target()) && issued == old(issued) + 1
      ensures ok <==> outcome(old(issued)) && r !in old(kernel.routes)
      ensures ok ==> actions == old(actions) + [DropRoute(r)] && kernel == old(kernel).(routes := old(kernel.routes) + {r})
      ensures !ok ==> actions == old(actions) && kernel == old(kernel)
      ensures kernel == old(kernel).(routes := old(kernel.routes) + Added([r], outcome, old(issued)))
    {
      OneAdded(r, outcome, issued);
      assert r in kernel.routes ==> kernel.routes + {r} == kernel.routes;
      assert kernel.routes + {} == kernel.routes;
      ok := Issue();
      ok := ok && r !in kernel.routes;
      if ok {
        kernel := kernel.(routes := kernel.routes + {r});
        assert kernel.routes - {r} == old(kernel.routes);
        Registers(old(kernel), kernel, actions, DropRoute(r));
        AppendParts(actions, DropRoute(r));
        actions := actions + [DropRoute(r)];
      }
    }

    /** write_host_resolv_conf: the restore is registered before the first write. */
    method WriteResolvConf(hosts: seq<Host>) returns (captured: bool)
      requires Valid()
      modifies this`kernel, this`actions, this`issued
      ensures Valid() && Target() == old(Target())
      ensures captured <==> hosts != [] && outcome(old(issued)) && Resolv in old(kernel.cells)
      ensures issued == old(issued) + (if hosts == [] then 0 else 1) + if captured then |hosts| else 0
      ensures actions == old(actions) + if captured then [Restore(Resolv, old(kernel.cells)[Resolv])] else []
      ensures kernel == if captured && SomeSucceeds(outcome, old(issued) + 1, issued)
                        then old(kernel).(cells := old(kernel.cells)[Resolv := NAMESERVER]) else old(kernel)
    {
      hide UndoAll, RulesOf, SomeSucceeds;
      NoCommand(outcome, issued + 1);
      captured := false;
      assert actions + [] == actions;
      if hosts == [] { return; }
      var original := Read(Resolv);
      if original.None? { return; }
      captured := true;
      var restore := Restore(Resolv, original.value);
      AppendParts(actions, restore);
      actions := actions + [restore];
      ghost var k0 := kernel;
      assert k0.cells[Resolv := original.value] == k0.cells;
      var i := 0;
      while i < |hosts|
        invariant 0 <= i <= |hosts| && issued == old(issued) + 1 + i
        invariant kernel == if SomeSucceeds(outcome, old(issued) + 1, issued) then k0.(cells := k0.cells[Resolv := NAMESERVER]) else k0
        invariant actions == old(actions) + [restore]
      {
        OneMoreCommand(outcome, old(issued) + 1, issued);
        var ok := Write(Resolv, NAMESERVER);
        assert k0.cells[Resolv := NAMESERVER][Resolv := NAMESERVER] == k0.cells[Resolv := NAMESERVER];
        i := i + 1;
      }
      CellInverse(k0, Resolv, original.value, NAMESERVER);
      Registers(k0, kernel, old(actions), restore);
    }

    /** enable_ip_forwarding. */
    method EnableIpForwarding() returns (o: Outcome)
      requires Valid()
      modifies this`kernel, this`actions, this`issued
      ensures Valid() && Target() == old(Target()) && !o.Skipped?
      ensures o.Done? <==> outcome(old(issued)) && SwitchAt(old(kernel), IpForward) && outcome(old(issued) + 1)
      ensures o.Raised? ==> actions == old(actions) && kernel == old(kernel) && old(issued) < issued <= old(issued) + 2
      ensures o.Done? ==> actions == old(actions) + [Restore(IpForward, old(kernel.cells)[IpForward])]
                          && kernel == old(kernel).(cells := old(kernel.cells)[IpForward := "1"]) && issued == old(issued) + 2
    {
      hide UndoAll, RulesOf;
      var prior := Read(IpForward);
      if prior.None? || !IsSwitch(prior.value) { return Raised; }
      var ok := Write(IpForward, "1");
      if !ok { return Raised; }
      CellInverse(old(kernel), IpForward, prior.value, "1");
      Registers(old(kernel), kernel, actions, Restore(IpForward, prior.value));
      AppendParts(actions, Restore(IpForward, prior.value));
      actions := actions + [Restore(IpForward, prior.value)];
      o := Done;
    }

    /** Reads both prior values, writes the interface's setting and registers its restore. */
    method WriteIntf(c: Cell) returns (done: bool, priorIntf: string, priorAll: string)
      requires Valid() && c != ProxyArpAll
      modifies this`kernel, this`actions, this`issued
      ensures Valid() && Target() == old(Target()) && old(issued) < issued <= old(issued) + 3
      ensures done <==> outcome(old(issued)) && SwitchAt(old(kernel), c) && outcome(old(issued) + 1) && SwitchAt(old(kernel), ProxyArpAll)
                        && outcome(old(issued) + 2)
      ensures !done ==> actions == old(actions) && kernel == old(kernel)
      ensures done ==> issued == old(issued) + 3 && priorIntf == old(kernel.cells)[c] && priorAll == old(kernel.cells)[ProxyArpAll]
      ensures done ==> actions == old(actions) + [Restore(c, priorIntf)] && Exec(kernel, Restore(c, priorIntf)) == old(kernel)
                       && kernel == old(kernel).(cells := old(kernel.cells)[c := "1"])
    {
      hide UndoAll, RulesOf, IsSwitch;
      done, priorIntf, priorAll := false, "", "";
      var v := Read(c);
      if v.None? || !IsSwitch(v.value) { return; }
      priorIntf := v.value;
      v := Read(ProxyArpAll);
      if v.None? || !IsSwitch(v.value) { return; }
      priorAll := v.value;
      done := Write(c, "1");
      if !done { return; }
      CellInverse(old(kernel), c, priorIntf, "1");
      Registers(old(kernel), kernel, actions, Restore(c, priorIntf));
      AppendParts(actions, Restore(c, priorIntf));
      actions := actions + [Restore(c, priorIntf)];
    }

    /** Both prior values are read and the interface's setting is written. */
    ghost predicate FirstWriteDone(k: Kernel, intf: Option<Intf>, from: nat) {
      && intf.Some? && outcome(from) && SwitchAt(k, ProxyArp(intf.value))
      && outcome(from + 1) && SwitchAt(k, ProxyArpAll) && outcome(from + 2)
    }

    /** enable_proxy_arp: two writes; when the second fails the first is rolled back
        at once, and its restore stays registered if that fails too. */
    method EnableProxyArp() returns (o: Outcome, rollbackFailed: bool)
      requires Valid()
      modifies this`kernel, this`actions, this`issued
      ensures Valid() && Target() == old(Target()) && (o.Skipped? <==> rootIntf.None?) && old(issued) <= issued <= old(issued) + 5
      ensures o.Done? <==> FirstWriteDone(old(kernel), rootIntf, old(issued)) && outcome(old(issued) + 3)
      ensures rollbackFailed <==> FirstWriteDone(old(kernel), rootIntf, old(issued)) && !outcome(old(issued) + 3) && !outcome(old(issued) + 4)
      ensures !o.Done? && !rollbackFailed ==> actions == old(actions) && kernel == old(kernel)
      ensures rollbackFailed ==> var c := ProxyArp(rootIntf.value);
                && o.Raised? && actions == old(actions) + [Restore(c, old(kernel.cells)[c])]
                && kernel == old(kernel).(cells := old(kernel.cells)[c := "1"])
      ensures o.Done? ==> issued == old(issued) + 4
      ensures o.Done? ==> var c := ProxyArp(rootIntf.value);
                && actions == old(actions) + [Restore(c, old(kernel.cells)[c])] + [Restore(ProxyArpAll, old(kernel.cells)[ProxyArpAll])]
                && kernel == old(kernel).(cells := old(kernel.cells)[c := "1"][ProxyArpAll := "1"])
    {
      hide UndoAll, RulesOf, IsSwitch, Exec;
      if rootIntf.None? { return Skipped, false; }
      var c := ProxyArp(rootIntf.value);
      var done, priorIntf, priorAll := WriteIntf(c);
      if !done { return Raised, false; }
      ghost var k := kernel;
      var ok := Write(ProxyArpAll, "1");
      if !ok {
        ok := RunAction(Restore(c, priorIntf));
        if ok {
          actions := actions[..|actions| - 1];
          assert actions == old(actions);
        }
        return Raised, !ok;
      }
      CellInverse(k, ProxyArpAll, priorAll, "1");
      Registers(k, kernel, actions, Restore(ProxyArpAll, priorAll));
      AppendParts(actions, Restore(ProxyArpAll, priorAll));
      actions := actions + [Restore(ProxyArpAll, priorAll)];
      o, rollbackFailed := Done, false;
    }

    /** enable_nat: three rules, or none but those whose rollback delete failed,
        which stay installed and unrecorded. */
    method EnableNat(src: Prefix, out: Option<Intf>) returns (o: Outcome, ghost rb: Rollback)
      requires Valid()
      modifies this`kernel, this`actions, this`issued
      ensures Valid() && Target() == WithRules(old(Target()), LeakedBy(outcome, rb)) && (o.Skipped? <==> out.None?)
      ensures old(issued) <= issued <= old(issued) + 5
      ensures !o.Done? ==> actions == old(actions) && kernel == WithRules(old(kernel), LeakedBy(outcome, rb))
      ensures o.Raised? <==> rb.Rollback?
      ensures o.Raised? ==> FailedInstall(NatRules(src, out.value, rootIntf), old(issued), rb) && issued == rb.from + |rb.owned|
      ensures o.Done? ==> var rules := NatRules(src, out.value, rootIntf);
                && (forall i | old(issued) <= i < old(issued) + 3 :: outcome(i)) && kernel == WithRules(old(kernel), multiset(rules)) && actions == old(actions) + Drops(rules)
                && issued == old(issued) + 3
      ensures o.Done? <==> out.Some? && outcome(old(issued)) && outcome(old(issued) + 1) && outcome(old(issued) + 2)
      ensures o.Skipped? ==> issued == old(issued)
    {
      hide UndoAll, RulesOf, WithRules, Drops, NatRules, Undeleted;
      rb := NoRollback;
      NoRules(kernel);
      NoRules(Target());
      if out.None? { return Skipped, rb; }
      var rules := NatRules(src, out.value, rootIntf);
      assert |rules| == 3 by { ThreeRules(src, out.value, rootIntf); }
      var ok;
      ok, rb := InstallRules(rules);
      if !ok {
        ExtraRules(old(kernel), actions, LeakedBy(outcome, rb));
        RulesGrow(old(kernel), LeakedBy(outcome, rb));
        return Raised, rb;
      }
      DropsInstalled(old(kernel), actions, rules);
      RulesGrow(old(kernel), multiset(rules));
      actions := actions + Drops(rules);
      o := Done;
    }

    /** The commands `from`, ... installed rb.owned, the next one failed, and the
        deletes follow. */
    ghost predicate FailedInstall(rules: seq<Rule>, from: nat, rb: Rollback) {
      && rb.Rollback? && |rb.owned| < |rules| && rb.owned == rules[..|rb.owned|] && rb.from == from + |rb.owned| + 1
      && (forall i | from <= i < from + |rb.owned| :: outcome(i)) && !outcome(from + |rb.owned|)
    }

    /** Appends the rules one by one; a failure rolls the earlier ones back. */
    method InstallRules(rules: seq<Rule>) returns (ok: bool, ghost rb: Rollback)
      modifies this`kernel, this`issued
      ensures ok ==> rb.NoRollback? && kernel == WithRules(old(kernel), multiset(rules)) && issued == old(issued) + |rules|
      ensures ok ==> forall i | old(issued) <= i < issued :: outcome(i)
      ensures !ok ==> FailedInstall(rules, old(issued), rb) && kernel == WithRules(old(kernel), LeakedBy(outcome, rb))
                      && issued == rb.from + |rb.owned|
    {
      hide WithRules, Undeleted;
      rb := NoRollback;
      NoRules(kernel);
      var i := 0;
      assert rules[..0] == [];
      while i < |rules|
        invariant 0 <= i <= |rules| && kernel == WithRules(old(kernel), multiset(rules[..i])) && rb == NoRollback
        invariant issued == old(issued) + i && forall j | old(issued) <= j < issued :: outcome(j)
      {
        MoreRules(old(kernel), multiset(rules[..i]), multiset{rules[i]});
        assert multiset(rules[..i + 1]) == multiset(rules[..i]) + multiset{rules[i]} by { assert rules[..i + 1] == rules[..i] + [rules[i]]; }
        ok := AppendRule(rules[i]);
        if !ok {
          rb := Rollback(rules[..i], issued);
          RollbackRules(old(kernel), rules[..i]);
          return;
        }
        i := i + 1;
      }
      assert rules[..i] == rules;
      ok := true;
    }

    /** Deletes the installed rules in reverse; exactly those whose command fails stay. */
    method RollbackRules(ghost k0: Kernel, owned: seq<Rule>)
      requires kernel == WithRules(k0, multiset(owned))
      modifies this`kernel, this`issued
      ensures kernel == WithRules(k0, Undeleted(owned, outcome, old(issued))) && issued == old(issued) + |owned|
    {
      hide WithRules, Exec, Undeleted;
      ghost var leaked: multiset<Rule> := multiset{};
      var i := |owned|;
      assert owned[..i] == owned;
      assert multiset(owned) + multiset{} == multiset(owned);
      assert Undeleted(owned, outcome, issued) + multiset{} == Undeleted(owned, outcome, issued);
      while i > 0
        invariant 0 <= i <= |owned| && kernel == WithRules(k0, multiset(owned[..i]) + leaked) && issued == old(issued) + |owned| - i
        invariant Undeleted(owned, outcome, old(issued)) == Undeleted(owned[..i], outcome, issued) + leaked
      {
        i := i - 1;
        var m := multiset(owned[..i]);
        assert multiset(owned[..i + 1]) == m + multiset{owned[i]} by { assert owned[..i + 1] == owned[..i] + [owned[i]]; }
        assert m + multiset{owned[i]} + leaked == m + leaked + multiset{owned[i]};
        DropsLast(k0, m + leaked, owned[i]);
        UndeletedStep(owned, i, outcome, issued, leaked);
        var ok := RunAction(DropRule(owned[i]));
        if !ok {
          assert m + leaked + multiset{owned[i]} == m + (leaked + multiset{owned[i]});
          leaked := leaked + multiset{owned[i]};
        }
      }
      UndeletedEnd(owned, outcome, issued, leaked);
      assert owned[..0] == [] && multiset{} + leaked == leaked;
    }

    /** cleanup: the stack in reverse. */
    method Cleanup() returns (raised: bool)
      requires Valid()
      modifies this`kernel, this`actions, this`issued, this`cleanups
      ensures Valid() && issued == old(issued) + |old(actions)| && cleanups == old(cleanups) + [old(issued)]
      ensures var ok := Oks(outcome, old(issued), |old(actions)|);
              kernel == AfterCleanup(old(kernel), old(actions), ok) && actions == Retained(old(actions), ok)
      ensures raised <==> actions != []
      ensures false !in Oks(outcome, old(issued), |old(actions)|) ==> kernel == old(Target()) && actions == []
    {
      hide RulesOf, Exec, AfterCleanup, Retained, UndoAll, Mandatory;
      var acts := actions;
      var retained: seq<Action> := [];
      ghost var k0 := kernel;
      ghost var ok := Oks(outcome, issued, |acts|);
      cleanups := cleanups + [issued];
      var i := |acts|;
      assert acts[..i] == acts && ok[..i] == ok;
      raised := false;
      while i > 0
        invariant 0 <= i <= |acts| && actions == acts && issued == old(issued) + |acts| - i
        invariant cleanups == old(cleanups) + [old(issued)]
        invariant AfterCleanup(k0, acts, ok) == AfterCleanup(kernel, acts[..i], ok[..i])
        invariant Retained(acts, ok) == Retained(acts[..i], ok[..i]) + retained
        invariant raised <==> retained != []
      {
        i := i - 1;
        CleanupStep(kernel, acts, ok, i);
        assert ok[i] == outcome(issued);
        var done := RunAction(acts[i]);
        assert Retained(acts[..i], ok[..i]) + [] == Retained(acts[..i], ok[..i]);
        if !done && Mandatory(acts[i]) {
          raised := true;
          assert Retained(acts[..i], ok[..i]) + [acts[i]] + retained == Retained(acts[..i], ok[..i]) + ([acts[i]] + retained);
          retained := [acts[i]] + retained;
        }
      }
      assert acts[..i] == [] && ok[..i] == [] && [] + retained == retained;
      NothingToDo(kernel);
      actions := retained;
      StillInstalled(k0, acts, ok);
      if false !in ok { AllSucceed(k0, acts, ok); }
    }

    /** The cleanup that ends an experiment begun with kernel `k`. If all its commands
        succeed, `k` is back exactly when every delete of the NAT rollback succeeded. */
    method TearDown(ghost k: Kernel, ghost rb: Rollback) returns (raised: bool)
      requires Valid() && Target() == WithRules(k, LeakedBy(outcome, rb))
      modifies this`kernel, this`actions, this`issued, this`cleanups
      ensures Valid() && issued == old(issued) + |old(actions)| && cleanups == old(cleanups) + [old(issued)]
      ensures raised <==> actions != []
      ensures AllSucceeded(outcome, old(issued), issued) ==>
                actions == [] && kernel == WithRules(k, LeakedBy(outcome, rb)) && (kernel == k <==> DeletesSucceed(outcome, rb))
    {
      hide UndoAll, RulesOf, WithRules, AfterCleanup, Retained, Undeleted;
      AllOks(outcome, issued, |actions|);
      raised := Cleanup();
      LeaksIff(k, outcome, rb);
    }

    /** connect_to_root_ns: the link, then the root route to the local hosts. */
    method ConnectToRootNs(intf: Intf, localRoutes: Prefix)
      requires Valid()
      modifies this`kernel, this`actions, this`issued, this`rootIntf
      ensures Valid() && Target() == old(Target()) && rootIntf == Some(intf) && issued == old(issued) + 1
      ensures kernel == old(kernel).(routes := old(kernel.routes) + Added([Route(None, localRoutes)], outcome, old(issued)))
    {
      hide UndoAll, RulesOf, Added;
      rootIntf := Some(intf);
      var ok := AddRoute(Route(None, localRoutes));
    }

    /** add_host_route for every listed host. */
    method AddHostRoutes(hosts: seq<Host>, dest: Prefix)
      requires Valid()
      modifies this`kernel, this`actions, this`issued
      ensures Valid() && Target() == old(Target()) && issued == old(issued) + |hosts|
      ensures kernel == old(kernel).(routes := old(kernel.routes) + Added(HostRoutes(hosts, dest), outcome, old(issued)))
    {
      hide UndoAll, RulesOf, Added;
      ghost var rs, k0 := HostRoutes(hosts, dest), kernel;
      NothingAdded(outcome, issued);
      assert rs[..0] == [] && k0.routes + {} == k0.routes;
      for i := 0 to |hosts|
        invariant Valid() && Target() == old(Target()) && issued == old(issued) + i
        invariant kernel == k0.(routes := k0.routes + Added(rs[..i], outcome, old(issued)))
      {
        assert rs[..i + 1] == rs[..i] + [Route(Some(hosts[i]), dest)];
        AddedMore(rs[..i], [Route(Some(hosts[i]), dest)], outcome, old(issued));
        assert k0.routes + Added(rs[..i], outcome, old(issued)) + Added([Route(Some(hosts[i]), dest)], outcome, issued)
            == k0.routes + (Added(rs[..i], outcome, old(issued)) + Added([Route(Some(hosts[i]), dest)], outcome, issued));
        var ok := AddRoute(Route(Some(hosts[i]), dest));
      }
      assert rs[..|hosts|] == rs;
    }

    /** Rules leak only through a NAT rollback, the last thing a setup does. */
    ghost predicate LastRolledBack(raised: bool, rb: Rollback)
      reads this
    {
      rb.Rollback? ==> raised && rb.from > 0 && !outcome(rb.from - 1) && issued == rb.from + |rb.owned|
    }

    /** The NAT part of an entry. */
    method SetupNat(src: Prefix, out: Option<Intf>) returns (raised: bool, ghost rb: Rollback)
      requires Valid()
      modifies this`kernel, this`actions, this`issued
      ensures Valid() && Target() == WithRules(old(Target()), LeakedBy(outcome, rb)) && LastRolledBack(raised, rb)
      ensures old(issued) <= issued <= old(issued) + 7
      ensures !raised <==> outcome(old(issued)) && SwitchAt(old(kernel), IpForward) && outcome(old(issued) + 1)
                           && (out.Some? ==> outcome(old(issued) + 2) && outcome(old(issued) + 3) && outcome(old(issued) + 4))
      ensures !raised ==> issued == old(issued) + if out.None? then 2 else 5
      ensures !raised ==> kernel == WithRules(old(kernel).(cells := old(kernel.cells)[IpForward := "1"]),
                                              if out.None? then multiset{} else multiset(NatRules(src, out.value, rootIntf)))
    {
      hide UndoAll, RulesOf, WithRules, Undeleted, SwitchAt, NatRules;
      rb := NoRollback;
      NoRules(Target());
      var o := EnableIpForwarding();
      if o.Raised? { return true, rb; }
      o, rb := EnableNat(src, out);
      raised := o.Raised?;
    }

    /** The link, the routes to the external network, and resolv.conf. */
    method SetupLink(c: Config)
      requires Valid() && c.attached.Some?
      modifies this`kernel, this`actions, this`issued, this`rootIntf
      ensures Valid() && Target() == old(Target()) && rootIntf == c.attached
      ensures Connected(c, outcome, old(kernel), old(issued), kernel, issued)
      ensures old(issued) <= issued <= old(issued) + 3 + 2 * |c.hosts|
    {
      hide UndoAll, RulesOf, SomeSucceeds, Added;
      ghost var f, k0 := issued, kernel;
      ConnectToRootNs(c.attached.value, c.localRoutes);
      ghost var rs := [Route(None, c.localRoutes)];
      if c.external.Some? {
        if c.gateway {
          var ok := AddRoute(Route(None, c.external.value));
          AddedMore(rs, [Route(None, c.external.value)], outcome, f);
          rs := rs + [Route(None, c.external.value)];
        }
        assert kernel == k0.(routes := k0.routes + Added(rs, outcome, f)) && issued == f + |rs|;
        AddHostRoutes(c.hosts, c.external.value);
        AddedMore(rs, HostRoutes(c.hosts, c.external.value), outcome, f);
        rs := rs + HostRoutes(c.hosts, c.external.value);
        assert rs == PreRoutes(c);
        assert kernel == k0.(routes := k0.routes + Added(rs, outcome, f)) && issued == f + |rs|;
        var captured := WriteResolvConf(c.hosts);
      } else {
        assert rs == PreRoutes(c);
      }
    }

    /** NAT and proxy ARP: either may raise. */
    method SetupServices(c: Config) returns (raised: bool, ghost rb: Rollback)
      requires Valid() && c.attached.Some? && rootIntf == c.attached
      modifies this`kernel, this`actions, this`issued
      ensures Valid() && Target() == WithRules(old(Target()), LeakedBy(outcome, rb)) && LastRolledBack(raised, rb)
      ensures old(issued) <= issued <= old(issued) + 12
      ensures !raised <==> Serves(c, outcome, old(kernel), old(issued))
      ensures !raised ==> Served(c, old(kernel), old(issued), kernel, issued)
    {
      hide UndoAll, RulesOf, WithRules, Undeleted, SwitchAt, NatRules, RulesFor, Natted, SwitchesOn;
      raised, rb := false, NoRollback;
      NoRules(Target());
      ghost var k0, q := kernel, issued;
      if c.useNat {
        raised, rb := SetupNat(c.localRoutes, c.natOut);
        if raised { return; }
        NoRules(old(Target()));
        NatServed(c, k0, kernel);
      } else {
        NoNatServed(c, k0);
      }
      ghost var k1 := kernel;
      if c.proxyArp {
        SameSwitches(c, k0, k1);
        var o, failed := EnableProxyArp();
        if o.Raised? { return true, rb; }
        ArpServed(c, k0, k1, kernel);
      } else {
        NoArpServed(c, k0, k1);
      }
    }

    /** One entry of setup_bridges. */
    method SetupBridge(c: Config) returns (raised: bool, ghost rb: Rollback)
      requires Valid()
      modifies this`kernel, this`actions, this`issued, this`rootIntf
      ensures old(issued) <= issued <= old(issued) + Budget([c])
      ensures Valid() && Target() == WithRules(old(Target()), LeakedBy(outcome, rb)) && LastRolledBack(raised, rb)
      ensures !raised ==> EntryDone(c, outcome, old(kernel), old(issued), kernel, issued)
      ensures raised ==> EntryFails(c, outcome, old(kernel), old(issued))
    {
      hide UndoAll, RulesOf, WithRules, Undeleted, SwitchAt, SomeSucceeds, Added, Connected, Serves, Served;
      assert [c][..0] == [];
      raised, rb := false, NoRollback;
      NoRules(Target());
      if c.attached.None? { return; }
      SetupLink(c);
      ghost var k1, f1 := kernel, issued;
      raised, rb := SetupServices(c);
      if raised { return; }
      ghost var k2, f2 := kernel, issued;
      if c.vmNetwork.Some? {
        AddHostRoutes(c.hosts, c.vmNetwork.value);
      } else {
        NothingAdded(outcome, issued);
        assert kernel.routes + {} == kernel.routes;
      }
      assert kernel == k2.(routes := k2.routes + Added(LaterRoutes(c), outcome, f2));
    }

    /** setup_bridges: whatever fails on the way, a cleanup without failures brings
        back the kernel of before, but for the NAT rules a rollback could not delete. */
    method SetupBridges(cs: seq<Config>) returns (raised: bool, ghost rb: Rollback, ghost ks: seq<Kernel>, ghost fs: seq<nat>)
      requires Valid()
      modifies this`kernel, this`actions, this`issued, this`rootIntf
      ensures Valid() && Target() == WithRules(old(Target()), LeakedBy(outcome, rb)) && LastRolledBack(raised, rb)
      ensures old(issued) <= issued <= old(issued) + Budget(cs)
      ensures |ks| == |fs| <= |cs| + 1 && ks != [] && ks[0] == old(kernel) && fs[0] == old(issued)
      ensures !raised ==> Stages(cs, outcome, ks, fs) && ks[|cs|] == kernel && fs[|cs|] == issued
      ensures !raised ==> forall i | 0 <= i < |cs| :: InForce(cs[i], kernel) && Delivered(cs[i], outcome, ks[i], fs[i], kernel)
      ensures raised ==> |ks| <= |cs| && Stages(cs[..|ks| - 1], outcome, ks, fs) && EntryFails(cs[|ks| - 1], outcome, ks[|ks| - 1], fs[|fs| - 1])
    {
      hide UndoAll, RulesOf, WithRules, Undeleted, Budget, Stages, EntryDone, EntryFails, InForce, Delivered;
      raised, rb, ks, fs := false, NoRollback, [kernel], [issued];
      NoRules(Target());
      NoStages(outcome, kernel, issued);
      assert cs[..0] == [];
      for i := 0 to |cs|
        invariant old(issued) <= issued <= old(issued) + Budget(cs[..i])
        invariant Valid() && Target() == old(Target()) && Target() == WithRules(old(Target()), multiset{})
        invariant rb == NoRollback && !raised
        invariant |ks| == |fs| == i + 1 && ks[0] == old(kernel) && fs[0] == old(issued) && ks[i] == kernel && fs[i] == issued
        invariant Stages(cs[..i], outcome, ks, fs)
      {
        BudgetGrows(cs, i);
        assert cs[..i + 1] == cs[..i] + [cs[i]];
        raised, rb := SetupBridge(cs[i]);
        if raised { return; }
        StagesMore(cs[..i], outcome, ks, fs, cs[i], kernel, issued);
        ks, fs := ks + [kernel], fs + [issued];
        NoRules(old(Target()));
      }
      assert cs[..|cs|] == cs;
      StagesInForce(cs, outcome, ks, fs);
    }
  }

  lemma NoStages(outcome: nat -> bool, k: Kernel, f: nat)
    ensures Stages([], outcome, [k], [f])
  {
  }

  // ---------- whole experiments ----------

  /** Setups on a fresh manager, then one cleanup. If every command of the cleanup
      succeeds, the kernel is the initial one exactly when every NAT rollback delete
      that the setups attempted succeeded. */
  method SetupThenCleanup(k: Kernel, cs: seq<Config>, outcome: nat -> bool)
    returns (m: BridgeManager, raised: bool, ghost rb: Rollback)
    ensures fresh(m) && m.outcome == outcome && |m.cleanups| == 1 && m.cleanups[0] <= Budget(cs)
    ensures rb.Rollback? ==> raised && 0 < rb.from && !outcome(rb.from - 1) && m.cleanups[0] == rb.from + |rb.owned|
    ensures AllSucceeded(outcome, m.cleanups[0], m.issued) ==>
              && m.actions == [] && m.kernel == WithRules(k, LeakedBy(outcome, rb))
              && (m.kernel == k <==> DeletesSucceed(outcome, rb))
  {
    hide UndoAll, RulesOf, WithRules, Undeleted, Budget, AllSucceeded, Stages, InForce, Delivered, EntryFails;
    m := new BridgeManager(k, outcome);
    ghost var ks, fs;
    raised, rb, ks, fs := m.SetupBridges(cs);
    var failed := m.TearDown(k, rb);
  }

  /** A leak: the second rule and the delete of the first both fail. */
  method NatCanLeak(src: Prefix, out: Intf) returns (after: Kernel)
    ensures after == Kernel(map[], multiset{Masquerade(src, out)}, {})
  {
    hide UndoAll, RulesOf, AfterCleanup, Retained, NatRules, Undeleted;
    var k := Kernel(map[], multiset{}, {});
    var m := new BridgeManager(k, i => i != 1 && i != 2);
    ghost var rb;
    var o;
    o, rb := m.EnableNat(src, Some(out));
    LeakHere(src, out, m.outcome);
    assert m.outcome(0) && !m.outcome(1);
    assert o.Raised? && rb == Rollback([Masquerade(src, out)], 2);
    var raised := m.Cleanup();
    after := m.kernel;
  }

  lemma LeakHere(src: Prefix, out: Intf, outcome: nat -> bool)
    requires !outcome(2)
    ensures NatRules(src, out, None)[..1] == [Masquerade(src, out)]
    ensures Undeleted([Masquerade(src, out)], outcome, 2) == multiset{Masquerade(src, out)}
  {
    assert [Masquerade(src, out)][..0] == [];
    assert Undeleted([], outcome, 3) == multiset{};
  }

  lemma RetryLeaves(k: Kernel, a0: Action, a1: Action, outcome: nat -> bool)
    requires Mandatory(a1) && !outcome(4) && outcome(5) && outcome(6)
    ensures AfterCleanup(k, [a0, a1], Oks(outcome, 4, 2)) == Exec(k, a0) && Retained([a0, a1], Oks(outcome, 4, 2)) == [a1]
    ensures AfterCleanup(Exec(k, a0), [a1], Oks(outcome, 6, 1)) == Exec(Exec(k, a0), a1)
  {
    hide Exec;
    var acts, ok := [a0, a1], [true, false];
    assert Oks(outcome, 4, 2) == ok && Oks(outcome, 6, 1) == [true];
    assert acts[..1] == [a0] && ok[..1] == [true] && [a0][..0] == [] && [a1][..0] == [] && [true][..0] == [];
    assert AfterCleanup(k, [a0], [true]) == AfterCleanup(Exec(k, a0), [], []);
    assert AfterCleanup(k, acts, ok) == AfterCleanup(k, [a0], [true]);
    assert AfterCleanup(Exec(k, a0), [a1], [true]) == AfterCleanup(Exec(Exec(k, a0), a1), [], []);
    assert Retained([a0], [true]) == [];
    assert Retained(acts, ok) == [] + [a1];
  }

  /** Forwarding enabled twice, the cleanup of the second failing: the retry, with
      every command succeeding, brings back the setup's own value. */
  method RetryCanMiss() returns (once: Kernel, twice: Kernel)
    ensures ValueAt(once, IpForward) == Some("0") && ValueAt(twice, IpForward) == Some("1")
  {
    hide UndoAll, RulesOf, AfterCleanup, Retained, Oks;
    var k := Kernel(map[IpForward := "0"], multiset{}, {});
    var m := new BridgeManager(k, i => i != 4);
    var o := m.EnableIpForwarding();
    o := m.EnableIpForwarding();
    assert m.actions == [Restore(IpForward, "0"), Restore(IpForward, "1")];
    RetryLeaves(m.kernel, Restore(IpForward, "0"), Restore(IpForward, "1"), m.outcome);
    var raised := m.Cleanup();
    once := m.kernel;
    raised := m.Cleanup();
    twice := m.kernel;
  }
}
