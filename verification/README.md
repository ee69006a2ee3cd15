# Verified model of the experiment driver

This project models the algorithmic core of a driver for content-centric
networking experiments on Mininet, and proves what its operations promise. It has
five parts, in one module per component.

- **Routing.** Graph searches (`Paths`, `Dijkstra`, `Yen`, `KCenters`, `UnionFind`),
  the topology and address model (`Topology`, `Addressing`), the three forwarding
  strategies (`Fib`, `Routing`) and what packets do under them (`Forwarding`).
- **Random meshes.** The degree-budgeted spanning tree (`MeshBase`, `MeshTree`), the
  packing, balancing and link records (`MeshBuild`), and the hand-over of a mesh to
  the routing tables (`MeshRouting`). Every random choice is an arbitrary choice, so
  each result holds for every seed.
- **Scheduling.** `Scheduler` runs a priority queue that feeds itself repeats and
  restores, against a declarative expansion of the configured events.
- **Concurrent lifecycles.** `HostApps` (with `HostRestarts`, what a restart call
  achieves), `FailureManager` and `ContentOps` are step systems: each locked region and each blocking call is one atomic step, and the
  steps of all threads interleave freely. A result about `After(s, run)` holds for
  every run. `FlapState` is the shared view of which hosts are down.
- **Undo ledgers.** `BridgeLedger` (what the records say about the kernel),
  `BridgeExternal` and `BridgeRoot` mutate a modelled kernel through commands any of
  which may fail (and then changes nothing), forward and backward. Which commands
  fail is an arbitrary function from the command's number to its outcome, so results
  name the very commands they depend on.

Numbers of hosts and nodes are `Ordering.Node`; edge weights are non-negative
integers; times are rationals. A missing dict key, an error return or an escaping
exception is an outcome: a `None`, a `KeyMissing` or a failed result. What is left
as a precondition of an entry point is what its callers have checked, or what every
input outside it is an error for: links have hosts (`max` of an empty list raises), an
explicit mesh takes the pairs its validator lets through, a generated mesh has a host
and draws its degrees in the configured range, the initial kernel enslaves NICs only
to bridges it has, and a scheduler whose repeats never end is stopped at some point.

Where the code and its description differ, the code is followed.

- `k_shortest_paths` never removes duplicates from its candidate list and spends a
  round when it pops a path that is already listed. The result is always a correct
  prefix of the ranking, but it has k paths (or all of them) on every graph exactly
  for k up to 3: `Yen.KShortestPaths` proves that half for every graph, and
  `YenLimits.FallsShort` gives, for every k from 4 on, a graph with k simple paths of
  which fewer than k come back.
- `enable_nat` swallows a failed delete while it rolls back, and that rule is then
  known to nobody. `BridgeRoot.NatCanLeak` is such a run, and
  `BridgeRoot.SetupThenCleanup` shows that setup and a cleanup without
  failures restore the kernel exactly when every rollback delete succeeded.
- A cleanup of `BridgeManager` that fails in part keeps its failed actions for a
  retry. When two actions captured the same setting, that retry can restore the
  later capture. `BridgeRoot.RetryCanMiss` is such a case and
  `BridgeRoot.RetryRestores` says exactly when the retry restores everything.
- Equal-cost and k-best tables are acyclic towards a destination only when the hops
  are shortest ones: `Forwarding` claims nothing for k > 1.

## Model

| member | source | states |
|---|---|---|
| `UnionFind.UnionFind.constructor` | src/core/graph.py:10-12 | n singleton classes and an empty history of unions |
| `UnionFind.UnionFind.Find` | src/core/graph.py:14-18 | returns the representative; path halving changes no class; the loop takes one step per two parent links on the way there, at most log2 of the class size of them |
| `UnionFind.UnionFind.Connected` | src/core/graph.py:20-21 | true exactly when the two elements are joined by the unions made so far |
| `UnionFind.UnionFind.Union` | src/core/graph.py:23-31 | true exactly when the elements were not yet joined; the history grows by this union; roots keep the sizes of their classes |
| `UnionFind.SameRootIffJoined` | src/core/graph.py:7-31 | in every reachable forest two elements share a root exactly when a chain of unions joins them |
| `Dijkstra.ShortestPath` | src/core/graph.py:34-82 | for every dict: a path of least cost among those that avoid the bans; or none, and none exists; or a KeyError, and then some missing key is no farther than the target (a nearer one always raises) |
| `Dijkstra.DijkstraAll` | src/core/graph.py:85-105 | raises exactly when a reachable node is no key; otherwise lists exactly the reachable nodes with their true least costs, and parents that lie on least-cost paths |
| `Dijkstra.ComputeDistances` | src/core/graph.py:154-177 | distances from the source under the given weights, or in hops without any, for every dict |
| `Dijkstra.BreadthFirst` | src/core/graph.py:158-166 | breadth-first distances are the least costs at unit weight |
| `Dijkstra.CheapestFirst` | src/core/graph.py:167-177 | the weighted branch yields the least costs; a node without a key has no neighbours |
| `Paths.DistancesUnique` | src/core/graph.py:85-177 | the searches agree: least-cost tables of one source are equal |
| `Dijkstra.ClosedHasKeys` | src/core/graph.py:67-68 | on a closed dict every node a search can reach under any bans is a key, so no lookup fails |
| `Yen.KShortestPaths` | src/core/graph.py:115-151 | distinct simple paths in ascending cost, none left out cheaper than one listed; they are what the rounds of the run popped, first occurrences only; all k - 1 rounds are played unless every simple path is listed; k paths or all of them whenever k is at most 3; a KeyError only if a missing key is reachable |
| `Yen.EarlyRoundsList` | src/core/graph.py:119-150 | neither of the first two rounds pops a path that is already listed |
| `Yen.SpurBest` | src/core/graph.py:125-144 | one spur search finds a cheapest simple path that leaves the last listed one right at that node and no listed way, whenever there is one |
| `YenLimits.FallsShort` | src/core/graph.py:115-151 | for every k from 4 on, on a graph with k simple paths the code returns fewer than k and misses one |
| `YenLimits.RoundLost` | src/core/graph.py:145-150 | on that graph the third round pops a path listed before, so the rounds list at most as many paths as there are rounds |
| `YenLimits.ManyPaths` | src/core/graph.py:115-151 | that graph has k different simple paths |
| `Yen.SpurCandidates` | src/core/graph.py:125-144 | after a pass over the spur nodes, every unlisted path leaving the last listed one has a candidate no dearer than it |
| `Yen.SpurReaches` | src/core/graph.py:128-141 | a simple path that leaves the listed ones at a spur node survives the edge and node bans there |
| `Yen.CheapestCovers` | src/core/graph.py:145-148 | the cheapest candidate costs no more than any unlisted simple path |
| `Yen.Exhausted` | src/core/graph.py:145-146 | without candidates every simple path is listed |
| `KCenters.SelectKCenters` | src/core/graph.py:180-201 | the lowest eligible node first, then always the node farthest from the centers so far, of equally far ones the lowest; distinct, min(k, eligible) of them at positive weights; on symmetric graphs a 2-approximation of any k vertices |
| `KCenters.TwiceOptimal` | src/core/graph.py:190-200 | centers picked farthest-first cover within 2r whatever any equally many vertices cover within r |
| `KCenters.Crowded` | src/core/graph.py:190-200 | more nodes than covering vertices: two of the nodes lie within 2r of each other |
| `Topology.Normalize` | src/core/topology.py:39-58 | both raw link shapes keep their switch, subnet, hosts (in ascending order) and the interface index of each host |
| `Topology.Edges` | src/core/topology.py:60-73 | exactly the pairs of hosts sharing a link, in link order |
| `Topology.HostCount` | src/core/topology.py:110-116 | the highest attached host plus one, 0 for no links |
| `Addressing.HostIp` | src/core/addressing.py:49-72 | an address exists exactly for subnets 0..255 and hosts 0..253 |
| `Addressing.HostIpDecodes` | src/core/addressing.py:49-86 | an address determines its subnet and host and lies in the subnet's /24 |
| `Addressing.HostsInOrder` | src/core/addressing.py:49-86 | the hosts of a link follow its network address one by one, from .1 on |
| `Addressing.ApplyIpAddr` | src/runtime/net_config.py:14-38 | assigns exactly the addresses of all interfaces of all links, and fails exactly when some interface has no index, no subnet or no address in range |
| `Addressing.CanonicalHostIp` | src/core/addressing.py:104-129 | the address on the host's lowest numbered subnet; none exactly when it has no subnet or the address is out of range |
| `Fib.BuildGraphAndSubnets` | src/core/fib.py:30-47 | as many hosts as the links attach; the symmetric graph of hosts sharing a link; of several links of a pair the last one's subnet is kept |
| `Fib.BuildTables` | src/core/fib.py:60-63 | a true hop-distance table from every host of the links |
| `Fib.TablesUnique` | src/core/fib.py:30-63 | the links determine the host count, the neighbours and the distances of the tables |
| `Fib.AddRoutes` | src/core/fib.py:128-152 | appends the chosen next hops of one demand, skipping repeated (source, prefix, address) triples; fails exactly on an unanswerable demand |
| `Fib.Compute` | src/core/fib.py:50-179 | all demands answered, nothing else installed; fails exactly when some demand is unanswerable |
| `Fib.SameHop` | src/core/fib.py:86-95 | at one source, equal next-hop addresses mean the same next hop |
| `Routing.ComputeRoutes` | src/core/fib.py:217-307 | for each demanded (source, destination, prefix): ecmp installs exactly the neighbours one step closer, shortest_path the lowest-numbered of them, k-best exactly the neighbours that fewer than k reaching ones rank before; with the address of each hop, none twice; fails exactly when some demand cannot be answered |
| `Routing.BestCount` | src/core/fib.py:75-86 | k-best takes min(k, neighbours that reach the destination) hops |
| `Routing.OneLowest` | src/core/fib.py:228-236 | a reachable destination has exactly one lowest-numbered closer neighbour |
| `Routing.DemandsMeaning` | src/core/fib.py:154-179 | the passes over publishers and static routes demand exactly the inward and outward pairs |
| `Routing.FirstCandidate` | src/core/fib.py:75-84 | the cheapest candidate costs exactly the hop distance, and candidates exist exactly when the destination is reachable |
| `Routing.EqualCostIsCloser` | src/core/fib.py:250-275 | equal-cost multipath installs exactly the neighbours one step closer |
| `Routing.BestOneIsCloser` | src/core/fib.py:228-236 | the single best hop is one step closer, and exists when the destination is reachable |
| `Routing.KBestMonotone` | src/core/fib.py:50-96 | routes grow monotonically with k |
| `Routing.ShortestWithinEcmp` | src/core/fib.py:228-275 | every shortest_path route is an equal-cost route |
| `Forwarding.EcmpIsShortestPathDag` | src/core/fib.py:239-288 | for a default prefix the table walks ending at its host are exactly the shortest paths to it |
| `Forwarding.EcmpForwards` | src/core/fib.py:239-288 | over the routes that the ecmp strategy returns for default prefixes, packets follow exactly the shortest paths |
| `Forwarding.FibWalkIsShortest` | src/core/fib.py:228-288 | a table walk that first meets the destination at its end is a shortest path |
| `Forwarding.ShortestIsFibWalk` | src/core/fib.py:250-275 | every shortest path is a walk of the equal-cost table |
| `Forwarding.ReachesPublisher` | src/core/fib.py:99-179 | from a connected host any installed hops lead to a sole publisher in exactly the shortest number of hops, and never get stuck before |
| `Forwarding.ReachPublishers` | src/core/fib.py:228-288 | over the routes that shortest_path or ecmp returns, any installed hops lead to a sole publisher in exactly the shortest number of hops |
| `Forwarding.CyclesMeetPublisher` | src/core/fib.py:99-179 | every forwarding cycle of the prefix passes through its publisher |
| `Forwarding.PrefixRouteNotAtHome` | src/core/fib.py:170-179 | a prefix that only static routes announce is never installed at its own host |
| `Forwarding.NextHopOnLink` | src/core/fib.py:86-95 | with distinct subnets a route's address is the next hop's on a link the source shares, and no other interface's |
| `MeshTree.SpanningTree` | src/runtime/topo.py:80-128 | a tree is built exactly when the drawn degrees sum to at least 2(hosts-1); then all hosts are connected within budget and capacity by at most hosts-1 switches; hosts join by descending degree, each to the first largest partner, on the partner's first switch with room or a new one |
| `MeshTree.Stuck` | src/runtime/topo.py:103-117 | when no partner has budget left the drawn degrees were too small for any tree |
| `MeshTree.PickPartner` | src/runtime/topo.py:105-109 | the first of the connected hosts with the largest residual degree, or none has any |
| `MeshTree.PickSwitch` | src/runtime/topo.py:118-123 | the first switch of the partner with room for two, or none has room |
| `MeshBuild.FillSwitch` | src/runtime/topo.py:130-143 | takes as many of the hosts with budget as fit |
| `MeshBuild.PackLeftovers` | src/runtime/topo.py:130-144 | spends every remaining degree; each added switch holds capacity hosts with budget left or all of them, so their number is bounded by the degrees, the capacity and the largest degree |
| `MeshBuild.PopLowest` | src/runtime/topo.py:175-187 | takes out the least loaded hosts, as many as fit a switch |
| `MeshBuild.PushBack` | src/runtime/topo.py:189-194 | the popped hosts return one attachment heavier on the new switch |
| `MeshBuild.AddExtraSwitches` | src/runtime/topo.py:153-198 | reaches the switch target exactly; each new switch takes as many hosts as fit, none with more attachments than one left out; a load spread of at least 1 never widens |
| `MeshBuild.SpreadStep` | src/runtime/topo.py:174-194 | one more switch over the least loaded hosts keeps every spread bound of at least 1 |
| `MeshBuild.EmitLinks` | src/runtime/topo.py:200-214 | one record per switch with its hosts in order and the interface each uses there |
| `MeshBuild.InterfacesConsecutive` | src/runtime/topo.py:200-214 | the interface indices of a host are exactly 0, 1, ... in link order |
| `MeshBuild.BuildMesh` | src/runtime/topo.py:56-214 | for the degrees drawn: no tree exactly when they sum to less than 2(hosts-1); too many switches exactly when tree and packing, run as prescribed, exceed the limit, which takes a limit below a bound in the inputs; the bad ranges exactly as checked; a built mesh is connected, within capacity and budget, with the demanded number of switches and spread |
| `MeshBuild.BuildExplicit` | src/runtime/topo.py:243-270 | one switch per configured pair of different hosts, with consecutive interfaces |
| `MeshRouting.MeshIsRouted` | src/runtime/topo.py:97-214 | a connected mesh gives every host a known distance and an installed next hop to every other |
| `MeshRouting.MeshTables` | src/core/fib.py:30-63 | the tables built from any generated mesh cover all pairs of hosts |
| `Scheduler.EventScheduler.constructor` | src/runtime/scheduler.py:192-220 | loads the events in configuration order |
| `Scheduler.EventScheduler.Push` | src/runtime/scheduler.py:222-231 | the heap stays in (time, priority, number) order, gains exactly this event under the next insertion number, and nothing else changes |
| `Scheduler.EventScheduler.FollowUp` | src/runtime/scheduler.py:233-266 | pushes the restore first, then the next repetition, each with the fields, time, priority and number it must have |
| `Scheduler.EventScheduler.Run` | src/runtime/scheduler.py:268-330 | follows the step semantics under the verdicts of the handlers until drained, stopped (and no earlier) or killed by a fatal error, and writes the outcome records of those steps; ends when all counts are finite |
| `Scheduler.RunRefines` | src/runtime/scheduler.py:222-330 | fired and still due firings together are exactly the declarative schedule, in (time, priority) order; a drained queue fired all of it |
| `Scheduler.StepConserves` | src/runtime/scheduler.py:268-330 | no non-fatal step loses or invents a firing |
| `Scheduler.ExpansionStep` | src/runtime/scheduler.py:233-266 | an event stands for its occurrence now and its next repetition's expansion |
| `Scheduler.RestoreExpansion` | src/core/events.py:167-198 | a restore fires once and spawns nothing |
| `Scheduler.OccurrenceIs` | src/core/events.py:167-198 | an occurrence is the event without its repeat and, a duration later, the event that undoes it: override fields win, all others stay, the type is the override's, restore_type counts only without restore |
| `Scheduler.RestoresFire` | src/runtime/scheduler.py:233-330 | in a drained run every occurrence of every configured event has fired, and its restore a duration later |
| `Scheduler.TypesInOrder` | src/core/events.py:49-107 | in every run, of events due at the same time a subscriber fires before a put, that before a publisher, that before a get, that before the rest |
| `Scheduler.StepInOrder` | src/runtime/scheduler.py:268-330 | what fires is never before what has fired |
| `Scheduler.FatalLoses` | src/runtime/scheduler.py:300-330 | a fatal handler error loses exactly what its own event still stood for beyond the firing itself; nothing for an unknown type |
| `Scheduler.RecordsFollowFirings` | src/runtime/scheduler.py:332-361 | without a fatal error the outcome records name exactly the firings that are no content operations, each once, in firing order |
| `Scheduler.EndlessLooksFinite` | src/runtime/scheduler.py:233-266 | a stopped run with endless repeats fires exactly what a large enough finite schedule fires |
| `HostApps.LifeLogDecodes` | src/runtime/host_apps.py:79-94 | suffixed log paths determine base path and life |
| `HostApps.StartAll` | src/runtime/host_apps.py:199-207 | stops at the first failing start; every earlier process stays tracked |
| `HostApps.StepKeeps` | src/runtime/host_apps.py:266-445 | every step of every thread keeps the lock, tracking and sweep invariants |
| `HostApps.NoOrphan` | src/runtime/host_apps.py:266-445 | whenever the lock is free, each process started and not confirmed stopped is tracked |
| `HostApps.ShutdownWins` | src/runtime/host_apps.py:266-277 | nothing starts after stop_all's snapshot; when it returns, what still runs is among its reported failures |
| `HostApps.OneStopAtATime` | src/runtime/host_apps.py:209-246 | no two threads are stopping processes at the same time |
| `HostApps.LogsNeverShared` | src/runtime/host_apps.py:422-444 | no two start calls of a run get the same log path, if the configured ones differ |
| `HostApps.RefusedRestart` | src/runtime/host_apps.py:355-386 | in every reachable state a restart is refused exactly when the next life of one of the host's processes would write a configured log; then nothing changes but its own return and every running process stays tracked |
| `HostApps.StepKeepsLogs` | src/runtime/host_apps.py:422-445 | every step keeps records separate and lives increasing, off the reserved paths |
| `HostRestarts.RestartWorks` | src/runtime/host_apps.py:355-445 | in every run, a restart that returned True made the start call of the next life of each record its host had on entry, in order; the new processes are tracked, and run unless shutdown began or another restart of the host entered |
| `HostRestarts.RunResult` | src/runtime/host_apps.py:355-445 | wherever a restart call stands in a run, it has made exactly the start calls up to there, and tracks exactly those that succeeded |
| `HostRestarts.HowItReturns` | src/runtime/host_apps.py:359-445 | a restart that returned raised exactly when it was refused or one of its stops or starts failed, and returned False only after shutdown began or for a host without records |
| `BridgeExternal.ExternalBridges.constructor` | src/runtime/bridge_external.py:22-23 | an empty registry accounts for the kernel as found |
| `BridgeExternal.ExternalBridges.Attach` | src/runtime/bridge_external.py:143-405 | refused exactly by the first pre-check that fails, without a command; otherwise the plan runs up to its first failing command and then every registered undo is issued once, in reverse; the reported failures are exactly the undo commands that failed, and stay recorded; if all undo commands succeed, kernel and records are those of before |
| `BridgeExternal.ExternalBridges.Rollback` | src/runtime/bridge_external.py:564-586 | issues every registered undo once, in reverse; the failures are exactly those whose command failed, and the flags they would clear are exactly the flags that remain |
| `BridgeExternal.ExternalBridges.Abort` | src/runtime/bridge_external.py:254-259 | the record stays exactly when some undo command failed, with the flags of those |
| `BridgeExternal.ExternalBridges.CleanupRecord` | src/runtime/bridge_external.py:421-477 | issues every due step once, in order; the failures are exactly the steps whose command failed; the record stays exactly when a step other than lowering the bridge is among them |
| `BridgeExternal.ExternalBridges.Cleanup` | src/runtime/bridge_external.py:408-483 | issues the due steps of every record; the failures are exactly the commands that failed; if all succeed, the registry is empty and the kernel is the initial one |
| `BridgeLedger.Determined` | src/runtime/bridge_external.py:525-542 | the records leave only one possible kernel |
| `BridgeLedger.LeftoverIsFlagged` | src/runtime/bridge_external.py:525-542 | every bridge, veth pair or NIC change beyond the initial kernel is flagged in a record |
| `BridgeLedger.UndoAccounts` | src/runtime/bridge_external.py:564-586 | a successful undo step and clearing its flags keep the records and the kernel in step |
| `BridgeLedger.ForwardAccounts` | src/runtime/bridge_external.py:264-398 | a successful forward command and its flag keep the records and the kernel in step |
| `BridgeRoot.BridgeManager.AddRoute` | src/runtime/bridge_root.py:109-163 | an existing route makes the add fail and registers nothing; a success registers its removal |
| `BridgeRoot.BridgeManager.WriteResolvConf` | src/runtime/bridge_root.py:316-388 | nothing is written uncaptured; the restore is registered before the first write, so any write may fail |
| `BridgeRoot.BridgeManager.EnableIpForwarding` | src/runtime/bridge_root.py:420-468 | enabled with its exact prior value registered, or unchanged |
| `BridgeRoot.BridgeManager.EnableNat` | src/runtime/bridge_root.py:470-577 | three rules with their removals registered; or, from the first command that fails, no rule but exactly those whose rollback delete failed |
| `BridgeRoot.BridgeManager.RollbackRules` | src/runtime/bridge_root.py:543-556 | issues one delete per installed rule, in reverse; exactly the rules whose delete failed remain |
| `BridgeRoot.BridgeManager.EnableProxyArp` | src/runtime/bridge_root.py:595-737 | done exactly when both writes succeed, with restores in order; when the second write fails the first is rolled back, and its restore stays registered exactly if that command fails too |
| `BridgeRoot.BridgeManager.Cleanup` | src/runtime/bridge_root.py:739-784 | runs the stack in reverse, keeps exactly the failed mandatory actions and raises exactly when it keeps any; without failures the target kernel is reached |
| `BridgeRoot.BridgeManager.SetupBridges` | src/runtime/bridge_root.py:828-920 | without a raise, every entry is in force at the end: its three NAT rules, forwarding and both proxy-ARP settings at 1, each route whose command succeeded, resolv.conf overwritten where captured and written; a raise comes exactly from an entry whose required command failed; a cleanup without failures would bring back the kernel of before, but for the NAT rules whose rollback delete failed |
| `BridgeRoot.StagesExact` | src/runtime/bridge_root.py:828-920 | nothing else is installed: the rules are exactly the entries' rules, and every sysctl no entry switches on is as before |
| `BridgeRoot.SetupThenCleanup` | src/runtime/bridge_root.py:739-920 | on a fresh manager, setup and one cleanup whose own commands all succeed leave the initial kernel plus the rules whose rollback delete failed: the initial kernel exactly when all those deletes succeeded |
| `BridgeRoot.BridgeManager.TearDown` | src/runtime/bridge_root.py:543-784 | when every command of the cleanup succeeds, the kernel before the setup is back exactly when every delete of the NAT rollback succeeded |
| `BridgeRoot.RetainedInOrder` | src/runtime/bridge_root.py:752-784 | an action is retained exactly when it is mandatory and failed, in its original place |
| `BridgeRoot.UndoAllCells` | src/runtime/bridge_root.py:739-784 | undoing everything leaves each setting at its earliest captured value |
| `BridgeRoot.RetryRestores` | src/runtime/bridge_root.py:739-784 | a retry after a partly failed cleanup reaches the target exactly when each setting's first failed restore holds its earliest capture and every owned route was removed |
| `BridgeRoot.RetryCanMiss` | src/runtime/bridge_root.py:420-784 | forwarding enabled twice and the cleanup of the second failing: a retry in which every command succeeds leaves the setting enabled |
| `BridgeRoot.NatCanLeak` | src/runtime/bridge_root.py:470-577 | a run of enable_nat from an empty kernel that leaves a rule behind |
| `FlapState.State.Update` | src/core/flap_state.py:18-23 | the view becomes an ascending list of exactly the given hosts; the last host changes only when one is given |
| `FlapState.ViewIsSorted` | src/core/flap_state.py:18-23 | the view is the only ascending list of the updated hosts |
| `FailureManager.ChosenAllowed` | src/runtime/failure_manager.py:215-268 | a chosen host is neither excluded nor down, and a publisher only where the cycle allows it |
| `FailureManager.StepKeeps` | src/runtime/failure_manager.py:192-351 | every step of the worker and the timers keeps the ownership, view and record invariants |
| `FailureManager.DownIsOwnedOnce` | src/runtime/failure_manager.py:270-347 | a host is down exactly when one cycle, and one only, owns it, through its timer or the worker; the shared view is the sorted down set |
| `FailureManager.RecordsAlternate` | src/runtime/failure_manager.py:270-347 | each host's records alternate, beginning with host_down; a host that is up has them paired |
| `FailureManager.OnlyAllowedDown` | src/runtime/failure_manager.py:215-268 | the cycle that owns a host neither excludes it nor, for a publisher, forbids publishers |
| `FailureManager.ClaimSucceeds` | src/runtime/failure_manager.py:298-306 | the timer's registration check never turns it away |
| `FailureManager.AllUpAtTheEnd` | src/runtime/failure_manager.py:295-351 | after undisturbed cycles nobody is down and all records are paired |
| `FailureManager.QuietMeansUp` | src/runtime/failure_manager.py:295-351 | without a stop, once the worker has returned and no timer has anything left to do, every host is up and all records are paired |
| `FailureManager.StopHoldsTimers` | src/runtime/failure_manager.py:298-301 | a timer that has not fired when stop is set brings nobody up |
| `FailureManager.ChosenFalls` | src/runtime/failure_manager.py:270-291 | a chosen host that is not down is taken down and recorded before the worker goes on |
| `ContentOps.ConservedKept` | src/runtime/content_ops.py:97-182 | every step keeps each spawned subscriber in exactly one place |
| `ContentOps.RecordedOnce` | src/runtime/content_ops.py:511-530 | no subscriber is recorded twice, and none that was not spawned |
| `ContentOps.AllRecorded` | src/runtime/content_ops.py:97-151 | after a stop that joined the worker, with no call under way, every spawned subscriber was recorded once or dropped by a raising handler or call |
| `ContentOps.QueueAccounted` | src/runtime/content_ops.py:97-182 | unfinished tasks are the queued and in-flight items; task_done always has one; an undisturbed wait_all leaves with none around |
| `ContentOps.NothingDropped` | src/runtime/content_ops.py:332-426 | without an exception while subscribers are held nothing is dropped |
| `ContentOps.TakesItsOwn` | src/runtime/content_ops.py:337-352 | a publisher takes every pending subscriber of its own URI and of no other |
| `ContentOps.NoneSkipped` | src/runtime/content_ops.py:153-182 | without a timeout or a stop every submitted operation is queued, in the worker's hands or was taken up by its handler |

## Left out

- Dijkstra.ShortestPath: when the nearest missing key and the target are equally far, the contract allows both a path and a KeyError; the code's choice depends on the heap's tie order.
- Yen.KShortestPaths: k paths, or all simple paths, are promised only for k up to 3, because the code spends a round on each repeated candidate; `YenLimits` shows that no larger k can be promised.
- KCenters.SelectKCenters: with zero-weight edges only an upper bound on the number of centers is stated, because the code stops once every eligible node is at distance 0.
- HostApps.OneStopAtATime: covers one stop_all call beside any number of restart_host calls, because two overlapping stop_all calls sweep outside the lock and would both stop the snapshot.
- HostApps.LogsNeverShared: treats log paths as canonical names, because realpath depends on the file system.
- BridgeExternal.ExternalBridges.Attach: names of bridges, veth pairs and NICs are distinct by construction, and the MTU, address and admin state of objects that vanish with the pair or the bridge are not kernel state of the model.
- BridgeRoot.BridgeManager.SetupBridges: leaves out the OVS flow and the `default` route, which by design do not restore what was there.
- FailureManager.StepKeeps: a negative `count` and exceptions other than AssertionError and OSError in the link commands are not modelled.
- ContentOps.AllRecorded: a subscriber list is kept in insertion order, so the order of records across different URIs is not modelled.
- Scheduler.EventScheduler.Run: wall-clock waiting is an arbitrary stop before each pop, and an outcome record is reduced to the firing and its success flag.
- Kernel and process commands: their outcomes are arbitrary, a failed command changes nothing, and nobody else changes the same state.
- Floating-point time and weights: rationals and non-negative integers instead.
- Exceptions thrown by the command layer itself during an attach.
- `periodic_host_flap`: shares its set between threads without a lock.
- The `.254` root gateway, which host index 253 shares: no disjointness is claimed.
- Concurrency inside a locked region: each is one step of the model, and the step systems are values, so aliasing of the Python objects is not captured.
- The binary heap of `heapq` is a multiset whose pop takes out a least element; the scheduler's heap, whose order is total, is a sorted sequence.
- Log parsing, CSV, plots, monitoring, CLI and configuration, argv builders, the ccninfo text parser, verdict tables and config-file editing: input and output, or single-branch judgments.
- `links_for_host`, `find_link`, `peer_of`, `subnet_of_switch`, `root_gateway`: simple queries.
