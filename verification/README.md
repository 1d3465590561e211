# Custom OSPF, verified

A Dafny model of the route computation of Custom OSPF, and proofs about it.

Despite its name the program computes routes by distance vector: every router broadcasts its table,
a receiver adds one to each metric and keeps the smaller (the Bellman-Ford exchange of section 3.4 of
RFC 2453). The model has two layers.

**One router.** `RoutingTable`, `Router` and `SimpleRoutingProtocol` are classes whose methods update
their fields as the program does: the ordered list of routes, the kernel's table, the route states keyed
by the destination text as advertised, and the neighbours. Each method is proved against a function on
values (`Routes`, `Pruning`, `Nodes`), and the properties are proved about those functions: per
destination (`Batches`), under every interleaving of what is done while a lock is held (`Interleaving`,
`Shutdown`, `Orphans`), and over time (`Timeouts`).

**A network.** `Network` is a transition system over a fixed topology. Its steps are broadcast, delivery,
greeting and cleanup of one router, and they use the very functions the classes are proved against.
Anything ever sent may be delivered at any later time, repeatedly, out of order, or never; sequence
numbers are not consulted, as in the program.

| file | content |
|---|---|
| `Ipv4.dfy`, `Ipv4Text.dfy` | addresses, networks, masking; printing and parsing |
| `Routes.dfy`, `KernelMirror.dfy`, `Pruning.dfy` | table operations as functions, the kernel, removal |
| `RoutingTable.dfy`, `Router.dfy`, `RouteManager.dfy`, `Protocol.dfy` | the imperative program |
| `Nodes.dfy` | one router's state, its handlers and cleanup as functions |
| `Invariants.dfy`, `Interleaving.dfy` | well-formed tables; all interleavings of locked steps |
| `Shutdown.dfy`, `Orphans.dfy` | over those interleavings: the kernel after shutdown; routes without a state |
| `Batches.dfy` | what a whole update does to each destination, and what repeating it does |
| `Timeouts.dfy`, `Hearing.dfy` | coverage and freshness of routes, expiry; what is remembered of neighbours |
| `Network.dfy`, `Sequences.dfy`, `Interfaces.dfy` | the network as a transition system; sequence numbers; recorded interfaces |
| `UpdateRuns.dfy` | loop freedom and the metric bound without cleanup |
| `CleanupRuns.dfy` | with cleanup: no metric below the true distance |
| `Convergence.dfy` | exact distances after k rounds, from any past |
| `Settling.dfy`, `Oscillation.dfy` | metrics change boundedly often; exactly when next hops change for ever |
| `Teaching.dfy` | how a route is passed on and forgotten, for the runs constructed below |
| `CleanupLoops.dfy`, `Growth.dfy` | with cleanup: exactly which topologies can loop, and can count up |
| `Lans.dfy`, `Examples.dfy`, `RouterExamples.dfy` | concrete networks and updates for every failing case |

## Assumptions

- Interface networks are local networks and contain no loopback address (`SaneConfig`); a sender's address
  is not 0.0.0.0. In a network (`GoodNetwork`) the local networks are the interface networks, interface
  addresses and router names are unique, every router has an interface, and interface metrics are below
  the largest 32-bit number (the program sets them all to 1).
- The topology does not change, and sharing a subnet means hearing each other. The clock is monotone.
- The kernel refuses to add a prefix it already has, and deletes a route only with a matching gateway.
- A hash map that is not modified keeps its iteration order; the interfaces are listed in that order.
- Metrics are 32-bit and wrap around, as in a release build. Where that matters a precondition says so.

## Where the code and its documentation differ

- The documentation calls the protocol link-state; the code is distance vector, and that is modelled.
- The report lists sequence numbers among the means against loops and duplicates. The code only logs them.
- The report claims loop avoidance. Without cleanup steps loops are impossible (`ForwardingNeverLoops`).
  With them they are possible on a fixed topology, exactly when three routers stand in a row
  (`LoopsIffChain`, `RowLoops`).
- The report claims that no route is lost in a failover. `RouteLostIff` gives the exact condition under
  which one is, and `FailoverKeepsRoutes` shows that it never arises under the address assumptions above.
- An advertisement refreshes its route only if it is accepted (`StampedIff`). A steady route is advertised
  again and again, not accepted, and expires all the same (`SteadyRoutesExpire`, `RepeatedRoutesExpire`).
- The report calls the oscillation between equal routes a failover pattern. Without cleanup all metrics
  settle (`MetricChangesAreBounded`), but it goes on for ever exactly where two next hops arise along
  shortest paths (`OscillatesIff`, `DiamondOscillates`).
- The report names no bound for metrics, and there is none below the largest 32-bit number, from which they
  wrap to 0, exactly where two routers off the destination hear each other (`GrowsIff`, `UndercutIff`).
- "Neighbor is now ALIVE again" in cleanup cannot happen (`CleanupVerdict`).

## Model

| member | source | states |
|---|---|---|
| Ipv4.MaskingIsCanonical | src/protocol/route_manager.rs:120-126 | Masking a network is idempotent and keeps exactly its member addresses. |
| Ipv4.MaskedAgreeIff | src/routing_table.rs:236-238 | Two networks compare equal by network address and prefix exactly when prefix length and prefix bits agree. |
| Ipv4.ContainsIsBlock | src/routing_table.rs:247-248 | A network contains exactly the aligned block of addresses that starts at its network address. |
| Ipv4Text.AddrRoundTrip | src/protocol/task_manager.rs:283 | A printed next hop parses back to the same address. |
| Ipv4Text.NetworkRoundTrip | src/protocol/task_manager.rs:281 | A printed destination, host bits included, parses back to the same network. |
| Ipv4Text.AddrTextIsExact | src/protocol/route_manager.rs:84-87 | A text is read as an address exactly if it is that address as printed; nothing else parses. |
| Ipv4Text.NetworkTextIsExact | src/protocol/route_manager.rs:120-126 | A text is read as a network exactly if it is an address alone, or an address, a slash and a netmask or decimal prefix length. |
| Ipv4Text.LoopbackText | src/routing_table.rs:224 | An address is a loopback address exactly if its text begins with "127.". |
| Ipv4Text.CanonicalIsMasked | src/protocol/route_manager.rs:71-82 | Parsing, masking, printing and re-parsing yields the masked network, and fails exactly on unparsable text. |
| Ipv4Text.CanonicalAgreeIff | src/protocol/route_manager.rs:71-82 | Two advertised networks become one destination exactly when prefix length and prefix bits agree. |
| Routes.Index | src/routing_table.rs:213-215 | The position found holds the destination and no earlier one does; otherwise none does. |
| Routes.LookupAdded | src/routing_table.rs:62-112 | Adding a route changes only its own destination, and only if it is valid and the place is free or superseded; destinations stay distinct. |
| Routes.LookupUpdated | src/router.rs:61-83 | Skip, force-replace or add, seen from any destination: the relaxation of that one entry, including the loss of an entry replaced by an invalid route. |
| Routes.AcceptanceIsChange | src/protocol/route_manager.rs:179-191 | A valid route is accepted exactly when processing it changes the table, and then it becomes the entry; a rejected one would change neither list nor kernel. |
| KernelMirror.UpdatedMirrorsAt | src/router.rs:61-83 | A prefix on which kernel and table agree is still one after any new route is processed. |
| KernelMirror.UpdatedKernelFrame | src/routing_table.rs:264-324 | Processing a route touches no other prefix of the kernel. |
| KernelMirror.MirrorIsExact | src/routing_table.rs:264-324 | Mirroring means: outside foreign prefixes the kernel's routes are exactly the (network, prefix, next hop) of the non-direct entries. |
| Pruning.RemovedAtIsPruned | src/routing_table.rs:115-136 | Removing the first route for a destination is filtering the table, and the kernel, by that destination. |
| Pruning.PrunedTwice | src/protocol/task_manager.rs:698-729 | Removals compose into one filter, so their order and grouping do not matter. |
| Pruning.NothingLostByPruning | src/routing_table.rs:139-166 | The surviving routes and the routes handed back are together the original routes. |
| Pruning.RemovedAreDropped | src/routing_table.rs:139-166 | Those handed back are exactly the protocol routes via the hop, the last one in the table first. |
| Pruning.PrunedMirrorsAt | src/routing_table.rs:115-166 | A prefix on which kernel and table agree is still one after removals. |
| Pruning.ShutdownClearsKernel | src/routing_table.rs:328-344 | After shutdown no mirrored prefix is left in the kernel. |
| RoutingTables.RoutingTable.constructor | src/routing_table.rs:30-42 | A new table is empty and leaves the kernel as it is. |
| RoutingTables.RoutingTable.AddSystemRoute | src/routing_table.rs:264-304 | Add, and on failure delete and retry: the kernel gets the route unless another gateway holds the prefix. |
| RoutingTables.RoutingTable.DeleteSystemRoute | src/routing_table.rs:306-324 | The prefix leaves the kernel exactly when the gateway matches. |
| RoutingTables.RoutingTable.IsValidRoute | src/routing_table.rs:217-262 | The two scans decide: direct, or not to a local network and via a usable next hop inside one. |
| Invariants.ValidInText | src/routing_table.rs:217-262 | Read off the texts: a route that is not direct is valid exactly if it leads to no local network and via a hop inside one that is not "0.0.0.0" and does not begin with "127.". |
| RoutingTables.RoutingTable.AddRoute | src/routing_table.rs:62-112 | The new list and kernel, in place. |
| RoutingTables.RoutingTable.RemoveRoute | src/routing_table.rs:115-136 | The list and kernel filtered by the destination. |
| RoutingTables.RoutingTable.RemoveRoutesViaNexthop | src/routing_table.rs:139-166 | The list filtered by "protocol route via this hop", order kept, their kernel routes deleted; returns exactly the removed routes, last one first. |
| RoutingTables.RoutingTable.RemoveIndices | src/routing_table.rs:150-159 | Removing collected indices from the back removes the intended routes. |
| RoutingTables.RoutingTable.ReplaceRoute | src/routing_table.rs:180-198 | Removes whatever is there, then adds if valid. |
| RoutingTables.RoutingTable.Drop | src/routing_table.rs:328-344 | The kernel loses exactly the routes of protocol entries. |
| Routers.Router.constructor | src/router.rs:21-52 | The table starts well-formed, holds one direct route per interface network and nothing else, and the kernel is untouched. |
| Routers.FirstInterfaceWins | src/router.rs:33-43 | For every interface network that is a direct route of metric 0 without next hop over the first of its interfaces; no other destination has a route. |
| Routers.Router.UpdateRoutingTable | src/router.rs:61-83 | The loop is the fold of the one-route update. |
| RouteManager.ScanForNetwork | src/protocol/route_manager.rs:128-138 | True exactly when some interface has that very network. |
| RouteManager.FindBestInterfaceForSender | src/protocol/route_manager.rs:140-157 | The first interface of least metric among those containing the sender, none if there is none below the maximum. |
| RouteManager.DetermineNextHop | src/protocol/route_manager.rs:159-177 | The advertised next hop if it is set and inside an interface network, else the sender. |
| RouteManager.ProcessSingleRoute | src/protocol/route_manager.rs:64-118 | The candidate and its state, or nothing in each of the five failing cases. |
| Invariants.CandidateExistsIff | src/protocol/route_manager.rs:71-98 | There is a candidate exactly if both texts parse, the masked destination is no interface network, and some interface of a metric below the maximum contains the sender. |
| Invariants.CandidateInText | src/protocol/route_manager.rs:71-109 | It leads to the masked destination, at the advertised metric plus one modulo 2^32, via the advertised text's address unless that text is "0.0.0.0" or names none of our interface networks, and else via the sender. |
| Invariants.CandidateNamesInterface | src/protocol/route_manager.rs:94-109 | It names an interface that contains the sender, of least metric among those that do, the first of them on ties. |
| RoutingProtocol.SimpleRoutingProtocol.UpdateRouteStates | src/protocol/route_manager.rs:193-201 | Later states overwrite earlier ones with the same text. |
| RoutingProtocol.SimpleRoutingProtocol.SelectRoutes | src/protocol/route_manager.rs:23-51 | All advertised routes are judged against the table before the update. |
| RoutingProtocol.SimpleRoutingProtocol.ProcessRoutingUpdate | src/protocol/route_manager.rs:11-62 | The new table, kernel and states; an error and no change for a sender that is not IPv4. |
| RoutingProtocol.SimpleRoutingProtocol.IsFromOurselves | src/protocol/task_manager.rs:403-408 | True exactly for an address of one of the router's interfaces. |
| RoutingProtocol.SimpleRoutingProtocol.HandleHello | src/protocol/task_manager.rs:456-507 | Records the sender as alive, with its parsed interfaces, unless the message is our own; the result is false, and nothing changes, exactly where the program panics on an interface address it cannot parse. |
| Hearing.GreetingAsSent | src/protocol/task_manager.rs:474-486 | A hello is accepted exactly if all its interface addresses parse; it is recorded under its name, each interface under its own name and at its address. |
| Hearing.LastSeenIsLastHeard | src/protocol/task_manager.rs:488-537 | In every run the sender of the latest message that counts (a hello, or an update from a known router) is known with that message's time. |
| Hearing.AliveWhileHeard | src/protocol/task_manager.rs:671-687 | It is alive exactly if no cleanup since came more than twelve seconds after it. |
| Hearing.ReportedIff | src/protocol/task_manager.rs:674-682 | A cleanup reports it dead exactly if it comes more than twelve seconds after that message and none before did. |
| Hearing.LatestHelloIsKept | src/protocol/task_manager.rs:488-500 | Its address and interfaces are those of its latest hello. |
| Hearing.RoutesViaSenderGo | src/protocol/task_manager.rs:717-729 | A cleanup that reports it removes the protocol routes via that address. |
| Hearing.OwnIsIgnored | src/protocol/task_manager.rs:403-408 | A message under our own name or from an address of our interfaces changes nothing. |
| RoutingProtocol.SimpleRoutingProtocol.HandleUpdate | src/protocol/task_manager.rs:509-547 | Ends a known neighbour's silence and processes the update, unless it is our own; the result is false exactly where the program panics, for a sender that is not IPv4. |
| RoutingProtocol.SimpleRoutingProtocol.MarkNeighbors | src/protocol/task_manager.rs:671-687 | In any visiting order: who is alive afterwards, and exactly who is newly dead. |
| RoutingProtocol.SimpleRoutingProtocol.StaleRoutes | src/protocol/task_manager.rs:689-696 | Exactly the states older than the route timeout. |
| RoutingProtocol.SimpleRoutingProtocol.RemoveCovered | src/protocol/route_manager.rs:214-234 | In any visiting order: the states removed and the table filtered by their destinations. |
| RoutingProtocol.SimpleRoutingProtocol.RemoveViaNeighbors | src/protocol/task_manager.rs:717-729 | The table filtered by the addresses of the dead neighbours. |
| RoutingProtocol.SimpleRoutingProtocol.PerformCleanup | src/protocol/task_manager.rs:662-730 | The whole cleanup is one order-preserving filter of the table, one of the states and a verdict per neighbour, whatever order maps and sets are visited in. |
| Timeouts.KeptInSeconds | src/protocol/mod.rs:36-37 | It keeps a protocol route exactly as long as no state for it is more than sixteen seconds old and neither an advertiser nor the neighbour at its next hop is now found silent for more than twelve. |
| RoutingProtocol.SimpleRoutingProtocol.SendRoutingUpdates | src/protocol/task_manager.rs:263-294 | The update sent is the table, in order, under the next sequence number; nothing else changes. |
| Sequences.UpdateCarriesTable | src/protocol/task_manager.rs:274-294 | It names its router and carries, in order, texts that read back as exactly the entries of the table. |
| Network.WireIsUpdateSent | src/protocol/task_manager.rs:263-316 | What a receiver gets is that update. |
| Sequences.SequenceCounts | src/protocol/task_manager.rs:269-271 | After any run from the start a router's sequence number is the number of its broadcasts modulo 2^64. |
| Sequences.MessagesAreNumbered | src/protocol/task_manager.rs:269-294 | Every message sent carries the number of the broadcast it comes from and the table at that time. |
| Sequences.NumberIdentifiesUpdate | src/protocol/task_manager.rs:269-294 | So within 2^64 broadcasts equal numbers of one sender mean one and the same update. |
| Invariants.CandidateHasShape | src/protocol/route_manager.rs:64-118 | Whatever is advertised by whomever, a candidate is a protocol route to a masked destination that no interface has; its metric is 0 exactly when the largest 32-bit metric was advertised. |
| Invariants.CandidateValidIff | src/routing_table.rs:217-262 | A candidate fails validation only for leading to a local network. |
| Invariants.UpdatedWellFormed | src/router.rs:61-83 | Processing a candidate keeps the table well-formed, every direct route, and every mirrored prefix. |
| Invariants.PrunedWellFormed | src/routing_table.rs:115-166 | Removals naming no interface network keep the same. |
| Interleaving.AlwaysSafe | src/protocol/route_manager.rs:11-62 | In every state reachable by any interleaving of locked operations: distinct destinations, well-formed entries, the direct routes of construction unchanged, and the kernel mirroring the table off its initial prefixes. |
| Interleaving.AlwaysPositive | src/protocol/route_manager.rs:103-109 | There, protocol metrics are at least 1 unless the largest 32-bit metric is advertised. |
| Interleaving.AlwaysLearnedOver | src/protocol/route_manager.rs:94-109 | In every reachable state a protocol entry names such an interface for some sender, and leads via that sender or an address inside an interface network. |
| Shutdown.PrefixAfterShutdown | src/routing_table.rs:328-344 | After any run of locked operations and shutdown a prefix of the initial kernel has its gateway again unless the table ever held the very same route, in which case it is gone; every other prefix is gone. |
| Shutdown.ShutdownRestoresKernelIff | src/routing_table.rs:264-344 | Shutting down leaves the kernel exactly as before the start if and only if the table never held a route (prefix and gateway) that the kernel had from the start. |
| Shutdown.ShutdownRestoresKernel | src/routing_table.rs:328-344 | So it does after every run that applies no valid route the kernel had from the start; invalid ones, such as a neighbour's route to our own subnet, do not matter. |
| RouterExamples.KernelIsNotRestored | src/routing_table.rs:264-344 | A concrete kernel that already has the route a neighbour offers loses it at shutdown. |
| Orphans.InterruptedUpdateOrphans | src/protocol/route_manager.rs:53-59 | A cleanup that removes the sender's states between recording and applying leaves an accepted route in the table without a state exactly when no other neighbour's state is for its destination. |
| Orphans.OrphansStay | src/protocol/task_manager.rs:689-729 | Such a route stays, whatever the clock says, until a route for its destination is accepted or the neighbour at its next hop is declared dead. |
| RouterExamples.OfferIsOrphaned | src/protocol/route_manager.rs:53-59 | A concrete update that is interrupted so leaves its route without a state. |
| Interleaving.UpdateIsLockedSteps | src/protocol/task_manager.rs:509-547 | The update handler is three of these locked operations. |
| Interleaving.CleanupInAnyOrder | src/protocol/task_manager.rs:662-730 | Removing covered routes and dead hops one at a time, in any order, gives the result of cleanup. |
| Batches.LookupUpdatedAll | src/router.rs:61-83 | A list of new routes acts on each destination independently, as that destination's own relaxations. |
| Batches.RouteLostIff | src/routing_table.rs:180-198 | A present route is lost to a new one exactly when that is invalid, ties the metric and has another next hop. |
| Batches.BatchTakesLeast | src/protocol/route_manager.rs:31-59 | After any update each destination holds the least of its old metric and all usable advertised metrics plus one, and holds its old route or an offered one. |
| Batches.FailoverKeepsRoutes | src/routing_table.rs:180-198 | Although replacing removes before it validates, every destination present before an update is present after it with a metric no larger. |
| Batches.BatchIsExact | src/protocol/route_manager.rs:31-59 | Without repeated destinations the entry becomes the candidate exactly when accepted; the candidate's next hop wins exactly when its metric is at most the old one. |
| Batches.RepeatUnchangedIff | src/protocol/route_manager.rs:31-59 | Processing the same update again leaves table and kernel unchanged if and only if, for every destination, the offers of least metric that are no worse than the entry before the update all name one next hop. |
| Batches.RepeatChangesNothing | src/protocol/route_manager.rs:31-59 | So updates that repeat no destination may be repeated. |
| Batches.RepeatedDestinationsFlip | src/protocol/route_manager.rs:31-59 | Two equal offers for a new destination via different next hops take turns: the second is installed first, and the repetition installs the first. |
| RouterExamples.UpdateFlips | src/protocol/route_manager.rs:31-59 | A concrete update does that: 10.9.0.0/24 and 10.9.0.1/24 with two next hops on the receiver's subnet. |
| Timeouts.RoutesStayCovered | src/protocol/task_manager.rs:689-715 | With updates and cleanups atomic, every protocol route always has a route state for its destination, and no state is older than the route timeout at the latest cleanup. |
| Timeouts.RoutesAreFresh | src/protocol/task_manager.rs:689-715 | With cleanups at most a period apart, a route always has a covering advertisement no older than the timeout plus the period. |
| Timeouts.CleanupRemovesExactly | src/protocol/task_manager.rs:689-729 | Cleanup removes exactly the protocol routes covered by a stale or newly-dead-advertised state or led via a newly dead neighbour's last address, and changes no other entry. |
| Timeouts.StampedIff | src/protocol/route_manager.rs:31-56 | Outside cleanup a route state changes exactly when an update that is not our own brings an accepted route under its text; then it carries that time and that sender. |
| Timeouts.CleanupTakesBoth | src/protocol/task_manager.rs:689-715 | A cleanup keeps a route state as it is, or, exactly when it is stale or its advertiser newly dead, removes it together with the route. |
| Timeouts.DeadNeighborsRoutesGo | src/protocol/task_manager.rs:698-715 | In any run of hellos, updates and cleanups: the route of an accepted advertisement has been removed by the time a cleanup declares its advertiser dead, provided no other router's advertisement under the same text was accepted meanwhile. |
| Timeouts.SteadyRoutesExpire | src/protocol/route_manager.rs:179-191 | In any such run in which nothing is accepted under a state's text, however often it is advertised, a cleanup has removed its route by the first one later than the timeout; that one removes it if no earlier one gave the state up. |
| Timeouts.RepeatedRoutesExpire | src/protocol/route_manager.rs:179-191 | In particular a route is lost by the first cleanup later than the timeout after its acceptance as long as no neighbour offers anything better, in any mix with hellos and cleanups, however often it is offered again. |
| RouterExamples.SteadyRouteIsLost | src/protocol/route_manager.rs:179-191 | A concrete router loses a route heard at 0 s and again at 8 s, from a neighbour that is alive, in the cleanup at 17 s. |
| RouterExamples.SilentRouteIsLost | src/protocol/task_manager.rs:698-715 | And one whose neighbour has been silent for 13 s. |
| RouterExamples.SteadyRouteIsKept | src/protocol/mod.rs:37 | But not the route heard at 0 s in a cleanup at 16 s. |
| RouterExamples.SilentNeighborIsKept | src/protocol/mod.rs:36 | Nor is a neighbour reported that has been silent for 12 s. |
| Timeouts.CleanupVerdict | src/protocol/task_manager.rs:671-687 | The revival branch is never taken, and after a cleanup a neighbour is alive exactly when heard within the timeout. |
| Timeouts.OneReportPerSilence | src/protocol/task_manager.rs:671-687 | In a silence an alive neighbour is reported dead once if a cleanup comes later than the timeout, and never otherwise. |
| Network.EntryIsOffered | src/protocol/route_manager.rs:64-118 | Every entry sent over a shared subnet, for a network the receiver is not on, becomes a valid candidate. |
| Network.DeliveryOutcome | src/protocol/route_manager.rs:11-62 | A delivery changes an entry only to one made from the message, and never to a worse one. |
| Network.DeliveryTakesOffer | src/protocol/route_manager.rs:11-62 | After a delivery the receiver's metric is at most the sent one plus one. |
| Interfaces.DeliveryNamesSubnet | src/protocol/route_manager.rs:94-109 | With disjoint subnets a changed entry names an interface on the subnet the message was sent on. |
| Interfaces.EntriesNameNeighbors | src/protocol/route_manager.rs:94-109 | In every run, cleanups included, a protocol entry then names an interface on a subnet shared with another router. |
| UpdateRuns.NextHopsDescend | src/protocol/route_manager.rs:159-177 | In every update-only run the owner of a next hop, third-party ones included, is at the destination or has a strictly smaller metric for it. |
| UpdateRuns.ForwardingNeverLoops | src/router.rs:61-83 | So following next hops visits no router twice. |
| UpdateRuns.ForwardingIsShort | src/router.rs:61-83 | It takes at most as many hops as the metric says. |
| UpdateRuns.ForwardingArrives | src/router.rs:61-83 | And it never stops at a router without a route. |
| UpdateRuns.MetricsAreWitnessed | src/protocol/route_manager.rs:179-191 | In every update-only run a metric m is witnessed by a simple path of m hops whose i-th router currently has metric at most m - i. |
| UpdateRuns.MetricsStayBelowRouters | src/protocol/route_manager.rs:103-109 | So every metric is below the number of routers and adding one cannot overflow. |
| Convergence.RoundsReconverge | src/protocol/task_manager.rs:274-294 | Whatever happened before, cleanups included: after k further rounds in which every router hears every neighbour, each router at hop distance j, 1 <= j <= k, has a protocol entry of metric exactly j, if no metric overflows. |
| Convergence.RoundsConverge | src/protocol/task_manager.rs:274-294 | From the start k rounds always suffice, as no metric can overflow there. |
| Convergence.RoundsHappen | src/protocol/task_manager.rs:296-316 | From every state and at every time some run is such a round. |
| Settling.MetricChangesAreBounded | src/router.rs:61-83 | In update-only runs of any length the metric changes, summed over all routers and any list of destinations, are at most routers x destinations x routers. |
| Oscillation.ShortestRoutesLead | src/protocol/route_manager.rs:159-177 | In every run without overflow, cleanups included, an entry whose metric is the distance has a next hop that arises along a shortest path: what the neighbour's own next hop becomes on the way. |
| Oscillation.OscillatesIff | src/router.rs:61-83 | After any past without cleanup, a router at distance j changes its next hop at metric j in some continuation, and n times at any one time for every n, if and only if two different hops arise that way. |
| Oscillation.SingleHopStays | src/protocol/route_manager.rs:179-191 | Where only one arises, the next hop never changes again once the metric is the distance. |
| Oscillation.NeighborsOscillate | src/router.rs:61-83 | At distance 1: a router on the subnets of two interfaces of routers at the destination exchanges them for ever. |
| Examples.DiamondOscillates | src/router.rs:61-83 | At distance 2: in a diamond of four concrete routers the last one exchanges the two middle ones for ever. |
| CleanupRuns.MetricsNeverUndercut | src/protocol/task_manager.rs:662-730 | In every run, cleanups included, without overflow, an entry's destination is reachable and its metric is at least the true hop distance. |
| CleanupRuns.MessagesNeverUndercut | src/protocol/task_manager.rs:274-294 | The same for every message in flight. |
| CleanupRuns.ShortRunsAreCalm | src/protocol/route_manager.rs:107 | No run of fewer than 2^32 steps overflows a metric. |
| CleanupRuns.UpdateRunsAreCalm | src/protocol/route_manager.rs:107 | Neither does any run without cleanup, however long. |
| CleanupLoops.ForwardingIsStraight | src/protocol/route_manager.rs:159-177 | Where the topology cannot mislead, in every run, cleanups included, a next hop belongs to a router at the destination. |
| CleanupLoops.CleanupBreaksLoopFreedom | src/protocol/route_manager.rs:159-177 | Where it can, a run with a monotone clock, exactly one cleanup and no overflow makes a router forward to itself. |
| CleanupLoops.LoopsIff | src/protocol/route_manager.rs:159-177 | So some run with a monotone clock has a forwarding cycle for a destination if and only if an address of a router there can spread along routers that contain it to one whose neighbour does not. |
| CleanupLoops.LoopsIffChain | src/protocol/route_manager.rs:159-177 | Where distinct subnets share no address: if and only if three routers stand in a row, the first at the destination, the third not on the subnet of the first two. |
| Examples.RowLoops | src/protocol/task_manager.rs:662-730 | Three routers on 10.0.0.0/24, 10.0.1.0/24 and 10.0.2.0/24, just constructed, are such a row. |
| Growth.MetricsStayOne | src/protocol/route_manager.rs:103-109 | Where no two routers off a destination hear each other with one of them in reach of it, every protocol metric for it is 1 in every run. |
| Growth.GrowsIff | src/protocol/task_manager.rs:662-730 | Every metric from 2 to the largest 32-bit number is reached by some run with a monotone clock if and only if there are two such routers. |
| Growth.UndercutIff | src/protocol/route_manager.rs:107 | As the increment wraps to 0 there, that is also exactly when some run leads to a metric below the true distance. |
| Examples.RowCountsUp | src/protocol/task_manager.rs:662-730 | Three concrete routers in a row are such a network. |

## Left out

- Sockets, JSON, the receive buffer, task scheduling and shutdown channels: messages are values and time is a parameter.
- Interface discovery and the kernel library: interfaces and local networks are given, the kernel is a map.
- The control server, the neighbour request and response exchange, logging and status output.
- Events that panic: the classes report them by a false result, and the runs contain only events that do not.
- Static routes: no code path creates one; the table operations are stated for them all the same.
- Oscillation.OscillatesIff: for runs without cleanup, because a cleanup can take any route at any time.
- Topology changes during a run: without split horizon and an infinite metric the distance results do not survive losing a link.
- UpdateRuns.NextHopsDescend: for runs without cleanup, because with cleanup it is false; CleanupLoops.LoopsIff says exactly when loops can arise.
- CleanupRuns.MetricsNeverUndercut: requires that no advertised metric is the largest 32-bit number, because its increment wraps to 0; Growth.UndercutIff says exactly where that can happen.
- Timeouts.RoutesStayCovered: for atomic updates and cleanups; the program releases its locks inside both, and Orphans.InterruptedUpdateOrphans says when that leaves a route uncovered.
- Timeouts.DeadNeighborsRoutesGo: says nothing of a route that another router advertised meanwhile under the same text, because that router's state then stands for it.
