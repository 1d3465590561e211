/** One router's state and the meaning of its message handlers and cleanup, as functions on values. */
module Nodes {
  import opened Options
  import opened Ipv4
  import opened Ipv4Text
  import opened Routes
  import opened Pruning

  // Times are nanoseconds of a monotone clock.
  const NEIGHBOR_TIMEOUT: nat := 12_000_000_000
  const ROUTE_TIMEOUT: nat := 16_000_000_000

  /** The time from past to now; zero when past lies in the future. */
  function Since(now: nat, past: nat): nat {
    if now >= past then now - past else 0
  }

  datatype InterfaceInfo = InterfaceInfo(name: string, ip: Addr, network: Ipv4Network, metric: Metric)

  /** What does not change while a router runs. The interfaces are listed in the order in
      which their hash map happens to be iterated. Only the interface named in a learned entry can depend
      on that order, when several interfaces of one metric contain the sender. */
  datatype Config = Config(id: string, interfaces: seq<InterfaceInfo>, local: seq<Ipv4Network>)

  datatype IpAddr = V4(addr: Addr) | V6

  datatype RouteInfo = RouteInfo(destination: string, metric: Metric, nextHop: string)

  datatype RoutingUpdate = RoutingUpdate(routerId: string, sequence: nat, routes: seq<RouteInfo>)

  /** A hello as it arrives: interface names with their addresses as text. */
  datatype HelloMessage = HelloMessage(routerId: string, interfaces: map<string, string>)

  /** A hello once its addresses are parsed. */
  datatype Greeting = Greeting(id: string, interfaces: map<string, InterfaceInfo>)

  datatype NeighborInfo = NeighborInfo(interfaces: map<string, InterfaceInfo>, lastSeen: nat, ip: IpAddr, isAlive: bool)

  datatype RouteState = RouteState(route: RouteEntry, lastAdvertised: nat, advertisingNeighbor: string)

  type Neighbors = map<string, NeighborInfo>

  type RouteStates = map<string, RouteState>

  datatype Node = Node(table: Table, states: RouteStates, neighbors: Neighbors, sequence: nat)

  // ----- one advertised route

  /** Rust's u32 addition in a release build. */
  function Inc(m: Metric): Metric {
    if m == U32_MAX then 0 else m + 1
  }

  ghost predicate IsOurNetwork(interfaces: seq<InterfaceInfo>, d: Ipv4Network) {
    exists i :: 0 <= i < |interfaces| && interfaces[i].network == d
  }

  ghost predicate Reaches(interfaces: seq<InterfaceInfo>, a: Addr) {
    exists i :: 0 <= i < |interfaces| && interfaces[i].network.Contains(a)
  }

  /** Interface k is the first of those with the least metric among the ones that contain sender. */
  ghost predicate IsBestInterface(interfaces: seq<InterfaceInfo>, sender: Addr, k: nat) {
    && k < |interfaces|
    && interfaces[k].network.Contains(sender)
    && interfaces[k].metric < U32_MAX
    && (forall i :: 0 <= i < |interfaces| && interfaces[i].network.Contains(sender) ==>
          interfaces[k].metric <= interfaces[i].metric && (i < k ==> interfaces[k].metric < interfaces[i].metric))
  }

  ghost function BestInterface(interfaces: seq<InterfaceInfo>, sender: Addr): Option<InterfaceInfo> {
    if exists k: nat :: IsBestInterface(interfaces, sender, k) then
      var k: nat :| IsBestInterface(interfaces, sender, k);
      Some(interfaces[k])
    else None
  }

  ghost function NextHopFor(advertised: Addr, sender: Addr, interfaces: seq<InterfaceInfo>): Addr {
    if advertised != UNSPECIFIED && Reaches(interfaces, advertised) then advertised else sender
  }

  /** The route a receiver derives from one advertised route, if any. */
  ghost function Candidate(cfg: Config, info: RouteInfo, sender: Addr): Option<RouteEntry> {
    var d, hop, best := Canonical(info.destination), ParseAddr(info.nextHop), BestInterface(cfg.interfaces, sender);
    if d.None? || hop.None? || best.None? || IsOurNetwork(cfg.interfaces, d.value) then None
    else Some(RouteEntry(d.value, NextHopFor(hop.value, sender, cfg.interfaces), best.value.name,
                         Inc(info.metric), Protocol))
  }

  // ----- a whole update

  ghost function Candidates(cfg: Config, infos: seq<RouteInfo>, sender: Addr): seq<Option<RouteEntry>> {
    seq(|infos|, i requires 0 <= i < |infos| => Candidate(cfg, infos[i], sender))
  }

  /** The accepted candidates in order; all are judged against the same table. */
  ghost function AcceptedRoutes(rs: seq<RouteEntry>, cands: seq<Option<RouteEntry>>): seq<RouteEntry> {
    if cands == [] then []
    else
      var c := cands[|cands| - 1];
      AcceptedRoutes(rs, cands[..|cands| - 1]) + (if c.Some? && Accepts(rs, c.value) then [c.value] else [])
  }

  /** The route states recorded with them, each under the destination text as advertised. */
  ghost function AcceptedStates(rs: seq<RouteEntry>, texts: seq<string>, cands: seq<Option<RouteEntry>>,
                                from: string, now: nat): seq<(string, RouteState)>
    requires |texts| == |cands|
  {
    if cands == [] then []
    else
      var n := |cands| - 1;
      AcceptedStates(rs, texts[..n], cands[..n], from, now)
      + (if cands[n].Some? && Accepts(rs, cands[n].value) then [(texts[n], RouteState(cands[n].value, now, from))]
         else [])
  }

  function Texts(infos: seq<RouteInfo>): seq<string> {
    seq(|infos|, i requires 0 <= i < |infos| => infos[i].destination)
  }

  function Recorded(states: RouteStates, news: seq<(string, RouteState)>): RouteStates {
    if news == [] then states
    else Recorded(states, news[..|news| - 1])[news[|news| - 1].0 := news[|news| - 1].1]
  }

  ghost function Processed(cfg: Config, n: Node, update: RoutingUpdate, sender: Addr, now: nat): Node {
    var rs, cands := n.table.routes, Candidates(cfg, update.routes, sender);
    n.(states := Recorded(n.states, AcceptedStates(rs, Texts(update.routes), cands, update.routerId, now)),
       table := UpdatedAll(cfg.local, n.table, AcceptedRoutes(rs, cands)))
  }

  // ----- neighbours

  /** The program expects every advertised address to parse with "/32" appended, and panics otherwise. */
  predicate Parsable(hello: HelloMessage) {
    forall name :: name in hello.interfaces ==> ParseNetwork(hello.interfaces[name] + "/32").Some?
  }

  function HeardInterface(name: string, text: string): InterfaceInfo
    requires ParseNetwork(text + "/32").Some?
  {
    InterfaceInfo(name, match ParseAddr(text) case Some(a) => a case None => UNSPECIFIED,
                  ParseNetwork(text + "/32").value, 1)
  }

  function Parsed(hello: HelloMessage): Greeting
    requires Parsable(hello)
  {
    Greeting(hello.routerId,
             map name | name in hello.interfaces :: HeardInterface(name, hello.interfaces[name]))
  }

  function HelloHeard(neighbors: Neighbors, hello: Greeting, ip: IpAddr, now: nat): Neighbors {
    neighbors[hello.id := NeighborInfo(hello.interfaces, now, ip, true)]
  }

  function UpdateHeard(neighbors: Neighbors, id: string, now: nat): Neighbors {
    if id in neighbors then neighbors[id := neighbors[id].(lastSeen := now, isAlive := true)] else neighbors
  }

  predicate Silent(nb: NeighborInfo, now: nat) {
    Since(now, nb.lastSeen) > NEIGHBOR_TIMEOUT
  }

  /** The neighbours a cleanup at now declares dead. */
  function NewlyDead(neighbors: Neighbors, now: nat): set<string> {
    set id | id in neighbors && neighbors[id].isAlive && Silent(neighbors[id], now)
  }

  function Marked(neighbors: Neighbors, now: nat): Neighbors {
    map id | id in neighbors :: neighbors[id].(isAlive := !Silent(neighbors[id], now))
  }

  // ----- cleanup

  function Stale(states: RouteStates, now: nat): set<string> {
    set k | k in states && Since(now, states[k].lastAdvertised) > ROUTE_TIMEOUT
  }

  function AdvertisedBy(states: RouteStates, ids: set<string>): set<string> {
    set k | k in states && states[k].advertisingNeighbor in ids
  }

  function Destinations(states: RouteStates, keys: set<string>): set<Ipv4Network> {
    set k | k in keys && k in states :: states[k].route.destination
  }

  function AddressesOf(neighbors: Neighbors, ids: set<string>): set<Addr> {
    set id | id in ids && id in neighbors && neighbors[id].ip.V4? :: neighbors[id].ip.addr
  }

  function Doomed(n: Node, now: nat): set<string> {
    AdvertisedBy(n.states, NewlyDead(n.neighbors, now)) + Stale(n.states, now)
  }

  /** Cleanup: one filter of the table, one of the states, and a fresh verdict on each neighbour. */
  function Cleaned(n: Node, now: nat): Node {
    Node(Pruned(n.table, Destinations(n.states, Doomed(n, now)), AddressesOf(n.neighbors, NewlyDead(n.neighbors, now))),
         n.states - Doomed(n, now),
         Marked(n.neighbors, now),
         n.sequence)
  }

  // ----- receiving

  predicate OwnAddress(cfg: Config, ip: IpAddr) {
    exists i :: 0 <= i < |cfg.interfaces| && ip == V4(cfg.interfaces[i].ip)
  }

  function HelloReceived(cfg: Config, n: Node, hello: Greeting, ip: IpAddr, now: nat): Node {
    if OwnAddress(cfg, ip) || hello.id == cfg.id then n
    else n.(neighbors := HelloHeard(n.neighbors, hello, ip, now))
  }

  /** Processing needs an IPv4 sender; otherwise only the neighbour's silence ends. */
  ghost function UpdateReceived(cfg: Config, n: Node, update: RoutingUpdate, ip: IpAddr, now: nat): Node {
    if OwnAddress(cfg, ip) || update.routerId == cfg.id then n
    else
      var heard := n.(neighbors := UpdateHeard(n.neighbors, update.routerId, now));
      match ip
      case V4(sender) => Processed(cfg, heard, update, sender, now)
      case V6 => heard
  }

  // ----- sending

  function InfoOf(e: RouteEntry): RouteInfo {
    RouteInfo(PrintNetwork(e.destination), e.metric, PrintAddr(e.nextHop))
  }

  function InfosOf(rs: seq<RouteEntry>): seq<RouteInfo> {
    seq(|rs|, i requires 0 <= i < |rs| => InfoOf(rs[i]))
  }

  const U64_SPACE: nat := 0x1_0000_0000_0000_0000

  function UpdateSent(cfg: Config, n: Node): RoutingUpdate {
    RoutingUpdate(cfg.id, (n.sequence + 1) % U64_SPACE, InfosOf(n.table.routes))
  }
}
