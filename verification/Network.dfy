/** A network of routers on a fixed topology, as a transition system. Whatever was ever sent may
    be received at any later time, any number of times and in any order, or never. */
module Network {
  import opened Options
  import opened Ipv4
  import opened Ipv4Text
  import opened Routes
  import opened Nodes
  import opened Invariants
  import opened Batches
  import opened Interleaving

  /** One datagram: a router's table as it was, sent on one of its interfaces. */
  datatype Message = Message(sender: nat, iface: InterfaceInfo, sequence: nat, entries: seq<RouteEntry>)

  datatype NetState = NetState(nodes: seq<Node>, sent: set<Message>)

  datatype NetStep =
    | Broadcast(router: nat)
    | Deliver(router: nat, m: Message, now: nat)
    | Greet(router: nat, hello: Greeting, ip: IpAddr, now: nat)
    | Sweep(router: nat, now: nat)

  // ----- topology

  ghost predicate GoodRouter(cfg: Config) {
    && cfg.interfaces != []
    && SaneConfig(cfg)
    && (forall n :: n in cfg.local ==> IsOurNetwork(cfg.interfaces, n))
    && (forall i :: 0 <= i < |cfg.interfaces| ==> GoodInterface(cfg.interfaces[i]))
  }

  predicate GoodInterface(i: InterfaceInfo) {
    i.ip == i.network.ip && i.ip != UNSPECIFIED && i.metric < U32_MAX
  }

  ghost predicate Owns(net: seq<Config>, r: nat, a: Addr) {
    r < |net| && exists i :: 0 <= i < |net[r].interfaces| && net[r].interfaces[i].ip == a
  }

  /** Interface addresses and router names are unique in the network. */
  ghost predicate GoodNetwork(net: seq<Config>) {
    && (forall r :: 0 <= r < |net| ==> GoodRouter(net[r]))
    && (forall r, s, a :: Owns(net, r, a) && Owns(net, s, a) ==> r == s)
    && (forall r, s :: 0 <= r < |net| && 0 <= s < |net| && net[r].id == net[s].id ==> r == s)
  }

  ghost predicate Attached(cfg: Config, d: Ipv4Network) {
    exists i :: 0 <= i < |cfg.interfaces| && cfg.interfaces[i].network.Masked() == d
  }

  /** A datagram sent on iface reaches every router with an interface on the same subnet. */
  ghost predicate OnSubnet(cfg: Config, iface: InterfaceInfo) {
    Attached(cfg, iface.network.Masked())
  }

  /** Interface networks with a common address are the same subnet. */
  ghost predicate SubnetsDisjoint(net: seq<Config>) {
    forall r, i, s, j, x: Addr ::
      0 <= r < |net| && 0 <= i < |net[r].interfaces| && net[r].interfaces[i].network.Contains(x) &&
      0 <= s < |net| && 0 <= j < |net[s].interfaces| && net[s].interfaces[j].network.Contains(x) ==>
        net[r].interfaces[i].network.Masked() == net[s].interfaces[j].network.Masked()
  }

  ghost predicate Hears(net: seq<Config>, r: nat, s: nat) {
    && r < |net| && s < |net| && r != s
    && exists i :: 0 <= i < |net[s].interfaces| && OnSubnet(net[r], net[s].interfaces[i])
  }

  lemma HearingInterface(net: seq<Config>, r: nat, s: nat) returns (iface: InterfaceInfo)
    requires Hears(net, r, s)
    ensures iface in net[s].interfaces && OnSubnet(net[r], iface)
  {
    var i :| 0 <= i < |net[s].interfaces| && OnSubnet(net[r], net[s].interfaces[i]);
    iface := net[s].interfaces[i];
  }

  lemma HearingIsMutual(net: seq<Config>, r: nat, s: nat)
    requires Hears(net, r, s)
    ensures Hears(net, s, r)
  {
    var iface := HearingInterface(net, r, s);
    var k :| 0 <= k < |net[r].interfaces| && net[r].interfaces[k].network.Masked() == iface.network.Masked();
    assert OnSubnet(net[s], net[r].interfaces[k]);
  }

  /** Router a is at d and has the interface ia. */
  ghost predicate AtDestination(net: seq<Config>, d: Ipv4Network, a: nat, ia: InterfaceInfo) {
    a < |net| && Attached(net[a], d) && ia in net[a].interfaces
  }

  // ----- steps and runs

  function Wire(net: seq<Config>, m: Message): RoutingUpdate
    requires m.sender < |net|
  {
    RoutingUpdate(net[m.sender].id, m.sequence, InfosOf(m.entries))
  }

  ghost predicate Sendable(net: seq<Config>, m: Message) {
    m.sender < |net| && m.iface in net[m.sender].interfaces
  }

  ghost predicate Enabled(net: seq<Config>, st: NetState, step: NetStep) {
    && |st.nodes| == |net| && step.router < |net|
    && (step.Deliver? ==> step.m in st.sent && Sendable(net, step.m) && OnSubnet(net[step.router], step.m.iface))
  }

  ghost function Sent(cfg: Config, r: nat, n: Node): set<Message> {
    set i | 0 <= i < |cfg.interfaces| :: Message(r, cfg.interfaces[i], UpdateSent(cfg, n).sequence, n.table.routes)
  }

  /** What goes over the wire is the update the router makes of its table. */
  lemma WireIsUpdateSent(net: seq<Config>, r: nat, n: Node, m: Message)
    requires r < |net| && m in Sent(net[r], r, n)
    ensures m.sender == r && Wire(net, m) == UpdateSent(net[r], n)
  {
  }

  ghost function NodeAfter(net: seq<Config>, st: NetState, step: NetStep): Node
    requires Enabled(net, st, step)
  {
    var cfg, n := net[step.router], st.nodes[step.router];
    match step
    case Broadcast(_) => n.(sequence := UpdateSent(cfg, n).sequence)
    case Deliver(_, m, now) => UpdateReceived(cfg, n, Wire(net, m), V4(m.iface.ip), now)
    case Greet(_, hello, ip, now) => HelloReceived(cfg, n, hello, ip, now)
    case Sweep(_, now) => Cleaned(n, now)
  }

  ghost function After(net: seq<Config>, st: NetState, step: NetStep): NetState
    requires Enabled(net, st, step)
  {
    NetState(st.nodes[step.router := NodeAfter(net, st, step)],
             st.sent + if step.Broadcast? then Sent(net[step.router], step.router, st.nodes[step.router]) else {})
  }

  ghost predicate IsRun(net: seq<Config>, st: NetState, steps: seq<NetStep>)
    decreases |steps|, 0
  {
    steps == [] ||
    (IsRun(net, st, steps[..|steps| - 1]) && Enabled(net, RunOf(net, st, steps[..|steps| - 1]), steps[|steps| - 1]))
  }

  ghost function RunOf(net: seq<Config>, st: NetState, steps: seq<NetStep>): NetState
    requires IsRun(net, st, steps)
    decreases |steps|, 1
  {
    if steps == [] then st else After(net, RunOf(net, st, steps[..|steps| - 1]), steps[|steps| - 1])
  }

  ghost predicate UpdateOnly(steps: seq<NetStep>) {
    forall step :: step in steps ==> !step.Sweep?
  }

  /** Every step that reads the clock reads t. */
  ghost predicate AllAt(steps: seq<NetStep>, t: nat) {
    forall step :: step in steps && !step.Broadcast? ==> step.now == t
  }

  /** The clock of the run never goes back. */
  ghost predicate MonotoneClock(steps: seq<NetStep>) {
    forall i, j :: 0 <= i < j < |steps| && !steps[i].Broadcast? && !steps[j].Broadcast? ==> steps[i].now <= steps[j].now
  }

  /** Routers just started, nothing sent yet. */
  ghost predicate Initial(net: seq<Config>, st: NetState) {
    && |st.nodes| == |net| && st.sent == {}
    && (forall r :: 0 <= r < |net| ==> Fresh(net[r], st.nodes[r]) && st.nodes[r].sequence == 0)
  }

  /** A router can always broadcast, and a router on the subnet then receives its table. */
  lemma CanSend(net: seq<Config>, at: NetState, s: nat, r: nat, iface: InterfaceInfo, now: nat) returns (m: Message)
    requires |at.nodes| == |net| && s < |net| && r < |net| && iface in net[s].interfaces && OnSubnet(net[r], iface)
    ensures m.sender == s && m.iface == iface && m.entries == at.nodes[s].table.routes
    ensures Enabled(net, at, Broadcast(s)) && Enabled(net, After(net, at, Broadcast(s)), Deliver(r, m, now))
  {
    m := Message(s, iface, UpdateSent(net[s], at.nodes[s]).sequence, at.nodes[s].table.routes);
    var i :| 0 <= i < |net[s].interfaces| && net[s].interfaces[i] == iface;
    assert m in Sent(net[s], s, at.nodes[s]);
  }

  // ----- hop distance

  /** A chain of k + 1 routers from p[0], each hearing the next, to one attached to d. */
  ghost predicate Walk(net: seq<Config>, d: Ipv4Network, p: seq<nat>, k: nat) {
    && |p| == k + 1
    && (forall i :: 0 <= i <= k ==> p[i] < |net|)
    && (forall i :: 0 <= i < k ==> Hears(net, p[i], p[i + 1]))
    && Attached(net[p[k]], d)
  }

  ghost predicate Within(net: seq<Config>, r: nat, d: Ipv4Network, k: nat) {
    exists j, p :: 0 <= j <= k && Walk(net, d, p, j) && p[0] == r
  }

  /** The hop distance from router r to destination d is j. */
  ghost predicate AtDistance(net: seq<Config>, r: nat, d: Ipv4Network, j: nat) {
    Within(net, r, d, j) && forall i: nat :: i < j ==> !Within(net, r, d, i)
  }

  // ----- one delivery, per destination

  lemma HeardSenderIsInside(cfg: Config, iface: InterfaceInfo)
    requires GoodInterface(iface) && OnSubnet(cfg, iface)
    ensures Reaches(cfg.interfaces, iface.ip)
  {
    var k :| 0 <= k < |cfg.interfaces| && cfg.interfaces[k].network.Masked() == iface.network.Masked();
    assert cfg.interfaces[k].network.Contains(iface.ip);
  }

  /** What a receiver makes of a table entry it is sent. */
  lemma CandidateOfEntry(cfg: Config, e: RouteEntry, sender: Addr)
    ensures Candidate(cfg, InfoOf(e), sender).Some? ==>
      var c := Candidate(cfg, InfoOf(e), sender).value;
      && c.destination == e.destination.Masked() && c.metric == Inc(e.metric)
      && c.nextHop == NextHopFor(e.nextHop, sender, cfg.interfaces) && c.source == Protocol
      && NamesHeard(cfg.interfaces, sender, c.iface)
  {
    NetworkRoundTrip(e.destination);
    CanonicalIsMasked(PrintNetwork(e.destination));
    AddrRoundTrip(e.nextHop);
    if Candidate(cfg, InfoOf(e), sender).Some? {
      CandidateNamesInterface(cfg, InfoOf(e), sender);
    }
    hide NamesHeard;
  }

  lemma AttachedIffLocal(cfg: Config, d: Ipv4Network)
    requires GoodRouter(cfg) && d.IsMasked()
    ensures Attached(cfg, d) <==> IsLocal(cfg.local, d)
  {
    if Attached(cfg, d) {
      var i :| 0 <= i < |cfg.interfaces| && cfg.interfaces[i].network.Masked() == d;
      assert cfg.interfaces[i].network in cfg.local;
    }
    if IsLocal(cfg.local, d) {
      var n :| n in cfg.local && n.Masked() == d.Masked();
      assert IsOurNetwork(cfg.interfaces, n);
    }
  }

  lemma EntryHasCandidate(cfg: Config, e: RouteEntry, sender: Addr)
    requires GoodRouter(cfg) && Reaches(cfg.interfaces, sender) && !Attached(cfg, e.destination.Masked())
    ensures Candidate(cfg, InfoOf(e), sender).Some?
  {
    NetworkRoundTrip(e.destination);
    CanonicalIsMasked(PrintNetwork(e.destination));
    MaskingIsCanonical(e.destination);
    AddrRoundTrip(e.nextHop);
    hide Canonical, ParseAddr, PrintNetwork, PrintAddr;
    var k := BestInterfaceExists(cfg.interfaces, sender, |cfg.interfaces|);
    assert cfg.interfaces[..|cfg.interfaces|] == cfg.interfaces;
    assert !IsOurNetwork(cfg.interfaces, e.destination.Masked());
  }

  /** Every entry for a network the receiver is not attached to is on offer. */
  lemma EntryIsOffered(cfg: Config, entries: seq<RouteEntry>, e: RouteEntry, sender: Addr)
    requires GoodRouter(cfg) && sender != UNSPECIFIED && Reaches(cfg.interfaces, sender)
    requires e in entries && !Attached(cfg, e.destination.Masked())
    ensures Candidate(cfg, InfoOf(e), sender).Some?
    ensures Offers(cfg, Candidates(cfg, InfosOf(entries), sender), Candidate(cfg, InfoOf(e), sender).value)
  {
    hide Candidate;
    EntryHasCandidate(cfg, e, sender);
    CandidateOfEntry(cfg, e, sender);
    MaskingIsCanonical(e.destination);
    AttachedIffLocal(cfg, e.destination.Masked());
    CandidateValidIff(cfg, InfoOf(e), sender);
    var i :| 0 <= i < |entries| && entries[i] == e;
    assert Candidates(cfg, InfosOf(entries), sender)[i] == Candidate(cfg, InfoOf(e), sender);
  }

  /** The entry x is what a router makes of entry e of message m. */
  ghost predicate LearnedFrom(cfg: Config, m: Message, e: RouteEntry, x: RouteEntry) {
    && x.source == Protocol
    && x.destination == e.destination.Masked()
    && x.metric == Inc(e.metric)
    && x.nextHop == NextHopFor(e.nextHop, m.iface.ip, cfg.interfaces)
    && NamesHeard(cfg.interfaces, m.iface.ip, x.iface)
  }

  ghost predicate NotWorse(rs: seq<RouteEntry>, rs': seq<RouteEntry>) {
    forall d :: Lookup(rs, d).Some? ==>
      Lookup(rs', d).Some? && Lookup(rs', d).value.metric <= Lookup(rs, d).value.metric
  }

  /** A delivery changes an entry only to one learned from the message, never to a worse one. */
  lemma DeliveryOutcome(net: seq<Config>, st: NetState, r: nat, m: Message, now: nat)
    requires GoodNetwork(net) && Enabled(net, st, Deliver(r, m, now)) && WellFormed(net[r], st.nodes[r].table.routes)
    ensures var rs, rs' := st.nodes[r].table.routes, NodeAfter(net, st, Deliver(r, m, now)).table.routes;
      && WellFormed(net[r], rs')
      && NotWorse(rs, rs')
      && (forall d :: Lookup(rs', d).Some? && Lookup(rs', d) != Lookup(rs, d) ==>
            Hears(net, r, m.sender) && exists e :: e in m.entries && LearnedFrom(net[r], m, e, Lookup(rs', d).value))
  {
    var cfg, n, update, sender := net[r], st.nodes[r], Wire(net, m), m.iface.ip;
    var rs, rs' := n.table.routes, NodeAfter(net, st, Deliver(r, m, now)).table.routes;
    if !OwnAddress(cfg, V4(sender)) && update.routerId != cfg.id {
      var heard := n.(neighbors := UpdateHeard(n.neighbors, update.routerId, now));
      var k :| 0 <= k < |net[m.sender].interfaces| && net[m.sender].interfaces[k] == m.iface;
      assert GoodInterface(m.iface);
      BatchTakesLeast(cfg, heard, update, sender, now, Net(0, 0));
      forall d
        ensures Lookup(rs, d).Some? ==>
          Lookup(rs', d).Some? && Lookup(rs', d).value.metric <= Lookup(rs, d).value.metric
        ensures Lookup(rs', d).Some? && Lookup(rs', d) != Lookup(rs, d) ==>
          exists e :: e in m.entries && LearnedFrom(net[r], m, e, Lookup(rs', d).value)
      {
        BatchTakesLeast(cfg, heard, update, sender, now, d);
        if Lookup(rs', d).Some? && Lookup(rs', d) != Lookup(rs, d) {
          OfferedByEntry(cfg, m, Lookup(rs', d).value);
        }
      }
    }
  }

  lemma OfferedByEntry(cfg: Config, m: Message, x: RouteEntry)
    requires Some(x) in Candidates(cfg, InfosOf(m.entries), m.iface.ip)
    ensures exists e :: e in m.entries && LearnedFrom(cfg, m, e, x)
  {
    hide Candidate;
    var i :| 0 <= i < |m.entries| && Candidates(cfg, InfosOf(m.entries), m.iface.ip)[i] == Some(x);
    CandidateOfEntry(cfg, m.entries[i], m.iface.ip);
    assert LearnedFrom(cfg, m, m.entries[i], x);
  }

  /** A delivery from another router is processed, and its sender address lies on a subnet of the receiver. */
  lemma SenderIsOther(net: seq<Config>, st: NetState, r: nat, m: Message, now: nat)
    requires GoodNetwork(net) && Enabled(net, st, Deliver(r, m, now)) && r != m.sender
    ensures m.iface.ip != UNSPECIFIED && Reaches(net[r].interfaces, m.iface.ip)
    ensures GoodRouter(net[r])
    ensures NodeAfter(net, st, Deliver(r, m, now)).table
         == UpdatedAll(net[r].local, st.nodes[r].table,
                       AcceptedRoutes(st.nodes[r].table.routes, Candidates(net[r], InfosOf(m.entries), m.iface.ip)))
  {
    hide Candidate, UpdatedAll, AcceptedRoutes;
    var k :| 0 <= k < |net[m.sender].interfaces| && net[m.sender].interfaces[k] == m.iface;
    assert GoodInterface(m.iface) && Owns(net, m.sender, m.iface.ip);
    assert OwnAddress(net[r], V4(m.iface.ip)) ==> Owns(net, r, m.iface.ip);
    HeardSenderIsInside(net[r], m.iface);
  }

  /** A delivery from another router leaves at least what the message offers. */
  lemma DeliveryTakesOffer(net: seq<Config>, st: NetState, r: nat, m: Message, now: nat, e: RouteEntry)
    requires GoodNetwork(net) && Enabled(net, st, Deliver(r, m, now)) && WellFormed(net[r], st.nodes[r].table.routes)
    requires r != m.sender && e in m.entries && !Attached(net[r], e.destination.Masked())
    ensures var now' := Lookup(NodeAfter(net, st, Deliver(r, m, now)).table.routes, e.destination.Masked());
      now'.Some? && now'.value.metric <= e.metric + 1
  {
    var cfg, n, sender := net[r], st.nodes[r], m.iface.ip;
    SenderIsOther(net, st, r, m, now);
    EntryIsOffered(cfg, m.entries, e, sender);
    CandidateOfEntry(cfg, e, sender);
    CandidatesHaveShape(cfg, InfosOf(m.entries), sender);
    CandidatesValidIff(cfg, InfosOf(m.entries), sender);
    hide Candidate, ValidRoute, IsLocal, GoodNetwork, Enabled, NodeAfter, Attached, Reaches;
    AcceptedTakeLeast(cfg, n.table, Candidates(cfg, InfosOf(m.entries), sender), e.destination.Masked());
  }

  /** A delivery changes the entry for which the message brings something acceptable. */
  lemma DeliveryAccepts(net: seq<Config>, st: NetState, r: nat, m: Message, now: nat, e: RouteEntry)
    requires GoodNetwork(net) && Enabled(net, st, Deliver(r, m, now)) && WellFormed(net[r], st.nodes[r].table.routes)
    requires r != m.sender && e in m.entries && !Attached(net[r], e.destination.Masked())
    ensures Candidate(net[r], InfoOf(e), m.iface.ip).Some?
    ensures var c, rs := Candidate(net[r], InfoOf(e), m.iface.ip).value, st.nodes[r].table.routes;
      && c.destination == e.destination.Masked() && c.metric == Inc(e.metric)
      && c.nextHop == NextHopFor(e.nextHop, m.iface.ip, net[r].interfaces)
      && (Accepts(rs, c) ==>
            Lookup(NodeAfter(net, st, Deliver(r, m, now)).table.routes, c.destination) != Lookup(rs, c.destination))
  {
    var cfg, sender := net[r], m.iface.ip;
    SenderIsOther(net, st, r, m, now);
    EntryIsOffered(cfg, m.entries, e, sender);
    CandidateOfEntry(cfg, e, sender);
    var cands := Candidates(cfg, InfosOf(m.entries), sender);
    CandidatesValidIff(cfg, InfosOf(m.entries), sender);
    hide Candidate, ValidRoute, IsLocal, GoodNetwork, Enabled;
    if Accepts(st.nodes[r].table.routes, Candidate(cfg, InfoOf(e), sender).value) {
      AcceptedReplaces(cfg, st.nodes[r].table, cands, Candidate(cfg, InfoOf(e), sender).value);
    }
  }
}
