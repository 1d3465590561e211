/** How routes for one destination are passed on and forgotten, step by step: the building blocks
    of the runs constructed elsewhere. */
module Teaching {
  import opened Options
  import opened Ipv4
  import opened Routes
  import opened Nodes
  import opened Invariants
  import opened Interleaving
  import opened Timeouts
  import opened Network
  import opened UpdateRuns

  // ----- reachable states

  ghost predicate AllOrderly(net: seq<Config>, st: NetState) {
    |st.nodes| == |net| && forall r :: 0 <= r < |net| ==> Orderly(net[r], st.nodes[r])
  }

  lemma NodeStaysOrderly(net: seq<Config>, st: NetState, step: NetStep)
    requires Enabled(net, st, step) && Orderly(net[step.router], st.nodes[step.router])
    ensures Orderly(net[step.router], NodeAfter(net, st, step))
  {
    var cfg, n := net[step.router], st.nodes[step.router];
    match step
    case Broadcast(_) =>
    case Deliver(_, m, now) => HappenedOrderly(cfg, n, Timed(now, Update(Wire(net, m), V4(m.iface.ip))));
    case Greet(_, hello, ip, now) => HappenedOrderly(cfg, n, Timed(now, Hello(hello, ip)));
    case Sweep(_, now) => HappenedOrderly(cfg, n, Timed(now, Cleanup));
  }

  lemma FreshIsOrderly(cfg: Config, n: Node)
    requires Fresh(cfg, n)
    ensures Orderly(cfg, n)
  {
    forall d | Lookup(n.table.routes, d).Some?
      ensures Lookup(n.table.routes, d).value.source == Direct
    {
      LookupMember(n.table.routes, Lookup(n.table.routes, d).value);
    }
  }

  lemma {:induction false} RunIsOrderly(net: seq<Config>, st: NetState, steps: seq<NetStep>)
    requires Initial(net, st) && IsRun(net, st, steps)
    ensures AllOrderly(net, RunOf(net, st, steps))
  {
    if steps == [] {
      forall r | 0 <= r < |net|
        ensures Orderly(net[r], st.nodes[r])
      {
        FreshIsOrderly(net[r], st.nodes[r]);
      }
    } else {
      var front := steps[..|steps| - 1];
      RunIsOrderly(net, st, front);
      NodeStaysOrderly(net, RunOf(net, st, front), steps[|steps| - 1]);
    }
  }

  // ----- telling and forgetting a route

  lemma LearnedOffSubnet(net: seq<Config>, r: nat, rs: seq<RouteEntry>, x: RouteEntry)
    requires GoodNetwork(net) && r < |net| && WellFormed(net[r], rs) && x in rs && x.source == Protocol
    ensures x.destination.Masked() == x.destination && !Attached(net[r], x.destination)
  {
    WellFormedMember(net[r], rs, x);
    AttachedIffLocal(net[r], x.destination);
  }

  /** The table has entries for d, all with the same next hop. */
  ghost predicate LeadsVia(rs: seq<RouteEntry>, d: Ipv4Network, hop: Addr) {
    && (exists e :: e in rs && e.destination.Masked() == d)
    && (forall e :: e in rs && e.destination.Masked() == d ==> e.nextHop == hop)
  }

  ghost predicate Knows(at: NetState, r: nat, d: Ipv4Network, hop: Addr) {
    && r < |at.nodes| && Lookup(RoutesAt(at, r), d).Some?
    && Lookup(RoutesAt(at, r), d).value.source == Protocol && Lookup(RoutesAt(at, r), d).value.nextHop == hop
  }

  ghost predicate SameOthers(st: NetState, st': NetState, r: nat) {
    |st.nodes| == |st'.nodes| && forall i :: 0 <= i < |st.nodes| && i != r ==> RoutesAt(st', i) == RoutesAt(st, i)
  }

  /** The table has entries for d, all with the same next hop and the same metric. */
  ghost predicate Tells(rs: seq<RouteEntry>, d: Ipv4Network, k: Metric, hop: Addr) {
    LeadsVia(rs, d, hop) && forall e :: e in rs && e.destination.Masked() == d ==> e.metric == k
  }

  /** A delivery to a router without a route for d teaches it one, with the advertised metric plus one. */
  lemma DeliveryTells(net: seq<Config>, st: NetState, r: nat, m: Message, now: nat, d: Ipv4Network, hop: Addr)
    requires GoodNetwork(net) && Enabled(net, st, Deliver(r, m, now)) && WellFormed(net[r], RoutesAt(st, r))
    requires r != m.sender && !Attached(net[r], d) && Lookup(RoutesAt(st, r), d) == None && LeadsVia(m.entries, d, hop)
    ensures Knows(After(net, st, Deliver(r, m, now)), r, d, NextHopFor(hop, m.iface.ip, net[r].interfaces))
    ensures forall k :: Tells(m.entries, d, k, hop) ==>
      Lookup(RoutesAt(After(net, st, Deliver(r, m, now)), r), d).value.metric == Inc(k)
  {
    var e :| e in m.entries && e.destination.Masked() == d;
    DeliveryTakesOffer(net, st, r, m, now, e);
    DeliveryOutcome(net, st, r, m, now);
    var x := Lookup(NodeAfter(net, st, Deliver(r, m, now)).table.routes, d).value;
    var e' :| e' in m.entries && LearnedFrom(net[r], m, e', x);
  }

  /** In state at, router s can tell r, which has no route for d, about one on iface. */
  ghost predicate CanTell(net: seq<Config>, at: NetState, s: nat, r: nat, iface: InterfaceInfo, d: Ipv4Network,
                          hop: Addr) {
    && |at.nodes| == |net| && r < |net| && s < |net| && r != s
    && iface in net[s].interfaces && OnSubnet(net[r], iface)
    && !Attached(net[r], d) && Lookup(RoutesAt(at, r), d) == None && LeadsVia(RoutesAt(at, s), d, hop)
  }

  /** One broadcast of s on iface and its delivery to r, which had no route for d. */
  lemma {:induction false} TellAt(net: seq<Config>, at: NetState, s: nat, r: nat, iface: InterfaceInfo,
                                  d: Ipv4Network, hop: Addr, now: nat) returns (m: Message)
    requires GoodNetwork(net) && CanTell(net, at, s, r, iface, d, hop) && WellFormed(net[r], RoutesAt(at, r))
    ensures m.entries == RoutesAt(at, s)
    ensures Enabled(net, at, Broadcast(s)) && Enabled(net, After(net, at, Broadcast(s)), Deliver(r, m, now))
    ensures var to := After(net, After(net, at, Broadcast(s)), Deliver(r, m, now));
      && SameOthers(at, to, r) && Knows(to, r, d, NextHopFor(hop, iface.ip, net[r].interfaces))
      && (forall k :: Tells(RoutesAt(at, s), d, k, hop) ==> Lookup(RoutesAt(to, r), d).value.metric == Inc(k))
  {
    hide GoodNetwork, WellFormed;
    m := CanSend(net, at, s, r, iface, now);
    DeliveryTells(net, After(net, at, Broadcast(s)), r, m, now, d, hop);
  }

  lemma ForgetAt(cfg: Config, n: Node, d: Ipv4Network, from: nat) returns (late: nat)
    requires Orderly(cfg, n)
    requires Lookup(n.table.routes, d).Some? ==> Lookup(n.table.routes, d).value.source == Protocol
    ensures late >= from && Lookup(Cleaned(n, late).table.routes, d) == None
  {
    late := from;
    if Lookup(n.table.routes, d).Some? {
      assert Covers(n.states, d);
      var k :| k in n.states && n.states[k].route.destination == d;
      late := from + n.states[k].lastAdvertised + ROUTE_TIMEOUT + 1;
      StaleIsRemoved(cfg, n, k, late);
    } else {
      CleanupRemovesExactly(cfg, n, late, d);
    }
  }

  lemma StaleIsRemoved(cfg: Config, n: Node, k: string, late: nat)
    requires Orderly(cfg, n) && k in n.states && late > n.states[k].lastAdvertised + ROUTE_TIMEOUT
    ensures Lookup(Cleaned(n, late).table.routes, n.states[k].route.destination) == None
  {
    hide Orderly, Cleaned;
    CleanupTakesBoth(cfg, n, k, late);
  }

  /** A late enough cleanup makes r, which is off d, forget any route for d. */
  lemma ForgetState(net: seq<Config>, at: NetState, r: nat, d: Ipv4Network, from: nat) returns (late: nat)
    requires |at.nodes| == |net| && r < |net| && Orderly(net[r], at.nodes[r])
    requires d.IsMasked() && !Attached(net[r], d)
    ensures late >= from && Enabled(net, at, Sweep(r, late))
    ensures var to := After(net, at, Sweep(r, late));
      SameOthers(at, to, r) && Lookup(RoutesAt(to, r), d) == None
  {
    assert WellFormed(net[r], RoutesAt(at, r));
    hide Orderly, Attached, WellFormed, Cleaned, Lookup;
    if Lookup(RoutesAt(at, r), d).Some? {
      OffIsProtocol(net[r], RoutesAt(at, r), d);
    }
    late := ForgetAt(net[r], at.nodes[r], d, from);
  }

  lemma OffIsProtocol(cfg: Config, rs: seq<RouteEntry>, d: Ipv4Network)
    requires WellFormed(cfg, rs) && d.IsMasked() && !Attached(cfg, d) && Lookup(rs, d).Some?
    ensures Lookup(rs, d).value.source == Protocol
  {
    assert WellFormedEntry(cfg, Lookup(rs, d).value);
    assert IsOurNetwork(cfg.interfaces, d) ==> Attached(cfg, d);
  }

  lemma FreshLeads(cfg: Config, n: Node, d: Ipv4Network)
    requires Fresh(cfg, n)
    ensures Attached(cfg, d) ==> LeadsVia(n.table.routes, d, UNSPECIFIED)
    ensures !Attached(cfg, d) && d.IsMasked() ==> Lookup(n.table.routes, d) == None
  {
    var rs := n.table.routes;
    forall e | e in rs
      ensures e.nextHop == UNSPECIFIED && Attached(cfg, e.destination.Masked())
    {
      WellFormedMember(cfg, rs, e);
      var i :| 0 <= i < |cfg.interfaces| && cfg.interfaces[i].network == e.destination;
    }
    if Attached(cfg, d) {
      var i :| 0 <= i < |cfg.interfaces| && cfg.interfaces[i].network.Masked() == d;
      var e := Lookup(rs, cfg.interfaces[i].network).value;
      assert e in rs && e.destination.Masked() == d;
    } else if Lookup(rs, d).Some? {
      assert Lookup(rs, d).value in rs;
    }
  }

  /** Off the subnet, a table leads to d by its one protocol entry. */
  lemma EntryLeads(cfg: Config, rs: seq<RouteEntry>, d: Ipv4Network)
    requires WellFormed(cfg, rs) && d.IsMasked() && !Attached(cfg, d) && Lookup(rs, d).Some?
    ensures Tells(rs, d, Lookup(rs, d).value.metric, Lookup(rs, d).value.nextHop)
  {
    var x := Lookup(rs, d).value;
    LookupMember(rs, x);
    assert x in rs && x.destination.Masked() == d;
    forall e | e in rs && e.destination.Masked() == d
      ensures e == x
    {
      WellFormedMember(cfg, rs, e);
      assert IsOurNetwork(cfg.interfaces, e.destination) ==> Attached(cfg, d);
    }
  }

  lemma StartLeads(net: seq<Config>, st: NetState, d: Ipv4Network, r: nat)
    requires Initial(net, st) && r < |net| && d.IsMasked()
    ensures |st.nodes| == |net|
    ensures if Attached(net[r], d) then LeadsVia(RoutesAt(st, r), d, UNSPECIFIED)
            else Lookup(RoutesAt(st, r), d) == None
  {
    assert Fresh(net[r], st.nodes[r]);
    FreshLeads(net[r], st.nodes[r], d);
  }

  /** At d, a table has direct routes to it only. */
  lemma AttachedTells(cfg: Config, rs: seq<RouteEntry>, d: Ipv4Network)
    requires GoodRouter(cfg) && WellFormed(cfg, rs) && d.IsMasked() && Attached(cfg, d)
    ensures Tells(rs, d, 0, UNSPECIFIED)
  {
    AttachedIffLocal(cfg, d);
    var i :| 0 <= i < |cfg.interfaces| && cfg.interfaces[i].network.Masked() == d;
    var own := Lookup(rs, cfg.interfaces[i].network).value;
    assert own in rs && own.destination.Masked() == d;
    forall e | e in rs && e.destination.Masked() == d
      ensures e.nextHop == UNSPECIFIED && e.metric == 0
    {
      WellFormedMember(cfg, rs, e);
    }
  }
}
