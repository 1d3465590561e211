/** With cleanup in the run loop freedom is lost, although the topology does not change: a router
    that forgets a route can be taught it back by the neighbour it taught it to, with itself as
    next hop. Exactly when that can happen is a property of the topology. */
module CleanupLoops {
  import opened Options
  import opened Ipv4
  import opened Routes
  import opened Nodes
  import opened Invariants
  import opened Interleaving
  import opened Timeouts
  import opened Network
  import opened UpdateRuns
  import opened CleanupRuns
  import opened Convergence
  import opened Teaching

  // ----- how a next hop spreads

  /** Routers off d along which the address of ia spreads as next hop: the first one shares its
      subnet, and each further one hears the one before and has an interface that contains the address. */
  ghost predicate Relay(net: seq<Config>, d: Ipv4Network, ia: InterfaceInfo, p: seq<nat>) {
    && p != [] && Simple(p)
    && (forall i :: 0 <= i < |p| ==>
          p[i] < |net| && !Attached(net[p[i]], d) && Reaches(net[p[i]].interfaces, ia.ip))
    && OnSubnet(net[p[0]], ia)
    && (forall i :: 0 <= i < |p| - 1 ==> Hears(net, p[i + 1], p[i]))
  }

  /** The address of ia, an interface of router a at d, spreads along p, and c, which is off d,
      hears the last router of p but has no interface that contains the address. */
  ghost predicate Misleads(net: seq<Config>, d: Ipv4Network, a: nat, ia: InterfaceInfo, p: seq<nat>, c: nat) {
    && AtDestination(net, d, a, ia) && Relay(net, d, ia, p)
    && Hears(net, c, p[|p| - 1]) && !Attached(net[c], d) && !Reaches(net[c].interfaces, ia.ip)
  }

  ghost predicate Misleadable(net: seq<Config>, d: Ipv4Network) {
    exists a: nat, ia, p: seq<nat>, c: nat :: Misleads(net, d, a, ia, p, c)
  }

  // ----- otherwise every next hop is at the destination

  /** hop is the address of a router at d, and can have spread to router r. */
  ghost predicate Straight(net: seq<Config>, d: Ipv4Network, r: nat, hop: Addr) {
    exists a: nat, ia, p: seq<nat> ::
      AtDestination(net, d, a, ia) && Relay(net, d, ia, p) && p[|p| - 1] == r && hop == ia.ip
  }

  /** Where an entry of router r for d leads, in its table or in a message it sent. */
  ghost predicate LeadsStraight(net: seq<Config>, d: Ipv4Network, r: nat, e: RouteEntry) {
    r < |net| && (e.destination.Masked() == d ==>
                    if Attached(net[r], d) then e.nextHop == UNSPECIFIED else Straight(net, d, r, e.nextHop))
  }

  ghost predicate AllStraight(net: seq<Config>, st: NetState, d: Ipv4Network) {
    && |st.nodes| == |net|
    && (forall r, e :: 0 <= r < |net| && e in RoutesAt(st, r) ==> LeadsStraight(net, d, r, e))
    && (forall m, e :: m in st.sent && e in m.entries ==> LeadsStraight(net, d, m.sender, e))
  }

  lemma RelayToFirst(net: seq<Config>, d: Ipv4Network, a: nat, ia: InterfaceInfo, r: nat)
    requires GoodNetwork(net) && AtDestination(net, d, a, ia)
    requires r < |net| && OnSubnet(net[r], ia) && !Attached(net[r], d)
    ensures Straight(net, d, r, ia.ip)
  {
    var i :| 0 <= i < |net[a].interfaces| && net[a].interfaces[i] == ia;
    assert GoodInterface(net[a].interfaces[i]);
    HeardSenderIsInside(net[r], ia);
    assert Relay(net, d, ia, [r]) && [r][|[r]| - 1] == r;
  }

  lemma RelayToNext(net: seq<Config>, d: Ipv4Network, ia: InterfaceInfo, p: seq<nat>, r: nat) returns (q: seq<nat>)
    requires Relay(net, d, ia, p) && Hears(net, r, p[|p| - 1])
    requires !Attached(net[r], d) && Reaches(net[r].interfaces, ia.ip)
    ensures Relay(net, d, ia, q) && q[|q| - 1] == r
  {
    if i :| 0 <= i < |p| && p[i] == r {
      q := p[..i + 1];
    } else {
      q := p + [r];
    }
  }

  /** Where nothing can be misled, what is learned leads straight to the destination again. */
  lemma LearnedIsStraight(net: seq<Config>, d: Ipv4Network, r: nat, m: Message, e: RouteEntry, x: RouteEntry)
    requires GoodNetwork(net) && !Misleadable(net, d)
    requires Sendable(net, m) && Hears(net, r, m.sender) && OnSubnet(net[r], m.iface)
    requires LeadsStraight(net, d, m.sender, e) && LearnedFrom(net[r], m, e, x)
    requires x.destination.Masked() == x.destination && !Attached(net[r], x.destination)
    ensures LeadsStraight(net, d, r, x)
  {
    if x.destination == d {
      if Attached(net[m.sender], d) {
        RelayToFirst(net, d, m.sender, m.iface, r);
      } else {
        var a: nat, ia, p: seq<nat> :|
          AtDestination(net, d, a, ia) && Relay(net, d, ia, p) && p[|p| - 1] == m.sender && e.nextHop == ia.ip;
        AddressOfInterface(net, a, ia);
        assert !Reaches(net[r].interfaces, ia.ip) ==> Misleads(net, d, a, ia, p, r);
        var q := RelayToNext(net, d, ia, p, r);
      }
    }
  }

  lemma AddressOfInterface(net: seq<Config>, a: nat, ia: InterfaceInfo)
    requires GoodNetwork(net) && a < |net| && ia in net[a].interfaces
    ensures ia.ip != UNSPECIFIED && Owns(net, a, ia.ip)
  {
    var i :| 0 <= i < |net[a].interfaces| && net[a].interfaces[i] == ia;
    assert GoodInterface(net[a].interfaces[i]);
  }

  lemma StepKeepsStraight(net: seq<Config>, st: NetState, step: NetStep, d: Ipv4Network)
    requires GoodNetwork(net) && !Misleadable(net, d) && AllOrderly(net, st) && AllStraight(net, st, d)
    requires Enabled(net, st, step)
    ensures AllStraight(net, After(net, st, step), d)
  {
    hide GoodNetwork, Misleadable, LeadsStraight;
    var st', cfg := After(net, st, step), net[step.router];
    StepEntries(net, st, step);
    forall x | x in RoutesAt(st', step.router) && x !in RoutesAt(st, step.router)
      ensures LeadsStraight(net, d, step.router, x)
    {
      var e :| e in step.m.entries && LearnedFrom(cfg, step.m, e, x);
      LearnedOffSubnet(net, step.router, RoutesAt(st', step.router), x);
      LearnedIsStraight(net, d, step.router, step.m, e, x);
    }
  }

  lemma InitialStraight(net: seq<Config>, st: NetState, d: Ipv4Network)
    requires Initial(net, st)
    ensures AllStraight(net, st, d)
  {
    forall r, e | 0 <= r < |net| && e in RoutesAt(st, r)
      ensures LeadsStraight(net, d, r, e)
    {
      assert Fresh(net[r], st.nodes[r]);
      WellFormedMember(net[r], RoutesAt(st, r), e);
      var i :| 0 <= i < |net[r].interfaces| && net[r].interfaces[i].network == e.destination;
    }
  }

  lemma {:induction false} RunKeepsStraight(net: seq<Config>, st: NetState, steps: seq<NetStep>, d: Ipv4Network)
    requires GoodNetwork(net) && Initial(net, st) && IsRun(net, st, steps) && !Misleadable(net, d)
    ensures AllStraight(net, RunOf(net, st, steps), d)
  {
    hide GoodNetwork, Initial, Misleadable;
    if steps == [] {
      InitialStraight(net, st, d);
    } else {
      var front := steps[..|steps| - 1];
      RunKeepsStraight(net, st, front, d);
      RunIsOrderly(net, st, front);
      StepKeepsStraight(net, RunOf(net, st, front), steps[|steps| - 1], d);
    }
  }

  lemma StraightForwards(net: seq<Config>, st: NetState, d: Ipv4Network, r: nat, s: nat)
    requires GoodNetwork(net) && AllStraight(net, st, d) && d.IsMasked() && Forwards(net, st, d, r, s)
    requires WellFormed(net[r], RoutesAt(st, r))
    ensures Attached(net[s], d)
  {
    var e := Lookup(RoutesAt(st, r), d).value;
    LookupMember(RoutesAt(st, r), e);
    hide GoodNetwork, Relay, WellFormed;
    assert LeadsStraight(net, d, r, e) && d.Masked() == d;
    var a: nat, ia, p: seq<nat> :|
      AtDestination(net, d, a, ia) && Relay(net, d, ia, p) && p[|p| - 1] == r && e.nextHop == ia.ip;
    AddressOfInterface(net, a, ia);
    UniqueOwner(net, s, a, ia.ip);
  }

  /** Where nothing can be misled, every run, cleanups included, forwards in one hop to a router at d. */
  lemma {:induction false} ForwardingIsStraight(net: seq<Config>, st: NetState, steps: seq<NetStep>, d: Ipv4Network,
                                                r: nat, s: nat)
    requires GoodNetwork(net) && Initial(net, st) && IsRun(net, st, steps) && d.IsMasked() && !Misleadable(net, d)
    requires Forwards(net, RunOf(net, st, steps), d, r, s)
    ensures Attached(net[s], d)
  {
    hide GoodNetwork, Initial, Misleadable, AllStraight;
    RunKeepsStraight(net, st, steps, d);
    RunIsOrderly(net, st, steps);
    StraightForwards(net, RunOf(net, st, steps), d, r, s);
  }

  lemma UniqueOwner(net: seq<Config>, r: nat, s: nat, x: Addr)
    requires GoodNetwork(net) && Owns(net, r, x) && Owns(net, s, x)
    ensures r == s
  {
  }

  // ----- the run that misleads

  lemma OwnHopIsKept(net: seq<Config>, b: nat, ib: InterfaceInfo, sender: Addr)
    requires GoodNetwork(net) && b < |net| && ib in net[b].interfaces
    ensures NextHopFor(ib.ip, sender, net[b].interfaces) == ib.ip && Owns(net, b, ib.ip)
  {
    var i :| 0 <= i < |net[b].interfaces| && net[b].interfaces[i] == ib;
    assert GoodInterface(net[b].interfaces[i]);
    assert net[b].interfaces[i].network.Contains(ib.ip);
  }

  /** steps lead from st to at without cleanup, all at time 0. */
  ghost predicate Early(net: seq<Config>, st: NetState, steps: seq<NetStep>, at: NetState) {
    Instant(net, st, steps, 0) && RunOf(net, st, steps) == at
  }

  lemma EarlyStates(net: seq<Config>, st: NetState, steps: seq<NetStep>, at: NetState, r: nat)
    requires GoodNetwork(net) && Initial(net, st) && Early(net, st, steps, at) && r < |net|
    ensures Inv(net, at) && Orderly(net[r], at.nodes[r])
  {
    hide GoodNetwork, Initial;
    InitialInv(net, st);
    RunKeepsInv(net, st, steps);
    RunIsOrderly(net, st, steps);
  }

  lemma Tell(net: seq<Config>, st: NetState, steps: seq<NetStep>, at: NetState, s: nat, r: nat, iface: InterfaceInfo,
             d: Ipv4Network, hop: Addr) returns (more: seq<NetStep>, to: NetState)
    requires GoodNetwork(net) && Initial(net, st) && Early(net, st, steps, at)
    requires CanTell(net, at, s, r, iface, d, hop)
    ensures Early(net, st, more, to)
    ensures SameOthers(at, to, r) && Knows(to, r, d, NextHopFor(hop, iface.ip, net[r].interfaces))
  {
    assert r < |net|;
    hide GoodNetwork, Initial, Instant, CanTell, SameOthers, Knows, Enabled;
    EarlyStates(net, st, steps, at, r);
    var m := TellAt(net, at, s, r, iface, d, hop, 0);
    assert RunOf(net, st, steps) == at;
    InstantExtends(net, st, steps, Broadcast(s), 0);
    var sent := After(net, at, Broadcast(s));
    InstantExtends(net, st, steps + [Broadcast(s)], Deliver(r, m, 0), 0);
    more, to := steps + [Broadcast(s)] + [Deliver(r, m, 0)], After(net, sent, Deliver(r, m, 0));
  }

  /** Every router off d that is not in q still has no route for d. */
  ghost predicate OthersUntaught(net: seq<Config>, at: NetState, d: Ipv4Network, q: seq<nat>) {
    |at.nodes| == |net| &&
    forall r :: 0 <= r < |net| && !Attached(net[r], d) && r !in q ==> Lookup(RoutesAt(at, r), d) == None
  }

  /** After the first i + 1 routers of relay p learned the address of ia as next hop. */
  ghost predicate SpreadTo(net: seq<Config>, at: NetState, d: Ipv4Network, ia: InterfaceInfo, p: seq<nat>, i: nat) {
    i < |p| && Knows(at, p[i], d, ia.ip) && OthersUntaught(net, at, d, p[..i + 1])
  }

  lemma SpreadFirst(net: seq<Config>, st: NetState, d: Ipv4Network, a: nat, ia: InterfaceInfo, p: seq<nat>)
    returns (steps: seq<NetStep>, at: NetState)
    requires GoodNetwork(net) && Initial(net, st) && d.IsMasked()
    requires AtDestination(net, d, a, ia) && Relay(net, d, ia, p)
    ensures Early(net, st, steps, at) && SpreadTo(net, at, d, ia, p, 0)
  {
    hide GoodNetwork, Initial, Early, Reaches, Attached, OnSubnet, LeadsVia;
    StartUntaught(net, st, d, a);
    steps, at := Tell(net, st, [], st, a, p[0], ia, d, UNSPECIFIED);
    assert p[..1] == [p[0]];
  }

  lemma SpreadNext(net: seq<Config>, st: NetState, d: Ipv4Network, a: nat, ia: InterfaceInfo, p: seq<nat>, i: nat,
                   before: seq<NetStep>, mid: NetState) returns (steps: seq<NetStep>, at: NetState)
    requires GoodNetwork(net) && Initial(net, st) && d.IsMasked()
    requires AtDestination(net, d, a, ia) && Relay(net, d, ia, p)
    requires i + 1 < |p| && Early(net, st, before, mid) && SpreadTo(net, mid, d, ia, p, i)
    ensures Early(net, st, steps, at) && SpreadTo(net, at, d, ia, p, i + 1)
  {
    hide GoodNetwork, Initial, Early, Attached, OnSubnet, LeadsVia;
    assert Hears(net, p[i + 1], p[i]);
    var iface := HearingInterface(net, p[i + 1], p[i]);
    KnowsLeads(net, st, before, mid, p[i], d, ia.ip);
    AddressOfInterface(net, a, ia);
    steps, at := Tell(net, st, before, mid, p[i], p[i + 1], iface, d, ia.ip);
    assert p[..i + 2] == p[..i + 1] + [p[i + 1]];
  }

  lemma KnowsLeads(net: seq<Config>, st: NetState, steps: seq<NetStep>, at: NetState, r: nat, d: Ipv4Network, hop: Addr)
    requires GoodNetwork(net) && Initial(net, st) && Early(net, st, steps, at)
    requires r < |net| && d.IsMasked() && !Attached(net[r], d) && Knows(at, r, d, hop)
    ensures |at.nodes| == |net| && LeadsVia(RoutesAt(at, r), d, hop)
  {
    EarlyStates(net, st, steps, at, r);
    EntryLeads(net[r], RoutesAt(at, r), d);
  }

  /** The routers of a relay learn the address of ia as next hop, one from the other. */
  lemma {:induction false} Spread(net: seq<Config>, st: NetState, d: Ipv4Network, a: nat, ia: InterfaceInfo,
                                  p: seq<nat>, i: nat) returns (steps: seq<NetStep>, at: NetState)
    requires GoodNetwork(net) && Initial(net, st) && d.IsMasked()
    requires AtDestination(net, d, a, ia) && Relay(net, d, ia, p) && i < |p|
    ensures Early(net, st, steps, at) && SpreadTo(net, at, d, ia, p, i)
  {
    hide GoodNetwork, Initial, Early, SpreadTo, Relay;
    if i == 0 {
      steps, at := SpreadFirst(net, st, d, a, ia, p);
    } else {
      var before, mid := Spread(net, st, d, a, ia, p, i - 1);
      steps, at := SpreadNext(net, st, d, a, ia, p, i - 1, before, mid);
    }
  }

  lemma StartUntaught(net: seq<Config>, st: NetState, d: Ipv4Network, a: nat)
    requires Initial(net, st) && d.IsMasked() && a < |net| && Attached(net[a], d)
    ensures Early(net, st, [], st) && OthersUntaught(net, st, d, []) && LeadsVia(RoutesAt(st, a), d, UNSPECIFIED)
  {
    forall r | 0 <= r < |net|
      ensures if Attached(net[r], d) then LeadsVia(RoutesAt(st, r), d, UNSPECIFIED)
              else Lookup(RoutesAt(st, r), d) == None
    {
      StartLeads(net, st, d, r);
    }
  }

  /** c learned the next hop b from b itself, although b leads straight on. */
  ghost predicate Taught(net: seq<Config>, at: NetState, d: Ipv4Network, b: nat, ib: InterfaceInfo, c: nat, hop: Addr) {
    && b < |net| && c < |net| && b != c && d.IsMasked() && !Attached(net[b], d) && !Attached(net[c], d)
    && ib in net[b].interfaces && OnSubnet(net[c], ib)
    && Knows(at, b, d, hop) && Knows(at, c, d, ib.ip)
  }

  lemma TeachLast(net: seq<Config>, st: NetState, d: Ipv4Network, a: nat, ia: InterfaceInfo, p: seq<nat>, c: nat)
    returns (steps: seq<NetStep>, at: NetState, ib: InterfaceInfo)
    requires GoodNetwork(net) && Initial(net, st) && d.IsMasked() && Misleads(net, d, a, ia, p, c)
    ensures Early(net, st, steps, at) && Taught(net, at, d, p[|p| - 1], ib, c, ia.ip)
  {
    hide GoodNetwork, Initial, Early, Attached, LeadsVia, OnSubnet;
    var b := p[|p| - 1];
    var before, mid := Spread(net, st, d, a, ia, p, |p| - 1);
    ib := HearingInterface(net, c, b);
    assert c !in p;
    assert p[..|p|] == p;
    KnowsLeads(net, st, before, mid, b, d, ia.ip);
    AddressOfInterface(net, a, ia);
    steps, at := Tell(net, st, before, mid, b, c, ib, d, ia.ip);
  }

  /** The three steps that close the loop: b forgets its route, c broadcasts its own, b hears that. */
  lemma CloseLoop(net: seq<Config>, st: NetState, steps: seq<NetStep>, at: NetState, d: Ipv4Network,
                  b: nat, ib: InterfaceInfo, c: nat, hop: Addr) returns (late: nat, m: Message)
    requires GoodNetwork(net) && Initial(net, st) && Early(net, st, steps, at) && Taught(net, at, d, b, ib, c, hop)
    ensures Enabled(net, at, Sweep(b, late)) && c < |net|
    ensures var forgot := After(net, at, Sweep(b, late));
      && Enabled(net, forgot, Broadcast(c)) && m.entries == RoutesAt(at, c)
      && var told := After(net, forgot, Broadcast(c));
      && Enabled(net, told, Deliver(b, m, late)) && Forwards(net, After(net, told, Deliver(b, m, late)), d, b, b)
  {
    hide GoodNetwork, Initial, Early, LeadsVia, Reaches;
    EarlyStates(net, st, steps, at, b);
    late := ForgetState(net, at, b, d, 0);
    var forgot := After(net, at, Sweep(b, late));
    NodeStaysOrderly(net, at, Sweep(b, late));
    HearingInterfaceIsMutual(net, b, ib, c);
    var ic := HearingInterface(net, b, c);
    KnowsLeads(net, st, steps, at, c, d, ib.ip);
    m := TellAt(net, forgot, c, b, ic, d, ib.ip, late);
    OwnHopIsKept(net, b, ib, ic.ip);
  }

  lemma HearingInterfaceIsMutual(net: seq<Config>, b: nat, ib: InterfaceInfo, c: nat)
    requires b < |net| && c < |net| && b != c && ib in net[b].interfaces && OnSubnet(net[c], ib)
    ensures Hears(net, b, c)
  {
    var i :| 0 <= i < |net[b].interfaces| && net[b].interfaces[i] == ib;
    HearingIsMutual(net, c, b);
  }

  /** How many cleanups the run contains. */
  ghost function Sweeps(steps: seq<NetStep>): nat {
    if steps == [] then 0
    else Sweeps(steps[..|steps| - 1]) + if steps[|steps| - 1].Sweep? then 1 else 0
  }

  lemma SweepsSnoc(steps: seq<NetStep>, step: NetStep)
    ensures Sweeps(steps + [step]) == Sweeps(steps) + if step.Sweep? then 1 else 0
  {
    assert (steps + [step])[..|steps|] == steps;
  }

  lemma {:induction false} NoSweeps(steps: seq<NetStep>)
    requires UpdateOnly(steps)
    ensures Sweeps(steps) == 0
  {
    if steps != [] {
      assert steps[|steps| - 1] in steps;
      NoSweeps(steps[..|steps| - 1]);
    }
  }

  lemma MisleadingRun(net: seq<Config>, st: NetState, d: Ipv4Network, a: nat, ia: InterfaceInfo, p: seq<nat>, c: nat)
    returns (steps: seq<NetStep>)
    requires GoodNetwork(net) && Initial(net, st) && d.IsMasked() && Misleads(net, d, a, ia, p, c)
    ensures IsRun(net, st, steps) && MonotoneClock(steps) && Sweeps(steps) == 1 && forall s :: s in steps ==> Calm(s)
    ensures Forwards(net, RunOf(net, st, steps), d, p[|p| - 1], p[|p| - 1])
  {
    hide GoodNetwork, Initial, Taught, Forwards, Enabled, Hears, Reaches, Attached;
    var early, at, ib := TeachLast(net, st, d, a, ia, p, c);
    var late, m := CloseLoop(net, st, early, at, d, p[|p| - 1], ib, c, ia.ip);
    steps := EndRun(net, st, early, at, p[|p| - 1], c, late, m);
  }

  /** Wherever something can be misled, a run from the start with a monotone clock, with a single
      cleanup and without overflow ends with a router that forwards packets for d to itself. */
  lemma {:induction false} CleanupBreaksLoopFreedom(net: seq<Config>, st: NetState, d: Ipv4Network, a: nat,
                                                    ia: InterfaceInfo, p: seq<nat>, c: nat)
    requires GoodNetwork(net) && Initial(net, st) && d.IsMasked() && Misleads(net, d, a, ia, p, c)
    ensures exists steps ::
      && IsRun(net, st, steps) && MonotoneClock(steps) && Sweeps(steps) == 1 && (forall s :: s in steps ==> Calm(s))
      && Forwards(net, RunOf(net, st, steps), d, p[|p| - 1], p[|p| - 1])
  {
    hide GoodNetwork, Initial, Forwards, Hears, Reaches, Attached, MonotoneClock, Calm;
    var steps := MisleadingRun(net, st, d, a, ia, p, c);
  }

  lemma EndRun(net: seq<Config>, st: NetState, early: seq<NetStep>, at: NetState, b: nat, c: nat, late: nat, m: Message)
    returns (steps: seq<NetStep>)
    requires GoodNetwork(net) && Initial(net, st) && Early(net, st, early, at)
    requires Enabled(net, at, Sweep(b, late)) && c < |net| && m.entries == RoutesAt(at, c)
    requires var forgot := After(net, at, Sweep(b, late));
      Enabled(net, forgot, Broadcast(c)) && Enabled(net, After(net, forgot, Broadcast(c)), Deliver(b, m, late))
    ensures IsRun(net, st, steps) && MonotoneClock(steps) && Sweeps(steps) == 1 && forall s :: s in steps ==> Calm(s)
    ensures RunOf(net, st, steps)
         == After(net, After(net, After(net, at, Sweep(b, late)), Broadcast(c)), Deliver(b, m, late))
  {
    EarlyIsCalm(net, st, early, at, c);
    hide GoodNetwork, Initial, Enabled, UpdateOnly, AllAt, Calm, MonotoneClock;
    var s1, s2, s3 := Sweep(b, late), Broadcast(c), Deliver(b, m, late);
    RunExtends(net, st, early, s1);
    RunExtends(net, st, early + [s1], s2);
    RunExtends(net, st, early + [s1] + [s2], s3);
    steps := early + [s1] + [s2] + [s3];
    EndShape(early, b, c, late, m);
  }

  lemma EndShape(early: seq<NetStep>, b: nat, c: nat, late: nat, m: Message)
    requires UpdateOnly(early) && AllAt(early, 0) && forall s :: s in early ==> Calm(s)
    requires forall e :: e in m.entries ==> e.metric < U32_MAX
    ensures var steps := early + [Sweep(b, late)] + [Broadcast(c)] + [Deliver(b, m, late)];
      MonotoneClock(steps) && Sweeps(steps) == 1 && forall s :: s in steps ==> Calm(s)
  {
    hide UpdateOnly, AllAt, Calm, MonotoneClock, Sweeps;
    var steps := early + [Sweep(b, late)] + [Broadcast(c)] + [Deliver(b, m, late)];
    EndIsEndsWith(early, steps, b, c, late, m);
    EndIsMonotone(early, steps, b, c, late, m);
    EndSweepsOnce(early, b, c, late, m);
    EndIsCalm(early, steps, b, c, late, m);
  }

  lemma EndIsEndsWith(early: seq<NetStep>, steps: seq<NetStep>, b: nat, c: nat, late: nat, m: Message)
    requires steps == early + [Sweep(b, late)] + [Broadcast(c)] + [Deliver(b, m, late)]
    ensures EndsWith(early, steps, b, c, late, m)
  {
    assert forall i :: 0 <= i < |early| ==> steps[i] == early[i];
  }

  /** Steps at time 0 without cleanup, then a cleanup of b at late, a broadcast of c, and a delivery to b at late. */
  ghost predicate EndsWith(early: seq<NetStep>, steps: seq<NetStep>, b: nat, c: nat, late: nat, m: Message) {
    && |steps| == |early| + 3
    && (forall i :: 0 <= i < |early| ==> steps[i] in early)
    && steps[|early|] == Sweep(b, late) && steps[|early| + 1] == Broadcast(c)
    && steps[|early| + 2] == Deliver(b, m, late)
  }

  lemma EndIsMonotone(early: seq<NetStep>, steps: seq<NetStep>, b: nat, c: nat, late: nat, m: Message)
    requires AllAt(early, 0) && EndsWith(early, steps, b, c, late, m)
    ensures MonotoneClock(steps)
  {
  }

  lemma EndSweepsOnce(early: seq<NetStep>, b: nat, c: nat, late: nat, m: Message)
    requires UpdateOnly(early)
    ensures Sweeps(early + [Sweep(b, late)] + [Broadcast(c)] + [Deliver(b, m, late)]) == 1
  {
    NoSweeps(early);
    SweepsSnoc(early, Sweep(b, late));
    SweepsSnoc(early + [Sweep(b, late)], Broadcast(c));
    SweepsSnoc(early + [Sweep(b, late)] + [Broadcast(c)], Deliver(b, m, late));
  }

  lemma EndIsCalm(early: seq<NetStep>, steps: seq<NetStep>, b: nat, c: nat, late: nat, m: Message)
    requires EndsWith(early, steps, b, c, late, m) && forall s :: s in early ==> Calm(s)
    requires forall e :: e in m.entries ==> e.metric < U32_MAX
    ensures forall s :: s in steps ==> Calm(s)
  {
    forall s | s in steps
      ensures Calm(s)
    {
      var i :| 0 <= i < |steps| && steps[i] == s;
      assert i < |early| ==> s in early;
    }
  }

  lemma EarlyIsCalm(net: seq<Config>, st: NetState, early: seq<NetStep>, at: NetState, c: nat)
    requires GoodNetwork(net) && Initial(net, st) && Early(net, st, early, at) && c < |net|
    ensures |at.nodes| == |net| && forall e :: e in RoutesAt(at, c) ==> e.metric < U32_MAX
    ensures forall s :: s in early ==> Calm(s)
  {
    hide GoodNetwork, Initial;
    EarlyStates(net, st, early, at, c);
    InitialInv(net, st);
    UpdateRunsAreCalm(net, st, early);
    forall e | e in RoutesAt(at, c)
      ensures e.metric < U32_MAX
    {
      BackedIsSmall(net, at, c, e);
    }
  }

  // ----- the exact condition

  /** Following next hops for d from the first router of p comes back to it. */
  ghost predicate ForwardingCycle(net: seq<Config>, st: NetState, d: Ipv4Network, p: seq<nat>) {
    |p| >= 2 && ForwardingPath(net, st, d, p) && p[0] == p[|p| - 1]
  }

  ghost predicate CanLoop(net: seq<Config>, st: NetState, d: Ipv4Network) {
    exists steps, p ::
      IsRun(net, st, steps) && MonotoneClock(steps) && ForwardingCycle(net, RunOf(net, st, steps), d, p)
  }

  lemma {:induction false} CycleNeedsMisleading(net: seq<Config>, st: NetState, steps: seq<NetStep>, d: Ipv4Network,
                                                p: seq<nat>)
    requires GoodNetwork(net) && Initial(net, st) && d.IsMasked() && IsRun(net, st, steps)
    requires ForwardingCycle(net, RunOf(net, st, steps), d, p)
    ensures Misleadable(net, d)
  {
    hide GoodNetwork, Initial, Misleadable;
    if !Misleadable(net, d) {
      assert Forwards(net, RunOf(net, st, steps), d, p[0], p[0 + 1]);
      assert Forwards(net, RunOf(net, st, steps), d, p[|p| - 2], p[|p| - 2 + 1]);
      ForwardingIsStraight(net, st, steps, d, p[|p| - 2], p[|p| - 1]);
      assert false;
    }
  }

  /** Loops for d can arise, cleanups included, if and only if the topology can mislead. */
  lemma {:induction false} LoopsIff(net: seq<Config>, st: NetState, d: Ipv4Network)
    requires GoodNetwork(net) && Initial(net, st) && d.IsMasked()
    ensures CanLoop(net, st, d) <==> Misleadable(net, d)
  {
    hide GoodNetwork, Initial, Forwards, Hears, Reaches, Attached, OnSubnet;
    if CanLoop(net, st, d) {
      var steps, p :|
        IsRun(net, st, steps) && MonotoneClock(steps) && ForwardingCycle(net, RunOf(net, st, steps), d, p);
      CycleNeedsMisleading(net, st, steps, d, p);
    }
    if Misleadable(net, d) {
      var a: nat, ia, p: seq<nat>, c: nat :| Misleads(net, d, a, ia, p, c);
      MisleadingLoops(net, st, d, a, ia, p, c);
    }
  }

  lemma MisleadingLoops(net: seq<Config>, st: NetState, d: Ipv4Network, a: nat, ia: InterfaceInfo, p: seq<nat>, c: nat)
    requires GoodNetwork(net) && Initial(net, st) && d.IsMasked() && Misleads(net, d, a, ia, p, c)
    ensures CanLoop(net, st, d)
  {
    hide GoodNetwork, Initial, Forwards, Hears, Reaches, Attached, OnSubnet, MonotoneClock, Calm;
    var b := p[|p| - 1];
    var steps := MisleadingRun(net, st, d, a, ia, p, c);
    assert ForwardingCycle(net, RunOf(net, st, steps), d, [b, b]);
  }

  // ----- in terms of subnets

  /** Three routers in a row: d is at a, b is on the subnet of a's interface ia, c hears b but is
      not on that subnet, and neither b nor c is at d. */
  ghost predicate Chain(net: seq<Config>, d: Ipv4Network, a: nat, ia: InterfaceInfo, b: nat, c: nat) {
    && AtDestination(net, d, a, ia)
    && b < |net| && OnSubnet(net[b], ia) && !Attached(net[b], d)
    && Hears(net, c, b) && !OnSubnet(net[c], ia) && !Attached(net[c], d)
  }

  lemma ReachingIsBeingOnSubnet(net: seq<Config>, a: nat, ia: InterfaceInfo, r: nat)
    requires GoodNetwork(net) && SubnetsDisjoint(net) && a < |net| && ia in net[a].interfaces && r < |net|
    ensures Reaches(net[r].interfaces, ia.ip) <==> OnSubnet(net[r], ia)
  {
    var j :| 0 <= j < |net[a].interfaces| && net[a].interfaces[j] == ia;
    assert GoodInterface(net[a].interfaces[j]);
    assert net[a].interfaces[j].network.Contains(ia.ip);
    if OnSubnet(net[r], ia) {
      HeardSenderIsInside(net[r], ia);
    }
  }

  lemma ChainMisleads(net: seq<Config>, d: Ipv4Network)
    requires GoodNetwork(net) && SubnetsDisjoint(net)
    ensures Misleadable(net, d) <==> exists a: nat, ia, b: nat, c: nat :: Chain(net, d, a, ia, b, c)
  {
    hide GoodNetwork, SubnetsDisjoint, Attached, Reaches;
    if Misleadable(net, d) {
      var a: nat, ia, p: seq<nat>, c: nat :| Misleads(net, d, a, ia, p, c);
      var b := p[|p| - 1];
      ReachingIsBeingOnSubnet(net, a, ia, b);
      ReachingIsBeingOnSubnet(net, a, ia, c);
      assert Chain(net, d, a, ia, b, c);
    }
    if a: nat, ia, b: nat, c: nat :| Chain(net, d, a, ia, b, c) {
      ReachingIsBeingOnSubnet(net, a, ia, b);
      ReachingIsBeingOnSubnet(net, a, ia, c);
      assert Relay(net, d, ia, [b]) && [b][|[b]| - 1] == b;
      assert Misleads(net, d, a, ia, [b], c);
    }
  }

  /** Where distinct subnets have no address in common, loops for d can arise if and only if some
      three routers form a chain for d. */
  lemma {:induction false} LoopsIffChain(net: seq<Config>, st: NetState, d: Ipv4Network)
    requires GoodNetwork(net) && SubnetsDisjoint(net) && Initial(net, st) && d.IsMasked()
    ensures CanLoop(net, st, d) <==> exists a: nat, ia, b: nat, c: nat :: Chain(net, d, a, ia, b, c)
  {
    hide GoodNetwork, SubnetsDisjoint, Initial, CanLoop, Misleadable, Chain;
    LoopsIff(net, st, d);
    ChainMisleads(net, d);
  }
}
