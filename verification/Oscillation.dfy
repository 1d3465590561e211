/** Next hops need not settle: which ones a router can have while its metric is the distance, and
    exactly when it can go on exchanging them. */
module Oscillation {
  import opened Ipv4
  import opened Routes
  import opened Nodes
  import opened Invariants
  import opened Interleaving
  import opened Network
  import opened UpdateRuns
  import opened CleanupRuns
  import opened Convergence
  import opened Teaching

  // ----- the next hops of shortest routes

  /** Router r is on the subnet of the interface iface of another router s. */
  ghost predicate OnSubnetOf(net: seq<Config>, r: nat, s: nat, iface: InterfaceInfo) {
    r < |net| && s < |net| && r != s && iface in net[s].interfaces && OnSubnet(net[r], iface)
  }

  /** Router r is at distance j from d, and hop arises as next hop along some shortest path. */
  ghost predicate CanLead(net: seq<Config>, d: Ipv4Network, r: nat, j: nat, hop: Addr)
    decreases j
  {
    AtDistance(net, r, d, j) &&
    if j == 0 then hop == UNSPECIFIED
    else exists s: nat, iface, h ::
      OnSubnetOf(net, r, s, iface) && CanLead(net, d, s, j - 1, h) && hop == NextHopFor(h, iface.ip, net[r].interfaces)
  }

  lemma LeadsOver(net: seq<Config>, d: Ipv4Network, r: nat, s: nat, iface: InterfaceInfo, j: nat, h: Addr)
    requires OnSubnetOf(net, r, s, iface) && CanLead(net, d, s, j, h) && AtDistance(net, r, d, j + 1)
    ensures CanLead(net, d, r, j + 1, NextHopFor(h, iface.ip, net[r].interfaces))
  {
    assert CanLead(net, d, s, j + 1 - 1, h);
  }

  /** If an entry of router r for d, in its table or in a message it sent, has the distance as its
      metric, its next hop is one of those. */
  ghost predicate LeadsShortest(net: seq<Config>, d: Ipv4Network, r: nat, e: RouteEntry) {
    e.destination.Masked() == d && AtDistance(net, r, d, e.metric) ==> CanLead(net, d, r, e.metric, e.nextHop)
  }

  ghost predicate AllShortest(net: seq<Config>, st: NetState, d: Ipv4Network) {
    && |st.nodes| == |net|
    && (forall r, e :: 0 <= r < |net| && e in RoutesAt(st, r) ==> LeadsShortest(net, d, r, e))
    && (forall m, e :: m in st.sent && e in m.entries ==> m.sender < |net| && LeadsShortest(net, d, m.sender, e))
  }

  lemma WithinOneMore(net: seq<Config>, r: nat, s: nat, d: Ipv4Network, k: nat)
    requires Hears(net, r, s) && Within(net, s, d, k)
    ensures Within(net, r, d, k + 1)
  {
    var j, p :| 0 <= j <= k && Walk(net, d, p, j) && p[0] == s;
    var q := [r] + p;
    forall i | 0 <= i < j + 1
      ensures Hears(net, q[i], q[i + 1])
    {
      if i > 0 {
        assert Hears(net, p[i - 1], p[i - 1 + 1]);
      }
    }
    assert q[j + 1] == p[j];
    assert Walk(net, d, q, j + 1) && q[0] == r;
  }

  /** One hop before distance k + 1 there is no router closer than k. */
  lemma DistanceBefore(net: seq<Config>, r: nat, s: nat, d: Ipv4Network, k: nat)
    requires Hears(net, r, s) && Within(net, s, d, k) && AtDistance(net, r, d, k + 1)
    ensures AtDistance(net, s, d, k)
  {
    hide Within, Hears;
    forall i: nat | i < k
      ensures !Within(net, s, d, i)
    {
      if Within(net, s, d, i) {
        WithinOneMore(net, r, s, d, i);
      }
    }
  }

  lemma LearnedLeadsShortest(net: seq<Config>, d: Ipv4Network, r: nat, m: Message, e: RouteEntry, x: RouteEntry)
    requires Sendable(net, m) && Hears(net, r, m.sender) && OnSubnet(net[r], m.iface)
    requires Walked(net, m.sender, e) && LeadsShortest(net, d, m.sender, e)
    requires LearnedFrom(net[r], m, e, x) && e.metric < U32_MAX
    ensures LeadsShortest(net, d, r, x)
  {
    MaskingIsCanonical(e.destination);
    if x.destination.Masked() == d && AtDistance(net, r, d, x.metric) {
      assert Within(net, m.sender, d, e.metric);
      DistanceBefore(net, r, m.sender, d, e.metric);
      LeadsOver(net, d, r, m.sender, m.iface, e.metric, e.nextHop);
    }
  }

  lemma StepKeepsShortest(net: seq<Config>, st: NetState, step: NetStep, d: Ipv4Network)
    requires GoodNetwork(net) && Grounded(net, st) && AllShortest(net, st, d) && Enabled(net, st, step) && Calm(step)
    ensures AllShortest(net, After(net, st, step), d)
  {
    hide GoodNetwork, LeadsShortest, WellFormed, Walked, LearnedFrom, Hears, OnSubnet;
    var st' := After(net, st, step);
    StepEntries(net, st, step);
    forall r, x | 0 <= r < |net| && x in RoutesAt(st', r)
      ensures LeadsShortest(net, d, r, x)
    {
      if x !in RoutesAt(st, r) {
        var e :| e in step.m.entries && LearnedFrom(net[step.router], step.m, e, x);
        LearnedLeadsShortest(net, d, r, step.m, e, x);
      }
    }
  }

  lemma InitialShortest(net: seq<Config>, st: NetState, d: Ipv4Network)
    requires Initial(net, st)
    ensures AllShortest(net, st, d)
  {
    forall r, e | 0 <= r < |net| && e in RoutesAt(st, r)
      ensures LeadsShortest(net, d, r, e)
    {
      assert Fresh(net[r], st.nodes[r]);
      WellFormedMember(net[r], RoutesAt(st, r), e);
    }
  }

  lemma {:induction false} RunKeepsShortest(net: seq<Config>, st: NetState, steps: seq<NetStep>, d: Ipv4Network)
    requires GoodNetwork(net) && Grounded(net, st) && AllShortest(net, st, d)
    requires IsRun(net, st, steps) && forall s :: s in steps ==> Calm(s)
    ensures AllShortest(net, RunOf(net, st, steps), d)
  {
    hide GoodNetwork, Grounded, AllShortest, Calm;
    if steps != [] {
      var front := steps[..|steps| - 1];
      RunKeepsShortest(net, st, front, d);
      RunKeepsGrounded(net, st, front);
      StepKeepsShortest(net, RunOf(net, st, front), steps[|steps| - 1], d);
    }
  }

  /** In every run without overflow, cleanups included, an entry whose metric is the distance leads
      via a hop that arises along a shortest path. */
  lemma {:induction false} ShortestRoutesLead(net: seq<Config>, st: NetState, steps: seq<NetStep>, r: nat,
                                              e: RouteEntry)
    requires GoodNetwork(net) && Initial(net, st) && IsRun(net, st, steps) && forall s :: s in steps ==> Calm(s)
    requires r < |net| && e in RoutesAt(RunOf(net, st, steps), r)
    requires AtDistance(net, r, e.destination.Masked(), e.metric)
    ensures CanLead(net, e.destination.Masked(), r, e.metric, e.nextHop)
  {
    hide GoodNetwork, Initial, Grounded, Calm, CanLead, AtDistance;
    InitialGrounded(net, st);
    InitialShortest(net, st, e.destination.Masked());
    RunKeepsShortest(net, st, steps, e.destination.Masked());
  }

  // ----- each of them can come back

  lemma HearingOn(net: seq<Config>, r: nat, s: nat, iface: InterfaceInfo)
    requires OnSubnetOf(net, r, s, iface)
    ensures Hears(net, r, s)
  {
    var i :| 0 <= i < |net[s].interfaces| && net[s].interfaces[i] == iface;
    assert OnSubnet(net[r], net[s].interfaces[i]);
  }

  /** At distance j a router's route is never better than j. */
  lemma NotBelowDistance(net: seq<Config>, st: NetState, d: Ipv4Network, r: nat, j: nat)
    requires Inv(net, st) && d.IsMasked() && r < |net| && AtDistance(net, r, d, j) && Lookup(RoutesAt(st, r), d).Some?
    ensures Lookup(RoutesAt(st, r), d).value.metric >= j
  {
    var x := Lookup(RoutesAt(st, r), d).value;
    LookupMember(RoutesAt(st, r), x);
    assert Backed(net, st, r, x) && d.Masked() == d;
    var p :| Witness(net, st, d, p, x.metric) && p[0] == r;
    assert Within(net, r, d, x.metric);
  }

  /** What a router at distance k + 1 makes of hearing a router at distance k: it takes that route, whatever it held. */
  lemma ShortestIsTaken(net: seq<Config>, st: NetState, r: nat, m: Message, now: nat, d: Ipv4Network, k: Metric,
                        hop: Addr)
    requires GoodNetwork(net) && Enabled(net, st, Deliver(r, m, now)) && WellFormed(net[r], RoutesAt(st, r))
    requires d.IsMasked() && !Attached(net[r], d) && r != m.sender && Tells(m.entries, d, k, hop) && k < U32_MAX
    requires Lookup(RoutesAt(st, r), d).Some? ==> Lookup(RoutesAt(st, r), d).value.metric >= k + 1
    ensures Tells(RoutesAt(After(net, st, Deliver(r, m, now)), r), d, k + 1,
                  NextHopFor(hop, m.iface.ip, net[r].interfaces))
  {
    var rs, rs' := RoutesAt(st, r), NodeAfter(net, st, Deliver(r, m, now)).table.routes;
    var e :| e in m.entries && e.destination.Masked() == d;
    DeliveryTakesOffer(net, st, r, m, now, e);
    DeliveryOutcome(net, st, r, m, now);
    EntryLeads(net[r], rs', d);
    if Lookup(rs', d) == Lookup(rs, d) {
      UnchangedIsShortest(net, st, r, m, now, d, e);
    } else {
      hide GoodNetwork, Candidate, WellFormed, Attached, NodeAfter, NotWorse;
      var e' :| e' in m.entries && LearnedFrom(net[r], m, e', Lookup(rs', d).value);
    }
  }

  lemma UnchangedIsShortest(net: seq<Config>, st: NetState, r: nat, m: Message, now: nat, d: Ipv4Network, e: RouteEntry)
    requires GoodNetwork(net) && Enabled(net, st, Deliver(r, m, now)) && WellFormed(net[r], RoutesAt(st, r))
    requires d.IsMasked() && !Attached(net[r], d) && r != m.sender && e in m.entries && e.destination.Masked() == d
    requires e.metric < U32_MAX
    requires Lookup(RoutesAt(st, r), d).Some? ==> Lookup(RoutesAt(st, r), d).value.metric >= e.metric + 1
    requires Lookup(NodeAfter(net, st, Deliver(r, m, now)).table.routes, d) == Lookup(RoutesAt(st, r), d)
    ensures var x := Lookup(RoutesAt(st, r), d);
      && x.Some? && x.value.metric == e.metric + 1
      && x.value.nextHop == NextHopFor(e.nextHop, m.iface.ip, net[r].interfaces)
  {
    DeliveryAccepts(net, st, r, m, now, e);
    DeliveryTakesOffer(net, st, r, m, now, e);
    hide GoodNetwork, Enabled, Candidate, WellFormed, Attached, NodeAfter;
  }

  lemma ReadyToHear(net: seq<Config>, at: NetState, d: Ipv4Network, r: nat, k: nat)
    requires Inv(net, at) && d.IsMasked() && r < |net| && AtDistance(net, r, d, k + 1)
    ensures |at.nodes| == |net| && WellFormed(net[r], RoutesAt(at, r)) && !Attached(net[r], d)
    ensures Lookup(RoutesAt(at, r), d).Some? ==> Lookup(RoutesAt(at, r), d).value.metric >= k + 1
  {
    FarIsUnattached(net, r, d, k + 1);
    if Lookup(RoutesAt(at, r), d).Some? {
      NotBelowDistance(net, at, d, r, k + 1);
    }
    hide AtDistance, Backed;
  }

  /** Router s, holding a route for d of metric k, broadcasts on iface, and r at distance k + 1 receives it. */
  lemma HearShortest(net: seq<Config>, at: NetState, d: Ipv4Network, r: nat, s: nat, iface: InterfaceInfo, k: nat,
                     hop: Addr, now: nat) returns (m: Message)
    requires GoodNetwork(net) && Inv(net, at) && d.IsMasked()
    requires OnSubnetOf(net, r, s, iface) && AtDistance(net, r, d, k + 1)
    requires k < U32_MAX && Tells(RoutesAt(at, s), d, k, hop)
    ensures Enabled(net, at, Broadcast(s)) && Enabled(net, After(net, at, Broadcast(s)), Deliver(r, m, now))
    ensures var sent := After(net, at, Broadcast(s));
      var to := After(net, sent, Deliver(r, m, now));
      && |at.nodes| == |sent.nodes| == |to.nodes| == |net| && RoutesAt(sent, r) == RoutesAt(at, r)
      && SameOthers(at, to, r)
      && Tells(RoutesAt(to, r), d, k + 1, NextHopFor(hop, iface.ip, net[r].interfaces))
  {
    hide GoodNetwork, Inv, Tells, AtDistance, WellFormed, Attached;
    ReadyToHear(net, at, d, r, k);
    m := CanSend(net, at, s, r, iface, now);
    ShortestIsTaken(net, After(net, at, Broadcast(s)), r, m, now, d, k, hop);
  }

  // ----- counting the changes

  /** The next hop of r's route for d changes while its metric is j before and after. */
  ghost predicate Swings(st: NetState, st': NetState, r: nat, d: Ipv4Network, j: nat) {
    && r < |st.nodes| == |st'.nodes|
    && var e, e' := Lookup(RoutesAt(st, r), d), Lookup(RoutesAt(st', r), d);
    e.Some? && e'.Some? && e.value.metric == e'.value.metric == j && e.value.nextHop != e'.value.nextHop
  }

  /** In how many steps of the run it does. */
  ghost function HopSwings(net: seq<Config>, st: NetState, steps: seq<NetStep>, r: nat, d: Ipv4Network, j: nat): nat
    requires IsRun(net, st, steps)
  {
    if steps == [] then 0
    else
      var front := steps[..|steps| - 1];
      HopSwings(net, st, front, r, d, j)
      + if Swings(RunOf(net, st, front), RunOf(net, st, steps), r, d, j) then 1 else 0
  }

  lemma HopSwingsExtend(net: seq<Config>, st: NetState, steps: seq<NetStep>, step: NetStep, r: nat, d: Ipv4Network,
                        j: nat)
    requires IsRun(net, st, steps) && IsRun(net, st, steps + [step])
    ensures HopSwings(net, st, steps + [step], r, d, j) == HopSwings(net, st, steps, r, d, j)
      + if Swings(RunOf(net, st, steps), RunOf(net, st, steps + [step]), r, d, j) then 1 else 0
  {
    hide Swings;
    assert (steps + [step])[..|steps|] == steps;
  }

  lemma HopSwingsOfTwo(net: seq<Config>, st: NetState, steps: seq<NetStep>, s1: NetStep, s2: NetStep, r: nat,
                       d: Ipv4Network, j: nat)
    requires IsRun(net, st, steps) && IsRun(net, st, steps + [s1]) && IsRun(net, st, steps + [s1] + [s2])
    requires var at, mid := RunOf(net, st, steps), RunOf(net, st, steps + [s1]);
      r < |at.nodes| == |mid.nodes| && RoutesAt(at, r) == RoutesAt(mid, r)
    ensures HopSwings(net, st, steps + [s1] + [s2], r, d, j) >= HopSwings(net, st, steps, r, d, j)
      + if Swings(RunOf(net, st, steps), RunOf(net, st, steps + [s1] + [s2]), r, d, j) then 1 else 0
  {
    hide IsRun, RunOf;
    HopSwingsExtend(net, st, steps, s1, r, d, j);
    HopSwingsExtend(net, st, steps + [s1], s2, r, d, j);
  }

  lemma InstantTwice(net: seq<Config>, st: NetState, steps: seq<NetStep>, s: nat, r: nat, m: Message, now: nat,
                     d: Ipv4Network, j: nat) returns (more: seq<NetStep>)
    requires Instant(net, st, steps, now)
    requires var at := RunOf(net, st, steps);
      && Enabled(net, at, Broadcast(s)) && Enabled(net, After(net, at, Broadcast(s)), Deliver(r, m, now))
      && r < |at.nodes| == |After(net, at, Broadcast(s)).nodes|
      && RoutesAt(After(net, at, Broadcast(s)), r) == RoutesAt(at, r)
    ensures Instant(net, st, more, now) && steps <= more
    ensures RunOf(net, st, more) == After(net, After(net, RunOf(net, st, steps), Broadcast(s)), Deliver(r, m, now))
    ensures HopSwings(net, st, more, r, d, j) >= HopSwings(net, st, steps, r, d, j)
      + if Swings(RunOf(net, st, steps), RunOf(net, st, more), r, d, j) then 1 else 0
  {
    hide Enabled, After, Swings, HopSwings, UpdateOnly, AllAt;
    InstantExtends(net, st, steps, Broadcast(s), now);
    InstantExtends(net, st, steps + [Broadcast(s)], Deliver(r, m, now), now);
    more := steps + [Broadcast(s)] + [Deliver(r, m, now)];
    HopSwingsOfTwo(net, st, steps, Broadcast(s), Deliver(r, m, now), r, d, j);
  }

  lemma {:induction false} HopSwingsGrow(net: seq<Config>, st: NetState, steps: seq<NetStep>, more: seq<NetStep>,
                                         r: nat, d: Ipv4Network, j: nat)
    requires IsRun(net, st, steps) && IsRun(net, st, more) && steps <= more
    ensures HopSwings(net, st, steps, r, d, j) <= HopSwings(net, st, more, r, d, j)
  {
    if |steps| < |more| {
      HopSwingsGrow(net, st, steps, more[..|more| - 1], r, d, j);
    } else {
      assert steps == more;
    }
  }

  // ----- runs to every such hop

  /** more continues steps at the same time to a state in which r's route for d has metric j and leads
      via hop; if that is a change of hop at metric j, it is counted. */
  ghost predicate LedOn(net: seq<Config>, st: NetState, steps: seq<NetStep>, more: seq<NetStep>, d: Ipv4Network,
                        r: nat, j: nat, hop: Addr, now: nat)
    requires IsRun(net, st, steps)
  {
    && Instant(net, st, more, now) && steps <= more && r < |RunOf(net, st, more).nodes|
    && (j <= U32_MAX && Tells(RoutesAt(RunOf(net, st, more), r), d, j, hop))
    && HopSwings(net, st, more, r, d, j) >= HopSwings(net, st, steps, r, d, j)
         + if Swings(RunOf(net, st, steps), RunOf(net, st, more), r, d, j) then 1 else 0
  }

  lemma LastHop(net: seq<Config>, st: NetState, steps: seq<NetStep>, d: Ipv4Network, r: nat, s: nat,
                iface: InterfaceInfo, k: nat, hop: Addr, now: nat) returns (more: seq<NetStep>)
    requires GoodNetwork(net) && Inv(net, st) && d.IsMasked() && Instant(net, st, steps, now)
    requires OnSubnetOf(net, r, s, iface) && AtDistance(net, r, d, k + 1)
    requires s < |RunOf(net, st, steps).nodes| && k < U32_MAX && Tells(RoutesAt(RunOf(net, st, steps), s), d, k, hop)
    ensures LedOn(net, st, steps, more, d, r, k + 1, NextHopFor(hop, iface.ip, net[r].interfaces), now)
    ensures |RunOf(net, st, steps).nodes| == |net| && SameOthers(RunOf(net, st, steps), RunOf(net, st, more), r)
  {
    assert r < |net|;
    RunKeepsInv(net, st, steps);
    hide GoodNetwork, Inv, Enabled, AtDistance, Tells, OnSubnetOf, After, SameOthers, Swings, HopSwings, IsRun, RunOf,
      UpdateOnly, AllAt;
    var m := HearShortest(net, RunOf(net, st, steps), d, r, s, iface, k, hop, now);
    more := InstantTwice(net, st, steps, s, r, m, now, d, k + 1);
  }

  /** Nothing changes at routers farther from d than j. */
  ghost predicate FartherSame(net: seq<Config>, d: Ipv4Network, j: nat, at: NetState, to: NetState) {
    && |at.nodes| == |to.nodes| == |net|
    && (forall q: nat, i: nat :: q < |net| && i > j && AtDistance(net, q, d, i) ==> RoutesAt(to, q) == RoutesAt(at, q))
  }

  lemma OneDistance(net: seq<Config>, r: nat, d: Ipv4Network, i: nat, j: nat)
    requires AtDistance(net, r, d, i) && AtDistance(net, r, d, j)
    ensures i == j
  {
  }

  lemma TellsIsSmall(net: seq<Config>, st: NetState, r: nat, d: Ipv4Network, k: Metric, hop: Addr)
    requires GoodNetwork(net) && Inv(net, st) && r < |net| && Tells(RoutesAt(st, r), d, k, hop)
    ensures k < |net| <= U32_MAX
  {
    var e :| e in RoutesAt(st, r) && e.destination.Masked() == d;
    BackedIsSmall(net, st, r, e);
  }

  lemma FartherStill(net: seq<Config>, d: Ipv4Network, j: nat, r: nat, at: NetState, mid: NetState, to: NetState)
    requires FartherSame(net, d, j, at, mid) && SameOthers(mid, to, r) && AtDistance(net, r, d, j + 1)
    ensures FartherSame(net, d, j + 1, at, to)
  {
    hide AtDistance;
    forall q: nat, i: nat | q < |net| && i > j + 1 && AtDistance(net, q, d, i)
      ensures RoutesAt(to, q) == RoutesAt(at, q)
    {
      if q == r {
        OneDistance(net, r, d, i, j + 1);
      }
    }
  }

  lemma LedOnAfter(net: seq<Config>, st: NetState, steps: seq<NetStep>, mid: seq<NetStep>, more: seq<NetStep>,
                   d: Ipv4Network, r: nat, j: nat, hop: Addr, now: nat)
    requires IsRun(net, st, steps) && IsRun(net, st, mid) && steps <= mid
    requires LedOn(net, st, mid, more, d, r, j, hop, now)
    requires var at, later := RunOf(net, st, steps), RunOf(net, st, mid);
      r < |at.nodes| == |later.nodes| && RoutesAt(at, r) == RoutesAt(later, r)
    ensures LedOn(net, st, steps, more, d, r, j, hop, now)
  {
    hide IsRun, RunOf, Tells, Instant;
    HopSwingsGrow(net, st, steps, mid, r, d, j);
  }

  lemma LeadFrom(net: seq<Config>, st: NetState, steps: seq<NetStep>, d: Ipv4Network, r: nat, hop: Addr, now: nat)
    requires GoodNetwork(net) && Inv(net, st) && d.IsMasked() && Instant(net, st, steps, now)
    requires CanLead(net, d, r, 0, hop)
    ensures LedOn(net, st, steps, steps, d, r, 0, hop, now)
    ensures FartherSame(net, d, 0, RunOf(net, st, steps), RunOf(net, st, steps))
  {
    RunKeepsInv(net, st, steps);
    var j, p :| 0 <= j <= 0 && Walk(net, d, p, j) && p[0] == r;
    assert WellFormed(net[r], RoutesAt(RunOf(net, st, steps), r));
    AttachedTells(net[r], RoutesAt(RunOf(net, st, steps), r), d);
  }

  /** The one entry at the end of some shortest path is brought along that path. */
  lemma {:induction false} LeadAgain(net: seq<Config>, st: NetState, steps: seq<NetStep>, d: Ipv4Network, r: nat,
                                     j: nat, hop: Addr, now: nat) returns (more: seq<NetStep>)
    requires GoodNetwork(net) && Inv(net, st) && d.IsMasked() && Instant(net, st, steps, now)
    requires CanLead(net, d, r, j, hop)
    ensures LedOn(net, st, steps, more, d, r, j, hop, now)
    ensures FartherSame(net, d, j, RunOf(net, st, steps), RunOf(net, st, more))
    decreases j
  {
    hide GoodNetwork, Inv, Tells, AtDistance, OnSubnet, HopSwings, Swings, IsRun, RunOf, UpdateOnly, AllAt, NextHopFor,
      FartherSame;
    if j == 0 {
      LeadFrom(net, st, steps, d, r, hop, now);
      more := steps;
    } else {
      var s: nat, iface, h :| OnSubnetOf(net, r, s, iface) && CanLead(net, d, s, j - 1, h)
                              && hop == NextHopFor(h, iface.ip, net[r].interfaces);
      var mid := LeadAgain(net, st, steps, d, s, j - 1, h, now);
      more := LeadNext(net, st, steps, mid, d, r, s, iface, j - 1, h, now);
    }
  }

  lemma LeadNext(net: seq<Config>, st: NetState, steps: seq<NetStep>, mid: seq<NetStep>, d: Ipv4Network, r: nat, s: nat,
                 iface: InterfaceInfo, k: nat, h: Addr, now: nat) returns (more: seq<NetStep>)
    requires GoodNetwork(net) && Inv(net, st) && d.IsMasked() && Instant(net, st, steps, now)
    requires OnSubnetOf(net, r, s, iface) && AtDistance(net, r, d, k + 1)
    requires LedOn(net, st, steps, mid, d, s, k, h, now)
    requires FartherSame(net, d, k, RunOf(net, st, steps), RunOf(net, st, mid))
    ensures LedOn(net, st, steps, more, d, r, k + 1, NextHopFor(h, iface.ip, net[r].interfaces), now)
    ensures FartherSame(net, d, k + 1, RunOf(net, st, steps), RunOf(net, st, more))
  {
    assert r < |net| && s < |net|;
    RunKeepsInv(net, st, mid);
    hide GoodNetwork, Inv, Tells, AtDistance, OnSubnetOf, HopSwings, Swings, IsRun, RunOf, UpdateOnly, AllAt,
      SameOthers;
    TellsIsSmall(net, RunOf(net, st, mid), s, d, k, h);
    more := LastHop(net, st, mid, d, r, s, iface, k, h, now);
    LedOnAfter(net, st, steps, mid, more, d, r, k + 1, NextHopFor(h, iface.ip, net[r].interfaces), now);
    FartherStill(net, d, k, r, RunOf(net, st, steps), RunOf(net, st, mid), RunOf(net, st, more));
  }

  // ----- the exact condition

  /** Two different hops arise along shortest paths from r to d. */
  ghost predicate TwoHopsLead(net: seq<Config>, d: Ipv4Network, r: nat, j: nat) {
    exists h, h' :: h != h' && CanLead(net, d, r, j, h) && CanLead(net, d, r, j, h')
  }

  lemma TableLeadsShortest(net: seq<Config>, st: NetState, r: nat, d: Ipv4Network, j: nat)
    requires AllShortest(net, st, d) && r < |net| && d.IsMasked() && AtDistance(net, r, d, j)
    requires Lookup(RoutesAt(st, r), d).Some? && Lookup(RoutesAt(st, r), d).value.metric == j
    requires Distinct(RoutesAt(st, r))
    ensures CanLead(net, d, r, j, Lookup(RoutesAt(st, r), d).value.nextHop)
  {
    hide CanLead, AtDistance;
    var e := Lookup(RoutesAt(st, r), d).value;
    LookupMember(RoutesAt(st, r), e);
    assert LeadsShortest(net, d, r, e) && d.Masked() == d;
  }

  /** What the runs of this section start from. */
  ghost predicate Reached(net: seq<Config>, st: NetState, d: Ipv4Network) {
    Inv(net, st) && Grounded(net, st) && AllShortest(net, st, d)
  }

  lemma {:induction false} RunKeepsReached(net: seq<Config>, st: NetState, steps: seq<NetStep>, d: Ipv4Network)
    requires GoodNetwork(net) && Reached(net, st, d) && IsRun(net, st, steps) && UpdateOnly(steps)
    ensures Reached(net, RunOf(net, st, steps), d)
  {
    hide GoodNetwork, Inv, Grounded, AllShortest;
    UpdateRunsAreCalm(net, st, steps);
    RunKeepsInv(net, st, steps);
    RunKeepsGrounded(net, st, steps);
    RunKeepsShortest(net, st, steps, d);
  }

  lemma SwingNeedsTwo(net: seq<Config>, st: NetState, st': NetState, r: nat, d: Ipv4Network, j: nat)
    requires Reached(net, st, d) && Reached(net, st', d) && r < |net|
    requires d.IsMasked() && AtDistance(net, r, d, j) && Swings(st, st', r, d, j)
    ensures TwoHopsLead(net, d, r, j)
  {
    assert WellFormed(net[r], RoutesAt(st, r)) && WellFormed(net[r], RoutesAt(st', r));
    hide Inv, Grounded, AllShortest, CanLead, AtDistance;
    TableLeadsShortest(net, st, r, d, j);
    TableLeadsShortest(net, st', r, d, j);
  }

  lemma {:induction false} SwingsNeedTwo(net: seq<Config>, st: NetState, steps: seq<NetStep>, r: nat, d: Ipv4Network,
                                         j: nat)
    requires GoodNetwork(net) && Reached(net, st, d) && IsRun(net, st, steps) && UpdateOnly(steps) && r < |net|
    requires d.IsMasked() && AtDistance(net, r, d, j) && HopSwings(net, st, steps, r, d, j) >= 1
    ensures TwoHopsLead(net, d, r, j)
  {
    hide GoodNetwork, Reached, AtDistance, TwoHopsLead, Swings;
    var front := steps[..|steps| - 1];
    if HopSwings(net, st, front, r, d, j) >= 1 {
      SwingsNeedTwo(net, st, front, r, d, j);
    } else {
      RunKeepsReached(net, st, front, d);
      RunKeepsReached(net, st, steps, d);
      SwingNeedsTwo(net, RunOf(net, st, front), RunOf(net, st, steps), r, d, j);
    }
  }

  /** n more steps that exchange r's next hop, all at time now. */
  ghost predicate CanSwing(net: seq<Config>, st: NetState, r: nat, d: Ipv4Network, j: nat, now: nat, n: nat) {
    exists steps :: Instant(net, st, steps, now) && HopSwings(net, st, steps, r, d, j) >= n
  }

  lemma TellsOne(rs: seq<RouteEntry>, d: Ipv4Network, k: Metric, hop: Addr, cfg: Config)
    requires Tells(rs, d, k, hop) && WellFormed(cfg, rs) && d.IsMasked() && !Attached(cfg, d)
    ensures Lookup(rs, d).Some? && Lookup(rs, d).value.metric == k && Lookup(rs, d).value.nextHop == hop
  {
    var e :| e in rs && e.destination.Masked() == d;
    WellFormedMember(cfg, rs, e);
    assert IsOurNetwork(cfg.interfaces, e.destination) ==> Attached(cfg, d);
  }

  lemma DifferentHopsSwing(net: seq<Config>, st: NetState, st': NetState, r: nat, d: Ipv4Network, j: Metric, hop: Addr,
                           hop': Addr)
    requires Inv(net, st) && Inv(net, st') && r < |net| && d.IsMasked() && !Attached(net[r], d) && hop != hop'
    requires Tells(RoutesAt(st, r), d, j, hop) && Tells(RoutesAt(st', r), d, j, hop')
    ensures Swings(st, st', r, d, j)
  {
    assert WellFormed(net[r], RoutesAt(st, r)) && WellFormed(net[r], RoutesAt(st', r));
    hide Inv, Tells, WellFormed, Attached;
    TellsOne(RoutesAt(st, r), d, j, hop, net[r]);
    TellsOne(RoutesAt(st', r), d, j, hop', net[r]);
  }

  lemma DistanceInRange(net: seq<Config>, r: nat, d: Ipv4Network, j: nat)
    requires AtDistance(net, r, d, j)
    ensures r < |net|
  {
    var i, p :| 0 <= i <= j && Walk(net, d, p, i) && p[0] == r;
  }

  /** One more exchange of the next hop. */
  lemma SwingOnce(net: seq<Config>, st: NetState, steps: seq<NetStep>, d: Ipv4Network, r: nat, j: nat, hop: Addr,
                  hop': Addr, now: nat) returns (more: seq<NetStep>)
    requires GoodNetwork(net) && Inv(net, st) && d.IsMasked() && Instant(net, st, steps, now) && hop != hop'
    requires 1 <= j <= U32_MAX && CanLead(net, d, r, j, hop') && r < |RunOf(net, st, steps).nodes|
    requires Tells(RoutesAt(RunOf(net, st, steps), r), d, j, hop)
    ensures Instant(net, st, more, now) && HopSwings(net, st, more, r, d, j) >= HopSwings(net, st, steps, r, d, j) + 1
    ensures r < |RunOf(net, st, more).nodes| && Tells(RoutesAt(RunOf(net, st, more), r), d, j, hop')
  {
    DistanceInRange(net, r, d, j);
    FarIsUnattached(net, r, d, j);
    more := LeadAgain(net, st, steps, d, r, j, hop', now);
    RunKeepsInv(net, st, steps);
    RunKeepsInv(net, st, more);
    hide GoodNetwork, Inv, CanLead, HopSwings, Swings, IsRun, RunOf, UpdateOnly, AllAt, Tells, FartherSame, Attached;
    DifferentHopsSwing(net, RunOf(net, st, steps), RunOf(net, st, more), r, d, j, hop, hop');
  }

  lemma {:induction false} SwingOn(net: seq<Config>, st: NetState, d: Ipv4Network, r: nat, j: nat, hop: Addr,
                                   hop': Addr, now: nat, n: nat) returns (steps: seq<NetStep>)
    requires GoodNetwork(net) && Inv(net, st) && d.IsMasked() && 1 <= j
    requires CanLead(net, d, r, j, hop) && CanLead(net, d, r, j, hop') && hop != hop'
    ensures Instant(net, st, steps, now) && HopSwings(net, st, steps, r, d, j) >= n
    ensures r < |RunOf(net, st, steps).nodes| && j <= U32_MAX
    ensures Tells(RoutesAt(RunOf(net, st, steps), r), d, j, if n % 2 == 0 then hop else hop')
    decreases n
  {
    hide GoodNetwork, Inv, CanLead, HopSwings, Swings, Tells, FartherSame;
    if n == 0 {
      assert Instant(net, st, [], now);
      steps := LeadAgain(net, st, [], d, r, j, hop, now);
    } else {
      hide IsRun, RunOf, UpdateOnly, AllAt, Instant;
      var front := SwingOn(net, st, d, r, j, hop, hop', now, n - 1);
      if n % 2 == 0 {
        steps := SwingOnce(net, st, front, d, r, j, hop', hop, now);
      } else {
        steps := SwingOnce(net, st, front, d, r, j, hop, hop', now);
      }
    }
  }

  lemma TwoSwing(net: seq<Config>, st: NetState, d: Ipv4Network, r: nat, j: nat, now: nat, n: nat)
    requires GoodNetwork(net) && Inv(net, st) && d.IsMasked() && 1 <= j && TwoHopsLead(net, d, r, j)
    ensures CanSwing(net, st, r, d, j, now, n)
  {
    hide GoodNetwork, Inv, CanLead, HopSwings, Tells, IsRun, RunOf, UpdateOnly, AllAt;
    var hop, hop' :| hop != hop' && CanLead(net, d, r, j, hop) && CanLead(net, d, r, j, hop');
    var steps := SwingOn(net, st, d, r, j, hop, hop', now, n);
  }

  lemma PastIsReached(net: seq<Config>, st: NetState, past: seq<NetStep>, d: Ipv4Network)
    requires GoodNetwork(net) && Initial(net, st) && IsRun(net, st, past) && UpdateOnly(past)
    ensures Reached(net, RunOf(net, st, past), d) && Inv(net, RunOf(net, st, past))
  {
    InitialInv(net, st);
    InitialGrounded(net, st);
    InitialShortest(net, st, d);
    hide GoodNetwork, Initial, Inv, Grounded, AllShortest;
    RunKeepsReached(net, st, past, d);
  }

  /** Whatever happened before, as long as there is no cleanup: router r at distance j from d changes
      its next hop while its metric is j, in some continuation once and in some continuation at any
      one time n times for every n, if and only if two hops arise along shortest paths. */
  lemma {:induction false} OscillatesIff(net: seq<Config>, st: NetState, past: seq<NetStep>, r: nat, d: Ipv4Network,
                                         j: nat, now: nat)
    requires GoodNetwork(net) && Initial(net, st) && IsRun(net, st, past) && UpdateOnly(past)
    requires d.IsMasked() && 1 <= j && AtDistance(net, r, d, j)
    ensures var at := RunOf(net, st, past);
      && (TwoHopsLead(net, d, r, j) <==>
            exists steps :: IsRun(net, at, steps) && UpdateOnly(steps) && HopSwings(net, at, steps, r, d, j) >= 1)
      && (TwoHopsLead(net, d, r, j) <==> forall n: nat :: CanSwing(net, at, r, d, j, now, n))
  {
    hide GoodNetwork, Initial, Inv, Reached, TwoHopsLead, AtDistance, HopSwings;
    DistanceInRange(net, r, d, j);
    PastIsReached(net, st, past, d);
    var at := RunOf(net, st, past);
    if TwoHopsLead(net, d, r, j) {
      forall n: nat
        ensures CanSwing(net, at, r, d, j, now, n)
      {
        TwoSwing(net, at, d, r, j, now, n);
      }
    }
    assert CanSwing(net, at, r, d, j, now, 1) ==>
      exists steps :: IsRun(net, at, steps) && UpdateOnly(steps) && HopSwings(net, at, steps, r, d, j) >= 1;
    if steps :| IsRun(net, at, steps) && UpdateOnly(steps) && HopSwings(net, at, steps, r, d, j) >= 1 {
      SwingsNeedTwo(net, at, steps, r, d, j);
    }
  }

  lemma HopIsForced(net: seq<Config>, st: NetState, st': NetState, r: nat, d: Ipv4Network, j: nat)
    requires Reached(net, st, d) && Reached(net, st', d) && Progress(net, st, st') && r < |net|
    requires d.IsMasked() && AtDistance(net, r, d, j) && !TwoHopsLead(net, d, r, j) && KnowsDistance(st, r, d, j)
    ensures Lookup(RoutesAt(st', r), d).Some? && Lookup(RoutesAt(st', r), d).value.metric == j
    ensures Lookup(RoutesAt(st', r), d).value.nextHop == Lookup(RoutesAt(st, r), d).value.nextHop
  {
    assert WellFormed(net[r], RoutesAt(st, r)) && WellFormed(net[r], RoutesAt(st', r));
    assert NotWorse(RoutesAt(st, r), RoutesAt(st', r));
    NotBelowDistance(net, st', d, r, j);
    hide Inv, Grounded, AllShortest, CanLead, AtDistance;
    TableLeadsShortest(net, st, r, d, j);
    TableLeadsShortest(net, st', r, d, j);
  }

  /** Where only one hop arises, the next hop stays as it is once the metric is the distance. */
  lemma {:induction false} SingleHopStays(net: seq<Config>, st: NetState, past: seq<NetStep>, steps: seq<NetStep>,
                                          r: nat, d: Ipv4Network, j: nat)
    requires GoodNetwork(net) && Initial(net, st) && IsRun(net, st, past) && UpdateOnly(past)
    requires d.IsMasked() && AtDistance(net, r, d, j) && !TwoHopsLead(net, d, r, j)
    requires KnowsDistance(RunOf(net, st, past), r, d, j)
    requires IsRun(net, RunOf(net, st, past), steps) && UpdateOnly(steps)
    ensures var at := RunOf(net, st, past);
      var to := RunOf(net, at, steps);
      && r < |to.nodes| && Lookup(RoutesAt(to, r), d).Some? && Lookup(RoutesAt(to, r), d).value.metric == j
      && Lookup(RoutesAt(to, r), d).value.nextHop == Lookup(RoutesAt(at, r), d).value.nextHop
  {
    hide GoodNetwork, Initial, Inv, Reached, TwoHopsLead, AtDistance;
    DistanceInRange(net, r, d, j);
    PastIsReached(net, st, past, d);
    var at := RunOf(net, st, past);
    RunKeepsInv(net, at, steps);
    RunKeepsReached(net, at, steps, d);
    HopIsForced(net, at, RunOf(net, at, steps), r, d, j);
  }

  // ----- one hop away

  /** Router r is off d and on the subnet of interface ia of router a, which is at d. */
  ghost predicate NextTo(net: seq<Config>, d: Ipv4Network, r: nat, a: nat, ia: InterfaceInfo) {
    r < |net| && !Attached(net[r], d) && AtDestination(net, d, a, ia) && OnSubnet(net[r], ia)
  }

  lemma NeighborLeads(net: seq<Config>, d: Ipv4Network, r: nat, a: nat, ia: InterfaceInfo)
    requires NextTo(net, d, r, a, ia)
    ensures AtDistance(net, r, d, 1) && CanLead(net, d, r, 1, ia.ip)
  {
    HearingOn(net, r, a, ia);
    AttachedIsWithin(net, a, d);
    WithinOneMore(net, r, a, d, 0);
    LeadsOver(net, d, r, a, ia, 0, UNSPECIFIED);
  }

  /** So a router on the subnets of two interfaces of routers at d, with different addresses, can
      exchange them as next hops for ever. */
  lemma {:induction false} NeighborsOscillate(net: seq<Config>, st: NetState, past: seq<NetStep>, d: Ipv4Network,
                                              r: nat, a: nat, ia: InterfaceInfo, b: nat, ib: InterfaceInfo, now: nat,
                                              n: nat)
    requires GoodNetwork(net) && Initial(net, st) && IsRun(net, st, past) && UpdateOnly(past) && d.IsMasked()
    requires NextTo(net, d, r, a, ia) && NextTo(net, d, r, b, ib) && ia.ip != ib.ip
    ensures CanSwing(net, RunOf(net, st, past), r, d, 1, now, n)
  {
    hide GoodNetwork, Initial, CanLead, AtDistance, CanSwing;
    NeighborLeads(net, d, r, a, ia);
    NeighborLeads(net, d, r, b, ib);
    OscillatesIff(net, st, past, r, d, 1, now);
  }
}
