/** Runs without cleanup: next hops descend towards the destination, every metric is witnessed
    by a simple path, and so no metric can overflow. */
module UpdateRuns {
  import opened Options
  import opened Ipv4
  import opened Routes
  import opened Nodes
  import opened Invariants
  import opened Interleaving
  import opened Network

  function RoutesAt(st: NetState, r: nat): seq<RouteEntry>
    requires r < |st.nodes|
  {
    st.nodes[r].table.routes
  }

  /** Router r is at d, or has an entry for it of metric at most k. */
  ghost predicate MetricAtMost(net: seq<Config>, st: NetState, r: nat, d: Ipv4Network, k: int) {
    && r < |net| == |st.nodes|
    && (Attached(net[r], d) || (Lookup(RoutesAt(st, r), d).Some? && Lookup(RoutesAt(st, r), d).value.metric <= k))
  }

  ghost predicate Simple(p: seq<nat>) {
    forall i, j :: 0 <= i < j < |p| ==> p[i] != p[j]
  }

  /** A simple path of k hops to d whose i-th router has metric at most k - i. */
  ghost predicate Witness(net: seq<Config>, st: NetState, d: Ipv4Network, p: seq<nat>, k: nat) {
    && Walk(net, d, p, k)
    && Simple(p)
    && (forall i :: 0 <= i <= k ==> MetricAtMost(net, st, p[i], d, k - i))
  }

  /** The owner of hop is at d, or has an entry for it of a metric below k. */
  ghost predicate HopDescends(net: seq<Config>, st: NetState, hop: Addr, d: Ipv4Network, k: int) {
    exists o :: Owns(net, o, hop) && MetricAtMost(net, st, o, d, k - 1)
  }

  /** What holds of an entry of router r, in its table or in a message it sent. */
  ghost predicate Backed(net: seq<Config>, st: NetState, r: nat, e: RouteEntry) {
    var d := e.destination.Masked();
    && r < |net|
    && (e.source == Direct ==> e.nextHop == UNSPECIFIED && Attached(net[r], d))
    && (e.source == Protocol ==> e.metric >= 1 && HopDescends(net, st, e.nextHop, d, e.metric))
    && e.source != Static
    && exists p :: Witness(net, st, d, p, e.metric) && p[0] == r
  }

  ghost predicate AllWellFormed(net: seq<Config>, st: NetState) {
    |st.nodes| == |net| && forall r :: 0 <= r < |net| ==> WellFormed(net[r], RoutesAt(st, r))
  }

  ghost predicate Inv(net: seq<Config>, st: NetState) {
    && AllWellFormed(net, st)
    && (forall r, e :: 0 <= r < |net| && e in RoutesAt(st, r) ==> Backed(net, st, r, e))
    && (forall m, e :: m in st.sent && e in m.entries ==> m.sender < |net| && Backed(net, st, m.sender, e))
  }

  /** From st to st' no router got worse. */
  ghost predicate Progress(net: seq<Config>, st: NetState, st': NetState) {
    && |st.nodes| == |st'.nodes| == |net|
    && (forall r :: 0 <= r < |net| ==> NotWorse(RoutesAt(st, r), RoutesAt(st', r)))
  }

  lemma MetricStays(net: seq<Config>, st: NetState, st': NetState, r: nat, d: Ipv4Network, k: int)
    requires Progress(net, st, st') && MetricAtMost(net, st, r, d, k)
    ensures MetricAtMost(net, st', r, d, k)
  {
    assert NotWorse(RoutesAt(st, r), RoutesAt(st', r));
  }

  lemma WitnessStays(net: seq<Config>, st: NetState, st': NetState, d: Ipv4Network, p: seq<nat>, k: nat)
    requires Progress(net, st, st') && Witness(net, st, d, p, k)
    ensures Witness(net, st', d, p, k)
  {
    forall i | 0 <= i <= k
      ensures MetricAtMost(net, st', p[i], d, k - i)
    {
      MetricStays(net, st, st', p[i], d, k - i);
    }
  }

  lemma BackedStays(net: seq<Config>, st: NetState, st': NetState, r: nat, e: RouteEntry)
    requires Progress(net, st, st') && r < |net| && Backed(net, st, r, e)
    ensures Backed(net, st', r, e)
  {
    var d := e.destination.Masked();
    var p :| Witness(net, st, d, p, e.metric) && p[0] == r;
    WitnessStays(net, st, st', d, p, e.metric);
    if e.source == Protocol {
      var o :| Owns(net, o, e.nextHop) && MetricAtMost(net, st, o, d, e.metric - 1);
      MetricStays(net, st, st', o, d, e.metric - 1);
    }
  }

  // ----- counting routers

  lemma {:induction false} RangeBound(s: set<nat>, n: nat)
    requires forall x :: x in s ==> x < n
    ensures |s| <= n
  {
    if n == 0 {
      assert s == {};
    } else {
      RangeBound(s - {n - 1}, n - 1);
    }
  }

  ghost function Members(p: seq<nat>): set<nat> {
    set x | x in p
  }

  lemma {:induction false} SimpleIsShort(p: seq<nat>, n: nat)
    requires Simple(p) && forall i :: 0 <= i < |p| ==> p[i] < n
    ensures |p| <= n
  {
    SimpleCount(p);
    RangeBound(Members(p), n);
  }

  lemma {:induction false} SimpleCount(p: seq<nat>)
    requires Simple(p)
    ensures |Members(p)| == |p|
  {
    if p == [] {
      assert Members(p) == {};
    } else {
      var front, last := p[..|p| - 1], p[|p| - 1];
      SimpleCount(front);
      assert Members(p) == Members(front) + {last};
    }
  }

  /** Unique non-zero 32-bit addresses bound the number of routers. */
  lemma FewRouters(net: seq<Config>)
    requires GoodNetwork(net)
    ensures |net| <= U32_MAX
  {
    var first := seq(|net|, r requires 0 <= r < |net| => FirstAddress(net[r]) - 1);
    forall r, s | 0 <= r < s < |net|
      ensures first[r] != first[s]
    {
      assert Owns(net, r, FirstAddress(net[r])) && Owns(net, s, FirstAddress(net[s]));
    }
    SimpleIsShort(first, U32_MAX);
  }

  ghost function FirstAddress(cfg: Config): (a: Addr)
    requires GoodRouter(cfg)
    ensures a > 0
  {
    assert GoodInterface(cfg.interfaces[0]);
    cfg.interfaces[0].ip
  }

  lemma WitnessIsShort(net: seq<Config>, st: NetState, d: Ipv4Network, p: seq<nat>, k: nat)
    requires GoodNetwork(net) && Witness(net, st, d, p, k)
    ensures k < |net| <= U32_MAX
  {
    SimpleIsShort(p, |net|);
    FewRouters(net);
  }

  // ----- one step

  /** No router on a path behind a message entry of metric k is one that just got k + 1. */
  lemma NotOnWitness(net: seq<Config>, st: NetState, st': NetState, d: Ipv4Network, p: seq<nat>, k: nat, r: nat, i: nat)
    requires Progress(net, st, st') && Witness(net, st, d, p, k) && i <= k
    requires r < |net| && !Attached(net[r], d)
    requires Lookup(RoutesAt(st', r), d).Some? && Lookup(RoutesAt(st', r), d).value.metric == k + 1
    ensures p[i] != r
  {
    assert MetricAtMost(net, st, p[i], d, k - i);
    MetricStays(net, st, st', p[i], d, k - i);
  }

  lemma WitnessExtends(net: seq<Config>, st: NetState, d: Ipv4Network, p: seq<nat>, k: nat, r: nat)
    requires Witness(net, st, d, p, k) && Hears(net, r, p[0]) && r !in p && MetricAtMost(net, st, r, d, k + 1)
    ensures Witness(net, st, d, [r] + p, k + 1)
  {
    var q := [r] + p;
    forall i | 0 <= i <= k + 1
      ensures q[i] < |net| && MetricAtMost(net, st, q[i], d, k + 1 - i)
    {
      if i > 0 {
        assert q[i] == p[i - 1] && MetricAtMost(net, st, p[i - 1], d, k - (i - 1));
      }
    }
    forall i | 0 <= i < k + 1
      ensures Hears(net, q[i], q[i + 1])
    {
      if i > 0 {
        assert q[i] == p[i - 1] && q[i + 1] == p[i - 1 + 1];
      }
    }
    assert q[k + 1] == p[k];
  }

  lemma LearnedHopDescends(net: seq<Config>, st: NetState, st': NetState, cfg: Config, m: Message, e: RouteEntry,
                           x: RouteEntry)
    requires Progress(net, st, st') && Sendable(net, m) && Backed(net, st, m.sender, e)
    requires forall i :: 0 <= i < |net[m.sender].interfaces| ==> GoodInterface(net[m.sender].interfaces[i])
    requires LearnedFrom(cfg, m, e, x) && x.metric == e.metric + 1
    ensures HopDescends(net, st', x.nextHop, x.destination, x.metric)
  {
    var d, k := x.destination, e.metric;
    if x.nextHop == m.iface.ip {
      var p :| Witness(net, st, d, p, k) && p[0] == m.sender;
      assert MetricAtMost(net, st, p[0], d, k - 0);
      MetricStays(net, st, st', m.sender, d, k);
      assert Owns(net, m.sender, x.nextHop);
    } else {
      var o :| Owns(net, o, e.nextHop) && MetricAtMost(net, st, o, d, k - 1);
      MetricStays(net, st, st', o, d, k - 1);
      assert MetricAtMost(net, st', o, d, x.metric - 1);
    }
  }

  /** A learned entry extends the simple path behind the entry it was learned from. */
  lemma LearnedWitness(net: seq<Config>, st: NetState, st': NetState, d: Ipv4Network, p: seq<nat>, k: nat, r: nat)
    requires Progress(net, st, st') && Witness(net, st, d, p, k) && Hears(net, r, p[0]) && !Attached(net[r], d)
    requires Lookup(RoutesAt(st', r), d).Some? && Lookup(RoutesAt(st', r), d).value.metric == k + 1
    ensures Witness(net, st', d, [r] + p, k + 1)
  {
    forall i | 0 <= i <= k
      ensures p[i] != r
    {
      NotOnWitness(net, st, st', d, p, k, r, i);
    }
    WitnessStays(net, st, st', d, p, k);
    WitnessExtends(net, st', d, p, k, r);
  }

  lemma LearnedIsBacked(net: seq<Config>, st: NetState, st': NetState, r: nat, m: Message, e: RouteEntry, x: RouteEntry)
    requires Progress(net, st, st') && Sendable(net, m) && Backed(net, st, m.sender, e) && e.metric < U32_MAX
    requires forall i :: 0 <= i < |net[m.sender].interfaces| ==> GoodInterface(net[m.sender].interfaces[i])
    requires Hears(net, r, m.sender) && LearnedFrom(net[r], m, e, x)
    requires x.destination.Masked() == x.destination && !Attached(net[r], x.destination)
    requires Lookup(RoutesAt(st', r), x.destination) == Some(x)
    ensures Backed(net, st', r, x)
  {
    var d, k := x.destination, e.metric;
    LearnedHopDescends(net, st, st', net[r], m, e, x);
    var p :| Witness(net, st, d, p, k) && p[0] == m.sender;
    LearnedWitness(net, st, st', d, p, k, r);
    assert ([r] + p)[0] == r;
  }

  lemma BackedIsSmall(net: seq<Config>, st: NetState, r: nat, e: RouteEntry)
    requires GoodNetwork(net) && Backed(net, st, r, e)
    ensures e.metric < |net| <= U32_MAX
  {
    var p :| Witness(net, st, e.destination.Masked(), p, e.metric) && p[0] == r;
    WitnessIsShort(net, st, e.destination.Masked(), p, e.metric);
  }

  lemma StepProgress(net: seq<Config>, st: NetState, step: NetStep)
    requires GoodNetwork(net) && AllWellFormed(net, st) && Enabled(net, st, step) && !step.Sweep?
    ensures AllWellFormed(net, After(net, st, step)) && Progress(net, st, After(net, st, step))
  {
    hide GoodNetwork, WellFormed;
    if step.Deliver? {
      DeliveryOutcome(net, st, step.router, step.m, step.now);
    }
  }

  lemma NewEntryIsBacked(net: seq<Config>, st: NetState, r: nat, m: Message, now: nat, x: RouteEntry)
    requires GoodNetwork(net) && Inv(net, st) && Enabled(net, st, Deliver(r, m, now))
    requires x in NodeAfter(net, st, Deliver(r, m, now)).table.routes && x !in RoutesAt(st, r)
    ensures Backed(net, After(net, st, Deliver(r, m, now)), r, x)
  {
    var st' := After(net, st, Deliver(r, m, now));
    StepProgress(net, st, Deliver(r, m, now));
    DeliveryOutcome(net, st, r, m, now);
    WellFormedMember(net[r], RoutesAt(st', r), x);
    LookupMember(RoutesAt(st, r), x);
    assert Lookup(RoutesAt(st, r), x.destination) != Lookup(RoutesAt(st', r), x.destination);
    var e :| e in m.entries && LearnedFrom(net[r], m, e, x);
    assert x.source == Protocol;
    AttachedIffLocal(net[r], x.destination);
    BackedIsSmall(net, st, m.sender, e);
    LearnedIsBacked(net, st, st', r, m, e, x);
  }

  lemma StepKeepsInv(net: seq<Config>, st: NetState, step: NetStep)
    requires GoodNetwork(net) && Inv(net, st) && Enabled(net, st, step) && !step.Sweep?
    ensures Inv(net, After(net, st, step)) && Progress(net, st, After(net, st, step))
  {
    var st' := After(net, st, step);
    StepProgress(net, st, step);
    forall r, e | 0 <= r < |net| && e in RoutesAt(st', r)
      ensures Backed(net, st', r, e)
    {
      if e in RoutesAt(st, r) {
        BackedStays(net, st, st', r, e);
      } else {
        NewEntryIsBacked(net, st, r, step.m, step.now, e);
      }
    }
    forall m, e | m in st'.sent && e in m.entries
      ensures m.sender < |net| && Backed(net, st', m.sender, e)
    {
      if m in st.sent {
        BackedStays(net, st, st', m.sender, e);
      }
    }
  }

  lemma InitialInv(net: seq<Config>, st: NetState)
    requires Initial(net, st)
    ensures Inv(net, st)
  {
    forall r, e | 0 <= r < |net| && e in RoutesAt(st, r)
      ensures Backed(net, st, r, e)
    {
      var d := e.destination.Masked();
      assert Fresh(net[r], st.nodes[r]);
      WellFormedMember(net[r], RoutesAt(st, r), e);
      var i :| 0 <= i < |net[r].interfaces| && net[r].interfaces[i].network == e.destination;
      assert Attached(net[r], d);
      assert MetricAtMost(net, st, [r][0], d, 0);
      assert Witness(net, st, d, [r], 0);
    }
  }

  lemma {:induction false} RunKeepsInv(net: seq<Config>, st: NetState, steps: seq<NetStep>)
    requires GoodNetwork(net) && Inv(net, st) && IsRun(net, st, steps) && UpdateOnly(steps)
    ensures Inv(net, RunOf(net, st, steps)) && Progress(net, st, RunOf(net, st, steps))
  {
    if steps != [] {
      var front := steps[..|steps| - 1];
      RunKeepsInv(net, st, front);
      StepKeepsInv(net, RunOf(net, st, front), steps[|steps| - 1]);
    }
  }

  // ----- loop freedom

  /** In every update-only run the router that owns a protocol entry's next hop is at the
      destination, or has an entry for it with a strictly smaller metric. */
  lemma {:induction false} NextHopsDescend(net: seq<Config>, st: NetState, steps: seq<NetStep>, r: nat, e: RouteEntry)
    requires GoodNetwork(net) && Initial(net, st) && IsRun(net, st, steps) && UpdateOnly(steps)
    requires r < |net| && e in RoutesAt(RunOf(net, st, steps), r) && e.source == Protocol
    ensures HopDescends(net, RunOf(net, st, steps), e.nextHop, e.destination, e.metric)
  {
    InitialInv(net, st);
    RunKeepsInv(net, st, steps);
    WellFormedMember(net[r], RoutesAt(RunOf(net, st, steps), r), e);
    assert Backed(net, RunOf(net, st, steps), r, e);
  }

  /** How far router r believes to be from d; the number of routers when it knows no route. */
  ghost function Rank(net: seq<Config>, st: NetState, r: nat, d: Ipv4Network): nat
    requires r < |net| == |st.nodes|
  {
    if Attached(net[r], d) then 0
    else match Lookup(RoutesAt(st, r), d)
      case Some(e) => e.metric
      case None => |net|
  }

  /** A packet for d at router r is sent on to router s. */
  ghost predicate Forwards(net: seq<Config>, st: NetState, d: Ipv4Network, r: nat, s: nat) {
    && r < |net| == |st.nodes| && !Attached(net[r], d)
    && Lookup(RoutesAt(st, r), d).Some? && Owns(net, s, Lookup(RoutesAt(st, r), d).value.nextHop)
  }

  lemma EntryOffSubnet(net: seq<Config>, st: NetState, d: Ipv4Network, r: nat)
    requires Inv(net, st) && d.IsMasked() && r < |net| && !Attached(net[r], d) && Lookup(RoutesAt(st, r), d).Some?
    ensures var e := Lookup(RoutesAt(st, r), d).value;
      e.source == Protocol && e.metric >= 1 && HopDescends(net, st, e.nextHop, d, e.metric)
  {
    var e := Lookup(RoutesAt(st, r), d).value;
    LookupMember(RoutesAt(st, r), e);
    assert Backed(net, st, r, e) && d.Masked() == d;
  }

  lemma ForwardingDescends(net: seq<Config>, st: NetState, d: Ipv4Network, r: nat, s: nat)
    requires GoodNetwork(net) && Inv(net, st) && d.IsMasked() && Forwards(net, st, d, r, s)
    ensures s < |net| && Rank(net, st, s, d) < Rank(net, st, r, d)
  {
    EntryOffSubnet(net, st, d, r);
    var e := Lookup(RoutesAt(st, r), d).value;
    var o: nat :| Owns(net, o, e.nextHop) && MetricAtMost(net, st, o, d, e.metric - 1);
    assert o == s;
  }

  ghost predicate ForwardingPath(net: seq<Config>, st: NetState, d: Ipv4Network, p: seq<nat>) {
    forall i :: 0 <= i < |p| - 1 ==> Forwards(net, st, d, p[i], p[i + 1])
  }

  lemma {:induction false} DescendingIsStrict(ranks: seq<nat>, i: nat, j: nat)
    requires i < j < |ranks| && forall k :: 0 <= k < |ranks| - 1 ==> ranks[k + 1] < ranks[k]
    ensures ranks[j] + (j - i) <= ranks[i]
  {
    assert ranks[j - 1 + 1] < ranks[j - 1];
    if i < j - 1 {
      DescendingIsStrict(ranks, i, j - 1);
    }
  }

  ghost function Ranks(net: seq<Config>, st: NetState, d: Ipv4Network, p: seq<nat>): seq<nat> {
    seq(|p|, i requires 0 <= i < |p| => if p[i] < |net| == |st.nodes| then Rank(net, st, p[i], d) else 0)
  }

  lemma RanksDescend(net: seq<Config>, st: NetState, d: Ipv4Network, p: seq<nat>)
    requires GoodNetwork(net) && Inv(net, st) && d.IsMasked() && ForwardingPath(net, st, d, p)
    ensures var ranks := Ranks(net, st, d, p);
      forall k :: 0 <= k < |ranks| - 1 ==> ranks[k + 1] < ranks[k]
  {
    var ranks := Ranks(net, st, d, p);
    forall k | 0 <= k < |p| - 1
      ensures ranks[k + 1] < ranks[k]
    {
      assert Forwards(net, st, d, p[k], p[k + 1]);
      ForwardingDescends(net, st, d, p[k], p[k + 1]);
    }
  }

  /** In every update-only run, following next hops for a destination never visits a router twice. */
  lemma {:induction false} ForwardingNeverLoops(net: seq<Config>, st: NetState, steps: seq<NetStep>, d: Ipv4Network,
                                                p: seq<nat>)
    requires GoodNetwork(net) && Initial(net, st) && IsRun(net, st, steps) && UpdateOnly(steps) && d.IsMasked()
    requires ForwardingPath(net, RunOf(net, st, steps), d, p)
    ensures Simple(p)
  {
    hide GoodNetwork, Initial;
    InitialInv(net, st);
    RunKeepsInv(net, st, steps);
    RanksDescend(net, RunOf(net, st, steps), d, p);
    forall i, j | 0 <= i < j < |p|
      ensures p[i] != p[j]
    {
      DescendingIsStrict(Ranks(net, RunOf(net, st, steps), d, p), i, j);
    }
  }

  /** And it takes no more hops than the first router's metric says. */
  lemma {:induction false} ForwardingIsShort(net: seq<Config>, st: NetState, steps: seq<NetStep>, d: Ipv4Network,
                                             p: seq<nat>)
    requires GoodNetwork(net) && Initial(net, st) && IsRun(net, st, steps) && UpdateOnly(steps) && d.IsMasked()
    requires ForwardingPath(net, RunOf(net, st, steps), d, p) && |p| > 1
    ensures Forwards(net, RunOf(net, st, steps), d, p[0], p[1])
    ensures |p| - 1 <= Rank(net, RunOf(net, st, steps), p[0], d)
  {
    hide GoodNetwork, Initial;
    InitialInv(net, st);
    RunKeepsInv(net, st, steps);
    RanksDescend(net, RunOf(net, st, steps), d, p);
    assert Forwards(net, RunOf(net, st, steps), d, p[0], p[0 + 1]);
    DescendingIsStrict(Ranks(net, RunOf(net, st, steps), d, p), 0, |p| - 1);
  }

  /** Nor does it ever stop short: a router that is not at d and has an entry for it forwards to
      one that is at d or has an entry. */
  lemma {:induction false} ForwardingArrives(net: seq<Config>, st: NetState, steps: seq<NetStep>, d: Ipv4Network,
                                             r: nat)
    requires GoodNetwork(net) && Initial(net, st) && IsRun(net, st, steps) && UpdateOnly(steps) && d.IsMasked()
    requires r < |net| && !Attached(net[r], d) && Lookup(RoutesAt(RunOf(net, st, steps), r), d).Some?
    ensures var now := RunOf(net, st, steps);
      exists s: nat :: s < |net| && Forwards(net, now, d, r, s)
                       && (Attached(net[s], d) || Lookup(RoutesAt(now, s), d).Some?)
  {
    InitialInv(net, st);
    RunKeepsInv(net, st, steps);
    var now := RunOf(net, st, steps);
    EntryOffSubnet(net, now, d, r);
    var e := Lookup(RoutesAt(now, r), d).value;
    var o: nat :| Owns(net, o, e.nextHop) && MetricAtMost(net, now, o, d, e.metric - 1);
    assert Forwards(net, now, d, r, o);
  }

  // ----- the metric bound

  /** In every update-only run an entry of metric m is witnessed by a simple path of m hops along
      which metrics descend. */
  lemma {:induction false} MetricsAreWitnessed(net: seq<Config>, st: NetState, steps: seq<NetStep>, r: nat,
                                               e: RouteEntry)
    requires GoodNetwork(net) && Initial(net, st) && IsRun(net, st, steps) && UpdateOnly(steps)
    requires r < |net| && e in RoutesAt(RunOf(net, st, steps), r)
    ensures exists p :: Witness(net, RunOf(net, st, steps), e.destination.Masked(), p, e.metric) && p[0] == r
  {
    hide GoodNetwork, Initial, WellFormed;
    InitialInv(net, st);
    RunKeepsInv(net, st, steps);
    assert Backed(net, RunOf(net, st, steps), r, e);
  }

  /** So metrics stay below the number of routers, and adding one to an advertised metric never overflows. */
  lemma {:induction false} MetricsStayBelowRouters(net: seq<Config>, st: NetState, steps: seq<NetStep>, r: nat,
                                                   e: RouteEntry)
    requires GoodNetwork(net) && Initial(net, st) && IsRun(net, st, steps) && UpdateOnly(steps)
    requires r < |net| && e in RoutesAt(RunOf(net, st, steps), r)
    ensures e.metric < |net| && Inc(e.metric) == e.metric + 1
  {
    hide GoodNetwork, Initial, WellFormed;
    MetricsAreWitnessed(net, st, steps, r, e);
    var d := e.destination.Masked();
    var p :| Witness(net, RunOf(net, st, steps), d, p, e.metric) && p[0] == r;
    WitnessIsShort(net, RunOf(net, st, steps), d, p, e.metric);
  }
}
