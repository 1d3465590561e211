/** With cleanup in the run metrics can be counted up without end, and exactly where that is so
    depends on the topology only. */
module Growth {
  import opened Ipv4
  import opened Routes
  import opened Nodes
  import opened Invariants
  import opened Interleaving
  import opened Timeouts
  import opened Network
  import opened UpdateRuns
  import opened CleanupRuns
  import opened Convergence
  import opened Teaching
  import opened Oscillation

  /** Routers b and c are off d and hear each other. */
  ghost predicate OffPair(net: seq<Config>, d: Ipv4Network, b: nat, c: nat) {
    Hears(net, c, b) && !Attached(net[b], d) && !Attached(net[c], d)
  }

  /** Two routers off d hear each other, and one of them can reach d. */
  ghost predicate Mutual(net: seq<Config>, d: Ipv4Network) {
    exists b: nat, c: nat, j: nat :: OffPair(net, d, b, c) && Within(net, b, d, j)
  }

  lemma PairIsMutual(net: seq<Config>, d: Ipv4Network, b: nat, c: nat, j: nat)
    requires OffPair(net, d, b, c) && Within(net, b, d, j)
    ensures Mutual(net, d)
  {
  }

  // ----- otherwise every metric is 0 or 1

  /** An entry of router r for d, in its table or in a message it sent, was heard at d itself. */
  ghost predicate FirstHand(net: seq<Config>, d: Ipv4Network, r: nat, e: RouteEntry) {
    r < |net| && (e.destination.Masked() == d ==>
                    if Attached(net[r], d) then e.metric == 0 else e.metric == 1 && Within(net, r, d, 1))
  }

  ghost predicate AllFirstHand(net: seq<Config>, st: NetState, d: Ipv4Network) {
    && |st.nodes| == |net|
    && (forall r, e :: 0 <= r < |net| && e in RoutesAt(st, r) ==> FirstHand(net, d, r, e))
    && (forall m, e :: m in st.sent && e in m.entries ==> FirstHand(net, d, m.sender, e))
  }

  lemma LearnedIsFirstHand(net: seq<Config>, d: Ipv4Network, r: nat, m: Message, e: RouteEntry, x: RouteEntry)
    requires !Mutual(net, d) && Hears(net, r, m.sender)
    requires FirstHand(net, d, m.sender, e) && LearnedFrom(net[r], m, e, x)
    requires x.destination.Masked() == x.destination && !Attached(net[r], x.destination)
    ensures FirstHand(net, d, r, x)
  {
    if x.destination == d {
      if Attached(net[m.sender], d) {
        AttachedIsWithin(net, m.sender, d);
        WithinOneMore(net, r, m.sender, d, 0);
      } else {
        PairIsMutual(net, d, m.sender, r, 1);
      }
    }
  }

  lemma StepKeepsFirstHand(net: seq<Config>, st: NetState, step: NetStep, d: Ipv4Network)
    requires GoodNetwork(net) && !Mutual(net, d) && AllOrderly(net, st) && AllFirstHand(net, st, d)
    requires Enabled(net, st, step)
    ensures AllFirstHand(net, After(net, st, step), d)
  {
    hide GoodNetwork, Mutual, FirstHand, Hears;
    var st', cfg := After(net, st, step), net[step.router];
    StepEntries(net, st, step);
    forall x | x in RoutesAt(st', step.router) && x !in RoutesAt(st, step.router)
      ensures FirstHand(net, d, step.router, x)
    {
      var e :| e in step.m.entries && LearnedFrom(cfg, step.m, e, x);
      LearnedOffSubnet(net, step.router, RoutesAt(st', step.router), x);
      LearnedIsFirstHand(net, d, step.router, step.m, e, x);
    }
  }

  lemma InitialFirstHand(net: seq<Config>, st: NetState, d: Ipv4Network)
    requires Initial(net, st)
    ensures AllFirstHand(net, st, d)
  {
    forall r, e | 0 <= r < |net| && e in RoutesAt(st, r)
      ensures FirstHand(net, d, r, e)
    {
      assert Fresh(net[r], st.nodes[r]);
      WellFormedMember(net[r], RoutesAt(st, r), e);
      var i :| 0 <= i < |net[r].interfaces| && net[r].interfaces[i].network == e.destination;
    }
  }

  lemma {:induction false} RunKeepsFirstHand(net: seq<Config>, st: NetState, steps: seq<NetStep>, d: Ipv4Network)
    requires GoodNetwork(net) && Initial(net, st) && IsRun(net, st, steps) && !Mutual(net, d)
    ensures AllFirstHand(net, RunOf(net, st, steps), d)
  {
    hide GoodNetwork, Initial, Mutual;
    if steps == [] {
      InitialFirstHand(net, st, d);
    } else {
      var front := steps[..|steps| - 1];
      RunKeepsFirstHand(net, st, front, d);
      RunIsOrderly(net, st, front);
      StepKeepsFirstHand(net, RunOf(net, st, front), steps[|steps| - 1], d);
    }
  }

  /** In every run, cleanups included, a protocol entry for d then has metric 1, and its router a neighbour at d. */
  lemma {:induction false} MetricsStayOne(net: seq<Config>, st: NetState, steps: seq<NetStep>, d: Ipv4Network, r: nat,
                                          e: RouteEntry)
    requires GoodNetwork(net) && Initial(net, st) && IsRun(net, st, steps) && !Mutual(net, d)
    requires r < |net| && e in RoutesAt(RunOf(net, st, steps), r) && e.source == Protocol && e.destination == d
    ensures e.metric == 1 && AtDistance(net, r, d, 1)
  {
    hide GoodNetwork, Initial, Mutual;
    RunKeepsFirstHand(net, st, steps, d);
    RunIsOrderly(net, st, steps);
    LearnedOffSubnet(net, r, RoutesAt(RunOf(net, st, steps), r), e);
    assert FirstHand(net, d, r, e);
    OffIsFar(net, r, d);
  }

  lemma OffIsFar(net: seq<Config>, r: nat, d: Ipv4Network)
    requires r < |net| && !Attached(net[r], d)
    ensures !Within(net, r, d, 0)
  {
  }

  // ----- counting up

  /** A run with a monotone clock that has not passed t. */
  ghost predicate Clocked(net: seq<Config>, st: NetState, steps: seq<NetStep>, t: nat) {
    && IsRun(net, st, steps) && MonotoneClock(steps)
    && (forall i :: 0 <= i < |steps| && !steps[i].Broadcast? ==> steps[i].now <= t)
  }

  lemma ClockedExtends(net: seq<Config>, st: NetState, steps: seq<NetStep>, t: nat, step: NetStep, t': nat)
    requires Clocked(net, st, steps, t) && Enabled(net, RunOf(net, st, steps), step)
    requires t <= t' && (!step.Broadcast? ==> step.now == t')
    ensures Clocked(net, st, steps + [step], t')
    ensures RunOf(net, st, steps + [step]) == After(net, RunOf(net, st, steps), step)
  {
    hide Enabled;
    RunExtends(net, st, steps, step);
  }

  /** Router b holds a route for d of metric k. */
  ghost predicate Holds(st: NetState, b: nat, d: Ipv4Network, k: Metric) {
    b < |st.nodes| && exists hop :: Tells(RoutesAt(st, b), d, k, hop)
  }

  /** c forgets its route for d and hears the one of b. */
  lemma RaiseAt(net: seq<Config>, at: NetState, d: Ipv4Network, b: nat, c: nat, k: Metric, t: nat)
    returns (late: nat, m: Message)
    requires GoodNetwork(net) && AllOrderly(net, at) && d.IsMasked() && OffPair(net, d, b, c) && Holds(at, b, d, k)
    ensures late >= t && Enabled(net, at, Sweep(c, late))
    ensures var forgot := After(net, at, Sweep(c, late));
      && Enabled(net, forgot, Broadcast(b))
      && var sent := After(net, forgot, Broadcast(b));
      && Enabled(net, sent, Deliver(c, m, late))
      && var to := After(net, sent, Deliver(c, m, late));
      && c < |to.nodes| && Lookup(RoutesAt(to, c), d).Some? && Lookup(RoutesAt(to, c), d).value.metric == Inc(k)
  {
    hide GoodNetwork, Tells, Reaches, OnSubnet, Attached, Orderly;
    var hop :| Tells(RoutesAt(at, b), d, k, hop);
    late := ForgetState(net, at, c, d, t);
    var forgot := After(net, at, Sweep(c, late));
    NodeStaysOrderly(net, at, Sweep(c, late));
    OrderlyIsWellFormed(net[c], forgot.nodes[c]);
    var iface := HearingInterface(net, c, b);
    TellsLeads(RoutesAt(at, b), d, k, hop);
    m := TellAt(net, forgot, b, c, iface, d, hop, late);
  }

  lemma OrderlyIsWellFormed(cfg: Config, n: Node)
    requires Orderly(cfg, n)
    ensures WellFormed(cfg, n.table.routes)
  {
  }

  lemma TellsLeads(rs: seq<RouteEntry>, d: Ipv4Network, k: Metric, hop: Addr)
    requires Tells(rs, d, k, hop)
    ensures LeadsVia(rs, d, hop)
  {
  }

  /** One cleanup and one update carry the metric of b, plus one, to c. */
  lemma Raise(net: seq<Config>, st: NetState, steps: seq<NetStep>, t: nat, d: Ipv4Network, b: nat, c: nat, k: Metric)
    returns (more: seq<NetStep>, t': nat)
    requires GoodNetwork(net) && Initial(net, st) && d.IsMasked() && OffPair(net, d, b, c)
    requires Clocked(net, st, steps, t) && Holds(RunOf(net, st, steps), b, d, k)
    ensures Clocked(net, st, more, t') && Holds(RunOf(net, st, more), c, d, Inc(k))
  {
    assert c < |net| && !Attached(net[c], d);
    hide GoodNetwork, Initial, OffPair, Holds, Enabled, After, AllOrderly, Attached, MonotoneClock, Orderly;
    RunIsOrderly(net, st, steps);
    var late, m := RaiseAt(net, RunOf(net, st, steps), d, b, c, k, t);
    ClockedExtends(net, st, steps, t, Sweep(c, late), late);
    ClockedExtends(net, st, steps + [Sweep(c, late)], late, Broadcast(b), late);
    ClockedExtends(net, st, steps + [Sweep(c, late)] + [Broadcast(b)], late, Deliver(c, m, late), late);
    more, t' := steps + [Sweep(c, late)] + [Broadcast(b)] + [Deliver(c, m, late)], late;
    EntryIsHeld(net, st, more, c, d);
  }

  lemma EntryIsHeld(net: seq<Config>, st: NetState, steps: seq<NetStep>, c: nat, d: Ipv4Network)
    requires Initial(net, st) && IsRun(net, st, steps) && c < |net| && d.IsMasked() && !Attached(net[c], d)
    requires c < |RunOf(net, st, steps).nodes| && Lookup(RoutesAt(RunOf(net, st, steps), c), d).Some?
    ensures Holds(RunOf(net, st, steps), c, d, Lookup(RoutesAt(RunOf(net, st, steps), c), d).value.metric)
  {
    RunIsOrderly(net, st, steps);
    EntryLeads(net[c], RoutesAt(RunOf(net, st, steps), c), d);
  }

  lemma PairTurned(net: seq<Config>, d: Ipv4Network, b: nat, c: nat)
    requires OffPair(net, d, b, c)
    ensures OffPair(net, d, c, b)
  {
    HearingIsMutual(net, c, b);
  }

  /** n such steps, back and forth. */
  lemma {:induction false} Climb(net: seq<Config>, st: NetState, steps: seq<NetStep>, t: nat, d: Ipv4Network, b: nat,
                                 c: nat, k: Metric, n: nat)
    returns (more: seq<NetStep>, t': nat, x: nat, y: nat)
    requires GoodNetwork(net) && Initial(net, st) && d.IsMasked() && OffPair(net, d, b, c)
    requires Clocked(net, st, steps, t) && Holds(RunOf(net, st, steps), b, d, k) && k + n <= U32_MAX
    ensures Clocked(net, st, more, t') && Holds(RunOf(net, st, more), x, d, k + n)
    ensures OffPair(net, d, x, y) && ((x == b && y == c) || (x == c && y == b))
    decreases n
  {
    hide GoodNetwork, Initial, OffPair, Holds, Clocked;
    if n == 0 {
      more, t', x, y := steps, t, b, c;
    } else {
      var mid, t1 := Raise(net, st, steps, t, d, b, c, k);
      PairTurned(net, d, b, c);
      more, t', x, y := Climb(net, st, mid, t1, d, c, b, k + 1, n - 1);
    }
  }

  // ----- the start

  lemma {:induction false} DistanceLeads(net: seq<Config>, d: Ipv4Network, r: nat, j: nat) returns (hop: Addr)
    requires AtDistance(net, r, d, j)
    ensures CanLead(net, d, r, j, hop)
    decreases j
  {
    hide Hears, OnSubnet, AtDistance, Within;
    if j == 0 {
      hop := UNSPECIFIED;
    } else {
      var s := NextOnWalk(net, d, r, j - 1);
      DistanceBefore(net, r, s, d, j - 1);
      var h := DistanceLeads(net, d, s, j - 1);
      var iface := HearingInterface(net, r, s);
      HearsOther(net, r, s);
      LeadsOver(net, d, r, s, iface, j - 1, h);
      hop := NextHopFor(h, iface.ip, net[r].interfaces);
    }
  }

  lemma HearsOther(net: seq<Config>, r: nat, s: nat)
    requires Hears(net, r, s)
    ensures r < |net| && s < |net| && r != s
  {
  }

  lemma NextOnWalk(net: seq<Config>, d: Ipv4Network, r: nat, k: nat) returns (s: nat)
    requires AtDistance(net, r, d, k + 1)
    ensures Hears(net, r, s) && Within(net, s, d, k)
  {
    var i, p :| 0 <= i <= k + 1 && Walk(net, d, p, i) && p[0] == r;
    assert Within(net, r, d, i);
    WalkTail(net, d, p, k);
    s := p[1];
  }

  /** A router within reach of d can learn its route at once. */
  lemma LearnAtOnce(net: seq<Config>, st: NetState, d: Ipv4Network, b: nat, j: nat) returns (steps: seq<NetStep>)
    requires GoodNetwork(net) && Initial(net, st) && d.IsMasked() && AtDistance(net, b, d, j)
    ensures Clocked(net, st, steps, 0) && j <= U32_MAX && Holds(RunOf(net, st, steps), b, d, j)
  {
    InitialInv(net, st);
    assert Instant(net, st, [], 0);
    hide GoodNetwork, Initial, Inv, AtDistance, Tells, HopSwings, Swings, FartherSame, CanLead;
    var hop := DistanceLeads(net, d, b, j);
    steps := LeadAgain(net, st, [], d, b, j, hop, 0);
    InstantIsClocked(net, st, steps);
  }

  lemma InstantIsClocked(net: seq<Config>, st: NetState, steps: seq<NetStep>)
    requires Instant(net, st, steps, 0)
    ensures Clocked(net, st, steps, 0)
  {
    hide IsRun;
    assert forall i :: 0 <= i < |steps| ==> steps[i] in steps;
  }

  /** One of two routers off d that hear each other, one of them at distance j, can come to hold a route
      of any metric from j on. */
  lemma ClimbFromStart(net: seq<Config>, st: NetState, d: Ipv4Network, b: nat, c: nat, j: nat, k: Metric)
    returns (steps: seq<NetStep>, t: nat, x: nat, y: nat)
    requires GoodNetwork(net) && Initial(net, st) && d.IsMasked() && OffPair(net, d, b, c) && AtDistance(net, b, d, j)
    ensures Clocked(net, st, steps, t) && j <= U32_MAX
    ensures OffPair(net, d, x, y) && ((x == b && y == c) || (x == c && y == b))
    ensures Holds(RunOf(net, st, steps), x, d, if k <= j then j else k)
  {
    hide GoodNetwork, Initial, OffPair, Holds, Clocked, AtDistance;
    var first := LearnAtOnce(net, st, d, b, j);
    steps, t, x, y := Climb(net, st, first, 0, d, b, c, j, if k <= j then 0 else k - j);
  }

  // ----- the exact condition

  /** Some run with a monotone clock leads to a protocol entry for d of metric k or more. */
  ghost predicate CanGrow(net: seq<Config>, st: NetState, d: Ipv4Network, k: nat) {
    exists steps, r, e ::
      && IsRun(net, st, steps) && MonotoneClock(steps) && 0 <= r < |net| == |RunOf(net, st, steps).nodes|
      && e in RoutesAt(RunOf(net, st, steps), r) && e.source == Protocol && e.destination == d && e.metric >= k
  }

  lemma HeldEntry(net: seq<Config>, st: NetState, steps: seq<NetStep>, r: nat, d: Ipv4Network, k: Metric)
    returns (e: RouteEntry)
    requires Initial(net, st) && IsRun(net, st, steps) && r < |net| && d.IsMasked() && !Attached(net[r], d)
    requires Holds(RunOf(net, st, steps), r, d, k)
    ensures |RunOf(net, st, steps).nodes| == |net| && e in RoutesAt(RunOf(net, st, steps), r)
    ensures e.source == Protocol && e.destination == d && e.metric == k
  {
    RunIsOrderly(net, st, steps);
    var rs := RoutesAt(RunOf(net, st, steps), r);
    var hop :| Tells(rs, d, k, hop);
    TellsOne(rs, d, k, hop, net[r]);
    e := Lookup(rs, d).value;
    LookupMember(rs, e);
    OffIsProtocol(net[r], rs, d);
  }

  lemma PairGrows(net: seq<Config>, st: NetState, d: Ipv4Network, k: Metric)
    requires GoodNetwork(net) && Initial(net, st) && d.IsMasked() && Mutual(net, d)
    ensures CanGrow(net, st, d, k)
  {
    hide GoodNetwork, Initial, Holds, Hears, Attached, Within, AtDistance, MonotoneClock;
    var b: nat, c: nat, i: nat :| OffPair(net, d, b, c) && Within(net, b, d, i);
    LeastDistance(net, b, d, i);
    var j: nat :| j <= i && AtDistance(net, b, d, j);
    var steps, t, x, y := ClimbFromStart(net, st, d, b, c, j, k);
    HearsBothOther(net, x, y);
    var e := HeldEntry(net, st, steps, x, d, if k <= j then j else k);
  }

  lemma HearsBothOther(net: seq<Config>, x: nat, y: nat)
    requires Hears(net, y, x)
    ensures x < |net| && y < |net|
  {
  }

  /** Whatever the routers, metrics for d from 2 to the largest 32-bit number can be reached if and only
      if two routers off d hear each other and one of them can reach d. */
  lemma {:induction false} GrowsIff(net: seq<Config>, st: NetState, d: Ipv4Network, k: nat)
    requires GoodNetwork(net) && Initial(net, st) && d.IsMasked() && 2 <= k <= U32_MAX
    ensures CanGrow(net, st, d, k) <==> Mutual(net, d)
  {
    hide GoodNetwork, Initial, Mutual, MonotoneClock;
    if Mutual(net, d) {
      PairGrows(net, st, d, k);
    } else if CanGrow(net, st, d, k) {
      var steps, r: nat, e :|
        && IsRun(net, st, steps) && MonotoneClock(steps) && 0 <= r < |net| == |RunOf(net, st, steps).nodes|
        && e in RoutesAt(RunOf(net, st, steps), r) && e.source == Protocol && e.destination == d && e.metric >= k;
      MetricsStayOne(net, st, steps, d, r, e);
    }
  }

  /** Some run with a monotone clock leads to an entry for d of a metric below its router's distance. */
  ghost predicate CanUndercut(net: seq<Config>, st: NetState, d: Ipv4Network) {
    exists steps, r: nat, e, j: nat ::
      && IsRun(net, st, steps) && MonotoneClock(steps) && r < |net| == |RunOf(net, st, steps).nodes|
      && e in RoutesAt(RunOf(net, st, steps), r) && e.destination == d && AtDistance(net, r, d, j) && e.metric < j
  }

  lemma PairUndercuts(net: seq<Config>, st: NetState, d: Ipv4Network)
    requires GoodNetwork(net) && Initial(net, st) && d.IsMasked() && Mutual(net, d)
    ensures CanUndercut(net, st, d)
  {
    hide GoodNetwork, Initial, Holds, Hears, Attached, Within, AtDistance, MonotoneClock;
    var b: nat, c: nat, i: nat :| OffPair(net, d, b, c) && Within(net, b, d, i);
    LeastDistance(net, b, d, i);
    var j: nat :| j <= i && AtDistance(net, b, d, j);
    var first, t, x, y := ClimbFromStart(net, st, d, b, c, j, U32_MAX);
    var steps, t' := Raise(net, st, first, t, d, x, y, U32_MAX);
    HearsBothOther(net, x, y);
    var e := HeldEntry(net, st, steps, y, d, 0);
    var far := PairIsFar(net, d, b, c, i, y);
  }

  lemma PairIsFar(net: seq<Config>, d: Ipv4Network, b: nat, c: nat, i: nat, y: nat) returns (far: nat)
    requires OffPair(net, d, b, c) && Within(net, b, d, i) && (y == b || y == c)
    ensures AtDistance(net, y, d, far) && far >= 1
  {
    HearsBothOther(net, b, c);
    WithinOneMore(net, c, b, d, i);
    var bound := if y == b then i else i + 1;
    LeastDistance(net, y, d, bound);
    OffIsFar(net, y, d);
    hide Within, Hears, Attached;
    far :| far <= bound && AtDistance(net, y, d, far);
  }

  lemma NoPairNoUndercut(net: seq<Config>, st: NetState, steps: seq<NetStep>, d: Ipv4Network, r: nat, e: RouteEntry,
                         j: nat)
    requires GoodNetwork(net) && Initial(net, st) && IsRun(net, st, steps) && d.IsMasked() && !Mutual(net, d)
    requires r < |net| == |RunOf(net, st, steps).nodes| && e in RoutesAt(RunOf(net, st, steps), r) && e.destination == d
    requires AtDistance(net, r, d, j)
    ensures e.metric >= j
  {
    hide GoodNetwork, Initial, Mutual;
    if e.source == Protocol {
      MetricsStayOne(net, st, steps, d, r, e);
      OneDistance(net, r, d, 1, j);
    } else {
      RunIsOrderly(net, st, steps);
      WellFormedMember(net[r], RoutesAt(RunOf(net, st, steps), r), e);
      DirectIsAttached(net, d, r);
      AttachedIsWithin(net, r, d);
    }
  }

  lemma DirectIsAttached(net: seq<Config>, d: Ipv4Network, r: nat)
    requires r < |net| && d.IsMasked() && IsOurNetwork(net[r].interfaces, d)
    ensures Attached(net[r], d)
  {
  }

  /** As the increment of the largest number wraps to 0, that is also exactly when a metric can fall
      below the true distance. */
  lemma {:induction false} UndercutIff(net: seq<Config>, st: NetState, d: Ipv4Network)
    requires GoodNetwork(net) && Initial(net, st) && d.IsMasked()
    ensures CanUndercut(net, st, d) <==> Mutual(net, d)
  {
    hide GoodNetwork, Initial, Mutual, MonotoneClock, AtDistance;
    if Mutual(net, d) {
      PairUndercuts(net, st, d);
    } else if CanUndercut(net, st, d) {
      var steps, r: nat, e, j: nat :|
        && IsRun(net, st, steps) && MonotoneClock(steps) && r < |net| == |RunOf(net, st, steps).nodes|
        && e in RoutesAt(RunOf(net, st, steps), r) && e.destination == d && AtDistance(net, r, d, j) && e.metric < j;
      NoPairNoUndercut(net, st, steps, d, r, e, j);
    }
  }
}
