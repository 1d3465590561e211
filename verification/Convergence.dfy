/** Convergence: after k rounds of updates every router knows its exact distance to whatever is
    within k hops, whatever happened before them. Older messages may still arrive in between. */
module Convergence {
  import opened Ipv4
  import opened Routes
  import opened Nodes
  import opened Invariants
  import opened Network
  import opened UpdateRuns
  import opened CleanupRuns

  // ----- rounds

  /** In this run s broadcasts at step a, and r receives that broadcast at the later step b. */
  ghost predicate HeardAt(net: seq<Config>, st: NetState, steps: seq<NetStep>, r: nat, s: nat, a: nat, b: nat)
    requires IsRun(net, st, steps)
  {
    && a < b < |steps|
    && steps[a] == Broadcast(s)
    && steps[b].Deliver? && steps[b].router == r && steps[b].m.sender == s
    && IsRun(net, st, steps[..a]) && |RunOf(net, st, steps[..a]).nodes| > s
    && steps[b].m.entries == RoutesAt(RunOf(net, st, steps[..a]), s)
  }

  ghost predicate HasHeard(net: seq<Config>, st: NetState, steps: seq<NetStep>, r: nat, s: nat)
    requires IsRun(net, st, steps)
  {
    exists a: nat, b: nat :: HeardAt(net, st, steps, r, s, a, b)
  }

  /** An update-only run in which every router hears every neighbour. */
  ghost predicate IsRound(net: seq<Config>, st: NetState, steps: seq<NetStep>) {
    && IsRun(net, st, steps) && UpdateOnly(steps)
    && (forall r: nat, s: nat :: Hears(net, r, s) ==> HasHeard(net, st, steps, r, s))
  }

  ghost predicate AreRounds(net: seq<Config>, st: NetState, rounds: seq<seq<NetStep>>)
    decreases |rounds|, 0
  {
    rounds == [] ||
    (AreRounds(net, st, rounds[..|rounds| - 1])
     && IsRound(net, RoundsOf(net, st, rounds[..|rounds| - 1]), rounds[|rounds| - 1]))
  }

  ghost function RoundsOf(net: seq<Config>, st: NetState, rounds: seq<seq<NetStep>>): NetState
    requires AreRounds(net, st, rounds)
    decreases |rounds|, 1
  {
    if rounds == [] then st else RunOf(net, RoundsOf(net, st, rounds[..|rounds| - 1]), rounds[|rounds| - 1])
  }

  // ----- prefixes of a run

  lemma {:induction false} PrefixIsRun(net: seq<Config>, st: NetState, steps: seq<NetStep>, a: nat)
    requires IsRun(net, st, steps) && a <= |steps|
    ensures IsRun(net, st, steps[..a])
    ensures a < |steps| ==> Enabled(net, RunOf(net, st, steps[..a]), steps[a])
  {
    if a < |steps| {
      var front := steps[..|steps| - 1];
      PrefixIsRun(net, st, front, a);
      assert front[..a] == steps[..a];
    } else {
      assert steps[..a] == steps;
    }
  }

  lemma StepOfRun(net: seq<Config>, st: NetState, steps: seq<NetStep>, a: nat)
    requires IsRun(net, st, steps) && a < |steps|
    ensures IsRun(net, st, steps[..a]) && IsRun(net, st, steps[..a + 1])
    ensures Enabled(net, RunOf(net, st, steps[..a]), steps[a])
    ensures RunOf(net, st, steps[..a + 1]) == After(net, RunOf(net, st, steps[..a]), steps[a])
  {
    PrefixIsRun(net, st, steps, a);
    PrefixIsRun(net, st, steps, a + 1);
    assert steps[..a + 1][..a] == steps[..a];
  }

  lemma {:induction false} RunProgress(net: seq<Config>, st: NetState, steps: seq<NetStep>)
    requires GoodNetwork(net) && AllWellFormed(net, st) && IsRun(net, st, steps) && UpdateOnly(steps)
    ensures AllWellFormed(net, RunOf(net, st, steps)) && Progress(net, st, RunOf(net, st, steps))
  {
    hide GoodNetwork, AllWellFormed;
    if steps != [] {
      var front := steps[..|steps| - 1];
      RunProgress(net, st, front);
      StepProgress(net, RunOf(net, st, front), steps[|steps| - 1]);
    } else {
      WellFormedCount(net, st);
    }
  }

  lemma WellFormedCount(net: seq<Config>, st: NetState)
    requires AllWellFormed(net, st)
    ensures |st.nodes| == |net|
  {
  }

  lemma PrefixWellFormed(net: seq<Config>, st: NetState, steps: seq<NetStep>, a: nat)
    requires GoodNetwork(net) && AllWellFormed(net, st) && IsRun(net, st, steps) && UpdateOnly(steps) && a <= |steps|
    ensures IsRun(net, st, steps[..a]) && AllWellFormed(net, RunOf(net, st, steps[..a]))
  {
    hide GoodNetwork, AllWellFormed;
    PrefixIsRun(net, st, steps, a);
    assert forall step :: step in steps[..a] ==> step in steps;
    RunProgress(net, st, steps[..a]);
  }

  lemma StepAtProgress(net: seq<Config>, st: NetState, steps: seq<NetStep>, a: nat)
    requires GoodNetwork(net) && AllWellFormed(net, st) && IsRun(net, st, steps) && UpdateOnly(steps) && a < |steps|
    ensures IsRun(net, st, steps[..a]) && IsRun(net, st, steps[..a + 1])
    ensures Progress(net, RunOf(net, st, steps[..a]), RunOf(net, st, steps[..a + 1]))
  {
    PrefixWellFormed(net, st, steps, a);
    StepOfRun(net, st, steps, a);
    StepProgress(net, RunOf(net, st, steps[..a]), steps[a]);
  }

  lemma {:induction false} ProgressChains(net: seq<Config>, trace: seq<NetState>, a: nat, b: nat)
    requires a <= b < |trace| && |trace[a].nodes| == |net|
    requires forall i :: 0 <= i < |trace| - 1 ==> Progress(net, trace[i], trace[i + 1])
    ensures Progress(net, trace[a], trace[b])
  {
    if a < b {
      ProgressChains(net, trace, a, b - 1);
      assert Progress(net, trace[b - 1], trace[b - 1 + 1]);
    }
  }

  /** The states of a run, the first and the last one included. */
  ghost function Trace(net: seq<Config>, st: NetState, steps: seq<NetStep>): seq<NetState> {
    seq(|steps| + 1, i requires 0 <= i <= |steps| =>
      if IsRun(net, st, steps[..i]) then RunOf(net, st, steps[..i]) else st)
  }

  lemma PrefixProgress(net: seq<Config>, st: NetState, steps: seq<NetStep>, a: nat, b: nat)
    requires GoodNetwork(net) && AllWellFormed(net, st) && IsRun(net, st, steps) && UpdateOnly(steps)
    requires a <= b <= |steps|
    ensures IsRun(net, st, steps[..a]) && IsRun(net, st, steps[..b])
    ensures Progress(net, RunOf(net, st, steps[..a]), RunOf(net, st, steps[..b]))
  {
    var trace := Trace(net, st, steps);
    forall i | 0 <= i < |trace| - 1
      ensures Progress(net, trace[i], trace[i + 1])
    {
      StepAtProgress(net, st, steps, i);
    }
    PrefixWellFormed(net, st, steps, a);
    PrefixIsRun(net, st, steps, b);
    ProgressChains(net, trace, a, b);
  }

  // ----- one round

  /** Every router within j hops of a destination, j at most k, has metric at most j for it. */
  ghost predicate KnownUpTo(net: seq<Config>, st: NetState, k: nat) {
    forall r: nat, d: Ipv4Network, j: nat :: 0 <= j <= k && d.IsMasked() && Within(net, r, d, j) ==>
      MetricAtMost(net, st, r, d, j)
  }

  /** The entry by which a router's table covers d. */
  lemma EntryFor(net: seq<Config>, st: NetState, s: nat, d: Ipv4Network, k: nat) returns (e: RouteEntry)
    requires AllWellFormed(net, st) && d.IsMasked() && MetricAtMost(net, st, s, d, k)
    ensures e in RoutesAt(st, s) && e.destination.Masked() == d && e.metric <= k
  {
    var rs := RoutesAt(st, s);
    if Attached(net[s], d) {
      var i :| 0 <= i < |net[s].interfaces| && net[s].interfaces[i].network.Masked() == d;
      e := Lookup(rs, net[s].interfaces[i].network).value;
      assert WellFormedEntry(net[s], e);
    } else {
      e := Lookup(rs, d).value;
    }
  }

  lemma DeliveryTeaches(net: seq<Config>, st: NetState, r: nat, m: Message, now: nat, e: RouteEntry)
    requires GoodNetwork(net) && AllWellFormed(net, st) && Enabled(net, st, Deliver(r, m, now))
    requires r != m.sender && e in m.entries
    ensures MetricAtMost(net, After(net, st, Deliver(r, m, now)), r, e.destination.Masked(), e.metric + 1)
  {
    if !Attached(net[r], e.destination.Masked()) {
      DeliveryTakesOffer(net, st, r, m, now, e);
    }
  }

  /** The state of an update-only run after a steps. */
  lemma StateAt(net: seq<Config>, st: NetState, steps: seq<NetStep>, a: nat) returns (at: NetState)
    requires GoodNetwork(net) && AllWellFormed(net, st) && IsRun(net, st, steps) && UpdateOnly(steps) && a <= |steps|
    ensures IsRun(net, st, steps[..a]) && at == RunOf(net, st, steps[..a])
    ensures AllWellFormed(net, at) && Progress(net, st, at) && Progress(net, at, RunOf(net, st, steps))
  {
    assert steps[..0] == [] && steps[..|steps|] == steps;
    PrefixWellFormed(net, st, steps, a);
    PrefixProgress(net, st, steps, 0, a);
    PrefixProgress(net, st, steps, a, |steps|);
    at := RunOf(net, st, steps[..a]);
  }

  /** What a neighbour knew when it broadcast, the receiver knows after the delivery. */
  lemma HearingTeaches(net: seq<Config>, st: NetState, steps: seq<NetStep>, r: nat, s: nat, a: nat, b: nat,
                       d: Ipv4Network, k: nat)
    requires GoodNetwork(net) && AllWellFormed(net, st) && IsRun(net, st, steps) && UpdateOnly(steps)
    requires r != s && HeardAt(net, st, steps, r, s, a, b)
    requires d.IsMasked() && MetricAtMost(net, st, s, d, k)
    ensures MetricAtMost(net, RunOf(net, st, steps), r, d, k + 1)
  {
    var sending := StateAt(net, st, steps, a);
    MetricStays(net, st, sending, s, d, k);
    var e := EntryFor(net, sending, s, d, k);
    var before := StateAt(net, st, steps, b);
    var after := StateAt(net, st, steps, b + 1);
    StepOfRun(net, st, steps, b);
    DeliveryTeaches(net, before, r, steps[b].m, steps[b].now, e);
    MetricStays(net, after, RunOf(net, st, steps), r, d, e.metric + 1);
  }

  lemma WalkTail(net: seq<Config>, d: Ipv4Network, p: seq<nat>, k: nat)
    requires Walk(net, d, p, k + 1)
    ensures Hears(net, p[0], p[1]) && Walk(net, d, p[1..], k) && Within(net, p[1], d, k)
  {
    assert Hears(net, p[0], p[0 + 1]);
    var q := p[1..];
    forall i | 0 <= i < k
      ensures Hears(net, q[i], q[i + 1])
    {
      assert Hears(net, p[i + 1], p[i + 1 + 1]);
    }
    assert Walk(net, d, q, k) && q[0] == p[1];
  }

  lemma RoundTeaches(net: seq<Config>, st: NetState, steps: seq<NetStep>, r: nat, d: Ipv4Network, p: seq<nat>, k: nat)
    requires GoodNetwork(net) && AllWellFormed(net, st) && IsRound(net, st, steps) && KnownUpTo(net, st, k)
    requires d.IsMasked() && Walk(net, d, p, k + 1) && p[0] == r
    ensures MetricAtMost(net, RunOf(net, st, steps), r, d, k + 1)
  {
    WalkTail(net, d, p, k);
    assert HasHeard(net, st, steps, r, p[1]);
    var a: nat, b: nat :| HeardAt(net, st, steps, r, p[1], a, b);
    HearingTeaches(net, st, steps, r, p[1], a, b, d, k);
  }

  lemma {:induction false} RoundKeepsOrTeaches(net: seq<Config>, st: NetState, steps: seq<NetStep>, k: nat, r: nat,
                                               d: Ipv4Network, j: nat)
    requires GoodNetwork(net) && AllWellFormed(net, st) && IsRound(net, st, steps) && KnownUpTo(net, st, k)
    requires Progress(net, st, RunOf(net, st, steps))
    requires j <= k + 1 && d.IsMasked() && Within(net, r, d, j)
    ensures MetricAtMost(net, RunOf(net, st, steps), r, d, j)
  {
    hide AllWellFormed, GoodNetwork, Progress;
    var i, p :| 0 <= i <= j && Walk(net, d, p, i) && p[0] == r;
    if i <= k {
      assert Within(net, r, d, i);
      MetricStays(net, st, RunOf(net, st, steps), r, d, i);
    } else {
      RoundTeaches(net, st, steps, r, d, p, k);
    }
  }

  lemma {:induction false} RoundExtends(net: seq<Config>, st: NetState, steps: seq<NetStep>, k: nat)
    requires GoodNetwork(net) && AllWellFormed(net, st) && IsRound(net, st, steps) && KnownUpTo(net, st, k)
    ensures KnownUpTo(net, RunOf(net, st, steps), k + 1)
  {
    RunProgress(net, st, steps);
    forall r: nat, d: Ipv4Network, j: nat | 0 <= j <= k + 1 && d.IsMasked() && Within(net, r, d, j)
      ensures MetricAtMost(net, RunOf(net, st, steps), r, d, j)
    {
      RoundKeepsOrTeaches(net, st, steps, k, r, d, j);
    }
  }

  lemma InitiallyKnown(net: seq<Config>, st: NetState)
    requires |st.nodes| == |net|
    ensures KnownUpTo(net, st, 0)
  {
    forall r: nat, d: Ipv4Network | d.IsMasked() && Within(net, r, d, 0)
      ensures MetricAtMost(net, st, r, d, 0)
    {
      var j, p :| 0 <= j <= 0 && Walk(net, d, p, j) && p[0] == r;
    }
  }

  lemma {:induction false} RoundsTeach(net: seq<Config>, st: NetState, rounds: seq<seq<NetStep>>)
    requires GoodNetwork(net) && AllWellFormed(net, st) && AreRounds(net, st, rounds)
    ensures AllWellFormed(net, RoundsOf(net, st, rounds))
    ensures KnownUpTo(net, RoundsOf(net, st, rounds), |rounds|)
  {
    if rounds == [] {
      InitiallyKnown(net, st);
    } else {
      var front := rounds[..|rounds| - 1];
      RoundsTeach(net, st, front);
      RoundExtends(net, RoundsOf(net, st, front), rounds[|rounds| - 1], |front|);
      RunProgress(net, RoundsOf(net, st, front), rounds[|rounds| - 1]);
    }
  }

  ghost predicate CalmRounds(rounds: seq<seq<NetStep>>) {
    forall i :: 0 <= i < |rounds| ==> forall s :: s in rounds[i] ==> Calm(s)
  }

  lemma {:induction false} RoundsKeepGrounded(net: seq<Config>, st: NetState, rounds: seq<seq<NetStep>>)
    requires GoodNetwork(net) && Grounded(net, st) && AreRounds(net, st, rounds) && CalmRounds(rounds)
    ensures Grounded(net, RoundsOf(net, st, rounds))
  {
    hide GoodNetwork, Grounded, Calm;
    if rounds != [] {
      var front := rounds[..|rounds| - 1];
      RoundsKeepGrounded(net, st, front);
      RunKeepsGrounded(net, RoundsOf(net, st, front), rounds[|rounds| - 1]);
    }
  }

  lemma {:induction false} RoundsAreCalm(net: seq<Config>, st: NetState, rounds: seq<seq<NetStep>>)
    requires GoodNetwork(net) && Inv(net, st) && AreRounds(net, st, rounds)
    ensures CalmRounds(rounds) && Inv(net, RoundsOf(net, st, rounds))
  {
    hide GoodNetwork, Inv, Calm;
    if rounds != [] {
      var front, last := rounds[..|rounds| - 1], rounds[|rounds| - 1];
      RoundsAreCalm(net, st, front);
      RunKeepsInv(net, RoundsOf(net, st, front), last);
      UpdateRunsAreCalm(net, RoundsOf(net, st, front), last);
      assert forall i :: 0 <= i < |front| ==> rounds[i] == front[i];
    }
  }

  lemma AttachedIsWithin(net: seq<Config>, r: nat, d: Ipv4Network)
    requires r < |net| && Attached(net[r], d)
    ensures Within(net, r, d, 0)
  {
    assert Walk(net, d, [r], 0) && [r][0] == r;
  }

  lemma FarIsUnattached(net: seq<Config>, r: nat, d: Ipv4Network, j: nat)
    requires r < |net| && d.IsMasked() && AtDistance(net, r, d, j) && 1 <= j
    ensures !Attached(net[r], d) && !IsOurNetwork(net[r].interfaces, d)
  {
    hide Within;
    if Attached(net[r], d) {
      AttachedIsWithin(net, r, d);
    }
  }

  /** A route no worse than the distance, in a grounded state, has exactly that metric. */
  lemma ExactWhenGrounded(net: seq<Config>, st: NetState, r: nat, d: Ipv4Network, j: nat)
    requires Grounded(net, st) && MetricAtMost(net, st, r, d, j)
    requires d.IsMasked() && AtDistance(net, r, d, j) && 1 <= j
    ensures Lookup(RoutesAt(st, r), d).Some?
    ensures Lookup(RoutesAt(st, r), d).value.metric == j && Lookup(RoutesAt(st, r), d).value.source == Protocol
  {
    FarIsUnattached(net, r, d, j);
    var e := Lookup(RoutesAt(st, r), d).value;
    LookupMember(RoutesAt(st, r), e);
    assert Walked(net, r, e) && d.Masked() == d;
    assert WellFormedEntry(net[r], e);
    hide AtDistance, Grounded, Walked, Within, Attached;
    WalkedIsFar(net, r, e);
  }

  /** What holds of router r and destination d once their distance j is known. */
  ghost predicate KnowsDistance(st: NetState, r: nat, d: Ipv4Network, j: nat) {
    && r < |st.nodes| && Lookup(RoutesAt(st, r), d).Some?
    && Lookup(RoutesAt(st, r), d).value.metric == j && Lookup(RoutesAt(st, r), d).value.source == Protocol
  }

  lemma {:induction false} GroundedRoundsConverge(net: seq<Config>, st: NetState, rounds: seq<seq<NetStep>>, r: nat,
                                                  d: Ipv4Network, j: nat)
    requires GoodNetwork(net) && Grounded(net, st) && AreRounds(net, st, rounds) && CalmRounds(rounds)
    requires d.IsMasked() && AtDistance(net, r, d, j) && 1 <= j <= |rounds|
    ensures KnowsDistance(RoundsOf(net, st, rounds), r, d, j)
  {
    assert AllWellFormed(net, st) && Within(net, r, d, j);
    hide GoodNetwork, Grounded, AllWellFormed, Within, AtDistance, CalmRounds;
    RoundsTeach(net, st, rounds);
    RoundsKeepGrounded(net, st, rounds);
    ExactWhenGrounded(net, RoundsOf(net, st, rounds), r, d, j);
  }

  /** Bellman-Ford convergence from any past: whatever happened before, cleanups included, after k
      further rounds each router at hop distance j from d, 1 <= j <= k, holds a protocol entry for
      d with metric exactly j, provided that no metric overflows. */
  lemma {:induction false} RoundsReconverge(net: seq<Config>, st: NetState, past: seq<NetStep>,
                                            rounds: seq<seq<NetStep>>, r: nat, d: Ipv4Network, j: nat)
    requires GoodNetwork(net) && Initial(net, st)
    requires IsRun(net, st, past) && forall s :: s in past ==> Calm(s)
    requires AreRounds(net, RunOf(net, st, past), rounds) && CalmRounds(rounds)
    requires d.IsMasked() && AtDistance(net, r, d, j) && 1 <= j <= |rounds|
    ensures KnowsDistance(RoundsOf(net, RunOf(net, st, past), rounds), r, d, j)
  {
    hide GoodNetwork, Initial, Grounded, Calm, CalmRounds, AtDistance, KnowsDistance;
    InitialGrounded(net, st);
    RunKeepsGrounded(net, st, past);
    GroundedRoundsConverge(net, RunOf(net, st, past), rounds, r, d, j);
  }

  /** From the start no metric can overflow, so there k rounds always suffice. */
  lemma {:induction false} RoundsConverge(net: seq<Config>, st: NetState, rounds: seq<seq<NetStep>>, r: nat,
                                          d: Ipv4Network, j: nat)
    requires GoodNetwork(net) && Initial(net, st) && AreRounds(net, st, rounds)
    requires d.IsMasked() && AtDistance(net, r, d, j) && 1 <= j <= |rounds|
    ensures KnowsDistance(RoundsOf(net, st, rounds), r, d, j)
  {
    hide GoodNetwork, Initial, Inv, Grounded, CalmRounds, AtDistance, KnowsDistance;
    InitialInv(net, st);
    InitialGrounded(net, st);
    RoundsAreCalm(net, st, rounds);
    GroundedRoundsConverge(net, st, rounds, r, d, j);
  }

  // ----- rounds are possible

  lemma {:induction false} NodesKept(net: seq<Config>, st: NetState, steps: seq<NetStep>)
    requires IsRun(net, st, steps) && |st.nodes| == |net|
    ensures |RunOf(net, st, steps).nodes| == |net|
  {
    if steps != [] {
      NodesKept(net, st, steps[..|steps| - 1]);
    }
  }

  lemma RunExtends(net: seq<Config>, st: NetState, steps: seq<NetStep>, step: NetStep)
    requires IsRun(net, st, steps) && Enabled(net, RunOf(net, st, steps), step)
    ensures IsRun(net, st, steps + [step])
    ensures RunOf(net, st, steps + [step]) == After(net, RunOf(net, st, steps), step)
  {
    assert (steps + [step])[..|steps|] == steps;
  }

  /** A run without cleanup, all at one time. */
  ghost predicate Instant(net: seq<Config>, st: NetState, steps: seq<NetStep>, now: nat) {
    IsRun(net, st, steps) && UpdateOnly(steps) && AllAt(steps, now)
  }

  lemma InstantExtends(net: seq<Config>, st: NetState, steps: seq<NetStep>, step: NetStep, now: nat)
    requires Instant(net, st, steps, now) && Enabled(net, RunOf(net, st, steps), step)
    requires step.Broadcast? || (step.Deliver? && step.now == now)
    ensures Instant(net, st, steps + [step], now)
    ensures RunOf(net, st, steps + [step]) == After(net, RunOf(net, st, steps), step)
  {
    hide Enabled;
    RunExtends(net, st, steps, step);
    assert forall x :: x in steps + [step] ==> x in steps || x == step;
  }

  /** One broadcast of s and its delivery to r can always be appended, at any time. */
  lemma {:induction false} HearOnce(net: seq<Config>, st: NetState, steps: seq<NetStep>, r: nat, s: nat, now: nat)
    returns (more: seq<NetStep>)
    requires IsRun(net, st, steps) && UpdateOnly(steps) && AllAt(steps, now) && |st.nodes| == |net| && Hears(net, r, s)
    ensures steps <= more && IsRun(net, st, more) && UpdateOnly(more) && AllAt(more, now)
    ensures HasHeard(net, st, more, r, s)
  {
    hide Enabled, HasHeard;
    NodesKept(net, st, steps);
    var at := RunOf(net, st, steps);
    var iface := HearingInterface(net, r, s);
    var m := CanSend(net, at, s, r, iface, now);
    RunExtends(net, st, steps, Broadcast(s));
    RunExtends(net, st, steps + [Broadcast(s)], Deliver(r, m, now));
    more := steps + [Broadcast(s)] + [Deliver(r, m, now)];
    assert forall x :: x in more ==> x in steps || x == Broadcast(s) || x == Deliver(r, m, now);
    JustHeard(net, st, steps, more, r, m, now);
  }

  lemma JustHeard(net: seq<Config>, st: NetState, steps: seq<NetStep>, more: seq<NetStep>, r: nat, m: Message, now: nat)
    requires IsRun(net, st, steps) && IsRun(net, st, more)
    requires more == steps + [Broadcast(m.sender)] + [Deliver(r, m, now)]
    requires m.sender < |RunOf(net, st, steps).nodes| && m.entries == RoutesAt(RunOf(net, st, steps), m.sender)
    ensures HasHeard(net, st, more, r, m.sender)
  {
    assert more[..|steps|] == steps;
    assert HeardAt(net, st, more, r, m.sender, |steps|, |steps| + 1);
  }

  lemma StillHeard(net: seq<Config>, st: NetState, steps: seq<NetStep>, more: seq<NetStep>, r: nat, s: nat)
    requires steps <= more && IsRun(net, st, steps) && IsRun(net, st, more) && HasHeard(net, st, steps, r, s)
    ensures HasHeard(net, st, more, r, s)
  {
    var a: nat, b: nat :| HeardAt(net, st, steps, r, s, a, b);
    assert more[..a] == steps[..a];
    assert HeardAt(net, st, more, r, s, a, b);
  }

  lemma {:induction false} HearAll(net: seq<Config>, st: NetState, pairs: set<(nat, nat)>, now: nat)
    returns (steps: seq<NetStep>)
    requires |st.nodes| == |net|
    ensures IsRun(net, st, steps) && UpdateOnly(steps) && AllAt(steps, now)
    ensures forall x :: x in pairs && Hears(net, x.0, x.1) ==> HasHeard(net, st, steps, x.0, x.1)
    decreases |pairs|
  {
    if pairs == {} {
      steps := [];
    } else {
      var x :| x in pairs;
      var front := HearAll(net, st, pairs - {x}, now);
      steps := front;
      if Hears(net, x.0, x.1) {
        steps := HearOnce(net, st, front, x.0, x.1, now);
      }
      forall y | y in pairs && Hears(net, y.0, y.1)
        ensures HasHeard(net, st, steps, y.0, y.1)
      {
        if y != x {
          StillHeard(net, st, front, steps, y.0, y.1);
        }
      }
    }
  }

  /** From every state of the network, at every time, some run at that time is a round. */
  lemma {:induction false} RoundsHappen(net: seq<Config>, st: NetState, now: nat)
    requires |st.nodes| == |net|
    ensures exists steps :: IsRound(net, st, steps) && AllAt(steps, now)
  {
    var pairs := set r: nat, s: nat | 0 <= r < |net| && 0 <= s < |net| :: (r, s);
    var steps := HearAll(net, st, pairs, now);
    forall r: nat, s: nat | Hears(net, r, s)
      ensures HasHeard(net, st, steps, r, s)
    {
      assert (r, s) in pairs;
    }
    assert IsRound(net, st, steps);
  }
}
