/** Runs with cleanup: a metric is never below the true hop distance, as long as none overflows. */
module CleanupRuns {
  import opened Options
  import opened Ipv4
  import opened Routes
  import opened Pruning
  import opened Nodes
  import opened Invariants
  import opened Interleaving
  import opened Timeouts
  import opened Network
  import opened UpdateRuns

  /** Router r reaches the entry's destination in exactly as many hops as the entry says. */
  ghost predicate Walked(net: seq<Config>, r: nat, e: RouteEntry) {
    exists p :: Walk(net, e.destination.Masked(), p, e.metric) && p[0] == r
  }

  ghost predicate Grounded(net: seq<Config>, st: NetState) {
    && AllWellFormed(net, st)
    && (forall r :: 0 <= r < |net| ==> SoundStates(net[r], st.nodes[r].states))
    && (forall r, e :: 0 <= r < |net| && e in RoutesAt(st, r) ==> Walked(net, r, e))
    && (forall m, e :: m in st.sent && e in m.entries ==> m.sender < |net| && Walked(net, m.sender, e))
  }

  /** The step adds one to no metric that is already the largest 32-bit number. */
  ghost predicate Calm(step: NetStep) {
    step.Deliver? ==> forall e :: e in step.m.entries ==> e.metric < U32_MAX
  }

  /** One step only ever keeps a table entry or learns one from a delivered message. */
  lemma StepEntries(net: seq<Config>, st: NetState, step: NetStep)
    requires GoodNetwork(net) && Enabled(net, st, step)
    requires WellFormed(net[step.router], RoutesAt(st, step.router))
    requires SoundStates(net[step.router], st.nodes[step.router].states)
    ensures var cfg, n, n' := net[step.router], st.nodes[step.router], NodeAfter(net, st, step);
      && WellFormed(cfg, n'.table.routes) && SoundStates(cfg, n'.states)
      && (forall x :: x in n'.table.routes && x !in n.table.routes ==>
            step.Deliver? && Hears(net, step.router, step.m.sender)
            && exists e :: e in step.m.entries && LearnedFrom(net[step.router], step.m, e, x))
  {
    var cfg, n, n' := net[step.router], st.nodes[step.router], NodeAfter(net, st, step);
    match step
    case Broadcast(_) =>
    case Greet(_, hello, ip, now) =>
    case Deliver(r, m, now) =>
      DeliveryOutcome(net, st, r, m, now);
      if !OwnAddress(cfg, V4(m.iface.ip)) && Wire(net, m).routerId != cfg.id {
        var heard := n.(neighbors := UpdateHeard(n.neighbors, Wire(net, m).routerId, now));
        ProcessedSound(cfg, heard, Wire(net, m), m.iface.ip, now);
      }
      forall x | x in n'.table.routes && x !in n.table.routes
        ensures Lookup(n'.table.routes, x.destination) == Some(x) && Lookup(n.table.routes, x.destination) != Some(x)
      {
        LookupMember(n'.table.routes, x);
        LookupMember(n.table.routes, x);
      }
    case Sweep(_, now) =>
      var dests, vias := Destinations(n.states, Doomed(n, now)), AddressesOf(n.neighbors, NewlyDead(n.neighbors, now));
      DestinationsNotOurs(cfg, n.states, Doomed(n, now));
      PrunedWellFormed(cfg, n.table, dests, vias);
      forall x | x in n'.table.routes
        ensures x in n.table.routes
      {
        SurvivorsMembers(n.table.routes, dests, vias, x);
      }
  }

  lemma LearnedIsWalked(net: seq<Config>, r: nat, m: Message, e: RouteEntry, x: RouteEntry)
    requires Walked(net, m.sender, e) && Hears(net, r, m.sender) && LearnedFrom(net[r], m, e, x) && e.metric < U32_MAX
    ensures Walked(net, r, x)
  {
    var d, k := e.destination.Masked(), e.metric;
    MaskingIsCanonical(e.destination);
    var p :| Walk(net, d, p, k) && p[0] == m.sender;
    var q := [r] + p;
    assert q[k + 1] == p[k];
    forall i | 0 <= i <= k
      ensures q[i] < |net| && Hears(net, q[i], q[i + 1])
    {
      if i > 0 {
        assert Hears(net, p[i - 1], p[i - 1 + 1]);
      }
    }
    assert Walk(net, d, q, k + 1) && q[0] == r;
  }

  lemma StepKeepsGrounded(net: seq<Config>, st: NetState, step: NetStep)
    requires GoodNetwork(net) && Grounded(net, st) && Enabled(net, st, step) && Calm(step)
    ensures Grounded(net, After(net, st, step))
  {
    hide GoodNetwork, WellFormed, SoundStates;
    var st' := After(net, st, step);
    StepEntries(net, st, step);
    forall r, x | 0 <= r < |net| && x in RoutesAt(st', r)
      ensures Walked(net, r, x)
    {
      if x !in RoutesAt(st, r) {
        var e :| e in step.m.entries && LearnedFrom(net[step.router], step.m, e, x);
        LearnedIsWalked(net, r, step.m, e, x);
      }
    }
  }

  lemma InitialGrounded(net: seq<Config>, st: NetState)
    requires Initial(net, st)
    ensures Grounded(net, st)
  {
    InitialInv(net, st);
    forall r | 0 <= r < |net|
      ensures SoundStates(net[r], st.nodes[r].states)
    {
      assert Fresh(net[r], st.nodes[r]);
    }
    forall r, e | 0 <= r < |net| && e in RoutesAt(st, r)
      ensures Walked(net, r, e)
    {
      assert Backed(net, st, r, e);
    }
  }

  lemma {:induction false} RunKeepsGrounded(net: seq<Config>, st: NetState, steps: seq<NetStep>)
    requires GoodNetwork(net) && Grounded(net, st) && IsRun(net, st, steps) && forall s :: s in steps ==> Calm(s)
    ensures Grounded(net, RunOf(net, st, steps))
  {
    if steps != [] {
      var front := steps[..|steps| - 1];
      RunKeepsGrounded(net, st, front);
      StepKeepsGrounded(net, RunOf(net, st, front), steps[|steps| - 1]);
    }
  }

  /** In every run, cleanups included, in which no metric overflows, a table entry claims no
      destination that its router cannot reach and no metric below the true hop distance. */
  lemma {:induction false} MetricsNeverUndercut(net: seq<Config>, st: NetState, steps: seq<NetStep>, r: nat,
                                                e: RouteEntry)
    requires GoodNetwork(net) && Initial(net, st) && IsRun(net, st, steps) && forall s :: s in steps ==> Calm(s)
    requires r < |net| && e in RoutesAt(RunOf(net, st, steps), r)
    ensures exists j: nat :: j <= e.metric && AtDistance(net, r, e.destination.Masked(), j)
    ensures forall j: nat :: AtDistance(net, r, e.destination.Masked(), j) ==> j <= e.metric
  {
    InitialGrounded(net, st);
    RunKeepsGrounded(net, st, steps);
    WalkedIsFar(net, r, e);
  }

  /** The same for every message in flight. */
  lemma {:induction false} MessagesNeverUndercut(net: seq<Config>, st: NetState, steps: seq<NetStep>, m: Message,
                                                 e: RouteEntry)
    requires GoodNetwork(net) && Initial(net, st) && IsRun(net, st, steps) && forall s :: s in steps ==> Calm(s)
    requires m in RunOf(net, st, steps).sent && e in m.entries
    ensures exists j: nat :: j <= e.metric && AtDistance(net, m.sender, e.destination.Masked(), j)
    ensures forall j: nat :: AtDistance(net, m.sender, e.destination.Masked(), j) ==> j <= e.metric
  {
    InitialGrounded(net, st);
    RunKeepsGrounded(net, st, steps);
    WalkedIsFar(net, m.sender, e);
  }

  lemma WalkedIsFar(net: seq<Config>, r: nat, e: RouteEntry)
    requires Walked(net, r, e)
    ensures exists j: nat :: j <= e.metric && AtDistance(net, r, e.destination.Masked(), j)
    ensures forall j: nat :: AtDistance(net, r, e.destination.Masked(), j) ==> j <= e.metric
  {
    assert Within(net, r, e.destination.Masked(), e.metric);
    LeastDistance(net, r, e.destination.Masked(), e.metric);
  }

  lemma {:induction false} LeastDistance(net: seq<Config>, r: nat, d: Ipv4Network, k: nat)
    requires Within(net, r, d, k)
    ensures exists j: nat :: j <= k && AtDistance(net, r, d, j)
  {
    if i: nat :| i < k && Within(net, r, d, i) {
      LeastDistance(net, r, d, i);
    } else {
      assert AtDistance(net, r, d, k);
    }
  }

  // ----- when overflow is impossible

  /** Without cleanup no metric overflows, however long the run. */
  lemma {:induction false} UpdateRunsAreCalm(net: seq<Config>, st: NetState, steps: seq<NetStep>)
    requires GoodNetwork(net) && Inv(net, st) && IsRun(net, st, steps) && UpdateOnly(steps)
    ensures forall s :: s in steps ==> Calm(s)
  {
    if steps != [] {
      var front, step := steps[..|steps| - 1], steps[|steps| - 1];
      UpdateRunsAreCalm(net, st, front);
      RunKeepsInv(net, st, front);
      StepIsCalm(net, RunOf(net, st, front), step);
      assert forall s :: s in steps ==> s in front || s == step;
    }
  }

  lemma StepIsCalm(net: seq<Config>, st: NetState, step: NetStep)
    requires GoodNetwork(net) && Inv(net, st) && Enabled(net, st, step)
    ensures Calm(step)
  {
    if step.Deliver? {
      forall e | e in step.m.entries
        ensures e.metric < U32_MAX
      {
        BackedIsSmall(net, st, step.m.sender, e);
      }
    }
  }

  ghost predicate MetricsUpTo(net: seq<Config>, st: NetState, k: nat) {
    && |st.nodes| == |net|
    && (forall r, e :: 0 <= r < |net| && e in RoutesAt(st, r) ==> e.metric <= k)
    && (forall m, e :: m in st.sent && e in m.entries ==> e.metric <= k)
  }

  lemma StepRaisesByOne(net: seq<Config>, st: NetState, step: NetStep, k: nat)
    requires GoodNetwork(net) && Grounded(net, st) && MetricsUpTo(net, st, k) && Enabled(net, st, step) && k < U32_MAX
    ensures Calm(step) && MetricsUpTo(net, After(net, st, step), k + 1)
  {
    StepEntries(net, st, step);
  }

  /** Metrics grow by at most one a step, so no run of fewer than 2^32 steps overflows one. */
  lemma {:induction false} ShortRunsAreCalm(net: seq<Config>, st: NetState, steps: seq<NetStep>)
    requires GoodNetwork(net) && Initial(net, st) && IsRun(net, st, steps) && |steps| <= U32_MAX
    ensures forall s :: s in steps ==> Calm(s)
    ensures Grounded(net, RunOf(net, st, steps)) && MetricsUpTo(net, RunOf(net, st, steps), |steps|)
  {
    if steps == [] {
      InitialGrounded(net, st);
      forall r, e | 0 <= r < |net| && e in RoutesAt(st, r)
        ensures e.metric == 0
      {
        assert Fresh(net[r], st.nodes[r]);
        WellFormedMember(net[r], RoutesAt(st, r), e);
      }
    } else {
      var front, step := steps[..|steps| - 1], steps[|steps| - 1];
      ShortRunsAreCalm(net, st, front);
      StepRaisesByOne(net, RunOf(net, st, front), step, |front|);
      StepKeepsGrounded(net, RunOf(net, st, front), step);
      assert forall s :: s in steps ==> s in front || s == step;
    }
  }
}
