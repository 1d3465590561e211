/** All interleavings of what the tasks of one router do while holding a lock. The handlers and
    the cleanup release their locks in between, so these are the atomic steps of a router. */
module Interleaving {
  import opened Options
  import opened Ipv4
  import opened Ipv4Text
  import opened Routes
  import opened KernelMirror
  import opened Pruning
  import opened Nodes
  import opened Invariants
  import opened Batches

  datatype LockedStep =
    | Record(news: seq<(string, RouteState)>)
    | Apply(routes: seq<RouteEntry>)
    | RemoveStates(keys: set<string>)
    | RemoveHop(hop: Addr)
    | SetNeighbors(neighbors: Neighbors)

  /** The step handles candidates for something that was advertised, at whatever time. */
  ghost predicate Genuine(cfg: Config, step: LockedStep) {
    match step
    case Record(news) => forall x :: x in news ==>
      exists info: RouteInfo, sender :: info.destination == x.0 && Candidate(cfg, info, sender) == Some(x.1.route)
    case Apply(routes) => forall r :: r in routes ==>
      exists info: RouteInfo, sender :: Candidate(cfg, info, sender) == Some(r)
    case _ => true
  }

  ghost function Stepped(cfg: Config, n: Node, step: LockedStep): Node {
    match step
    case Record(news) => n.(states := Recorded(n.states, news))
    case Apply(routes) => n.(table := UpdatedAll(cfg.local, n.table, routes))
    case RemoveStates(keys) =>
      n.(table := Pruned(n.table, Destinations(n.states, keys), {}), states := n.states - keys)
    case RemoveHop(hop) => n.(table := Pruned(n.table, {}, {hop}))
    case SetNeighbors(neighbors) => n.(neighbors := neighbors)
  }

  ghost function Run(cfg: Config, n: Node, steps: seq<LockedStep>): Node {
    if steps == [] then n else Stepped(cfg, Run(cfg, n, steps[..|steps| - 1]), steps[|steps| - 1])
  }

  /** A router just constructed over an arbitrary kernel table. */
  ghost predicate Fresh(cfg: Config, n: Node) {
    && WellFormed(cfg, n.table.routes)
    && (forall e :: e in n.table.routes ==> e.source == Direct)
    && n.states == map[]
  }

  ghost predicate Safe(cfg: Config, start: Node, n: Node) {
    && WellFormed(cfg, n.table.routes)
    && SoundStates(cfg, n.states)
    && (forall i :: 0 <= i < |cfg.interfaces| ==>
          Lookup(n.table.routes, cfg.interfaces[i].network) == Lookup(start.table.routes, cfg.interfaces[i].network))
    && Mirrors(n.table, start.table.kernel.Keys)
  }

  lemma GenuineShapes(cfg: Config, step: LockedStep)
    requires step.Apply? && Genuine(cfg, step)
    ensures forall r :: r in step.routes ==> CandidateShape(cfg, r)
  {
    forall r | r in step.routes
      ensures CandidateShape(cfg, r)
    {
      var info: RouteInfo, sender :| Candidate(cfg, info, sender) == Some(r);
      CandidateHasShape(cfg, info, sender);
    }
  }

  lemma StepKeepsSafe(cfg: Config, start: Node, n: Node, step: LockedStep)
    requires Safe(cfg, start, n) && Genuine(cfg, step)
    ensures Safe(cfg, start, Stepped(cfg, n, step))
  {
    hide Candidate, Canonical;
    match step
    case Record(news) =>
      forall x | x in news
        ensures CandidateShape(cfg, x.1.route) && Canonical(x.0) == Some(x.1.route.destination)
      {
        var info: RouteInfo, sender :| info.destination == x.0 && Candidate(cfg, info, sender) == Some(x.1.route);
        CandidateHasShape(cfg, info, sender);
      }
      RecordedSound(cfg, n.states, news);
    case Apply(routes) =>
      GenuineShapes(cfg, step);
      UpdatedAllWellFormed(cfg, n.table, routes);
    case RemoveStates(keys) =>
      DestinationsNotOurs(cfg, n.states, keys);
      PrunedWellFormed(cfg, n.table, Destinations(n.states, keys), {});
    case RemoveHop(hop) =>
      PrunedWellFormed(cfg, n.table, {}, {hop});
    case SetNeighbors(neighbors) =>
  }

  /** In every state reachable from construction the table is well-formed, the direct routes are
      the ones installed at construction, and the kernel mirrors the table off its initial prefixes. */
  lemma {:induction false} AlwaysSafe(cfg: Config, start: Node, steps: seq<LockedStep>)
    requires Fresh(cfg, start) && forall s :: s in steps ==> Genuine(cfg, s)
    ensures Safe(cfg, start, Run(cfg, start, steps))
  {
    if steps == [] {
      forall key | key !in start.table.kernel.Keys
        ensures MirrorsAt(start.table, key)
      {
        if Lookup(start.table.routes, key).Some? {
          LookupMember(start.table.routes, Lookup(start.table.routes, key).value);
        }
      }
    } else {
      AlwaysSafe(cfg, start, steps[..|steps| - 1]);
      StepKeepsSafe(cfg, start, Run(cfg, start, steps[..|steps| - 1]), steps[|steps| - 1]);
    }
  }

  // ----- metrics

  /** Unless the largest 32-bit metric is advertised, whose increment wraps to zero, every protocol
      route has a metric of at least 1. */
  lemma {:induction false} AlwaysPositive(cfg: Config, start: Node, steps: seq<LockedStep>)
    requires Fresh(cfg, start) && forall s :: s in steps ==> Genuine(cfg, s)
    requires forall s :: s in steps && s.Apply? ==> forall r :: r in s.routes ==> AdvertisedBelowMax(cfg, r)
    ensures forall e :: e in Run(cfg, start, steps).table.routes && e.source == Protocol ==> e.metric >= 1
  {
    if steps != [] {
      var front, step := steps[..|steps| - 1], steps[|steps| - 1];
      assert step in steps;
      AlwaysPositive(cfg, start, front);
      AlwaysSafe(cfg, start, front);
      AlwaysSafe(cfg, start, steps);
      var before, after := Run(cfg, start, front), Run(cfg, start, steps);
      forall e | e in after.table.routes && e.source == Protocol
        ensures e.metric >= 1
      {
        StepOrigin(cfg, start, before, step, e);
        if e !in before.table.routes {
          var info: RouteInfo, sender :| Candidate(cfg, info, sender) == Some(e) && info.metric < U32_MAX;
          CandidateHasShape(cfg, info, sender);
        }
      }
    }
  }

  // ----- interfaces

  /** The entry names the interface that some sender is heard on, and leads via that sender or via an
      address inside an interface network. */
  ghost predicate LearnedOver(cfg: Config, e: RouteEntry) {
    exists sender ::
      NamesHeard(cfg.interfaces, sender, e.iface) && (e.nextHop == sender || Reaches(cfg.interfaces, e.nextHop))
  }

  lemma GenuineIsLearnedOver(cfg: Config, r: RouteEntry, info: RouteInfo, sender: Addr)
    requires Candidate(cfg, info, sender) == Some(r)
    ensures LearnedOver(cfg, r)
  {
    CandidateNamesInterface(cfg, info, sender);
    hide NamesHeard, BestInterface;
  }

  /** In every state reachable from construction every protocol entry does. */
  lemma {:induction false} AlwaysLearnedOver(cfg: Config, start: Node, steps: seq<LockedStep>)
    requires Fresh(cfg, start) && forall s :: s in steps ==> Genuine(cfg, s)
    ensures forall e :: e in Run(cfg, start, steps).table.routes && e.source == Protocol ==> LearnedOver(cfg, e)
  {
    hide LearnedOver, Fresh, Candidate;
    if steps == [] {
      StartIsDirect(cfg, start);
    } else {
      var front, step := steps[..|steps| - 1], steps[|steps| - 1];
      assert step in steps;
      AlwaysLearnedOver(cfg, start, front);
      AlwaysSafe(cfg, start, front);
      forall e | e in Run(cfg, start, steps).table.routes && e.source == Protocol
        ensures LearnedOver(cfg, e)
      {
        StepOrigin(cfg, start, Run(cfg, start, front), step, e);
        if e !in Run(cfg, start, front).table.routes {
          var info: RouteInfo, sender :| Candidate(cfg, info, sender) == Some(e);
          GenuineIsLearnedOver(cfg, e, info, sender);
        }
      }
    }
  }

  lemma StartIsDirect(cfg: Config, start: Node)
    requires Fresh(cfg, start)
    ensures forall e :: e in start.table.routes ==> e.source == Direct
  {
  }

  // ----- where entries come from

  ghost predicate AdvertisedBelowMax(cfg: Config, r: RouteEntry) {
    exists info: RouteInfo, sender :: Candidate(cfg, info, sender) == Some(r) && info.metric < U32_MAX
  }

  /** An entry after a step was there before, or is one of the routes the step applies. */
  lemma StepOrigin(cfg: Config, start: Node, n: Node, step: LockedStep, e: RouteEntry)
    requires Safe(cfg, start, n) && Genuine(cfg, step) && e in Stepped(cfg, n, step).table.routes
    ensures e in n.table.routes || (step.Apply? && e in step.routes)
  {
    match step
    case Record(_) =>
    case SetNeighbors(_) =>
    case RemoveStates(keys) => SurvivorsMembers(n.table.routes, Destinations(n.states, keys), {}, e);
    case RemoveHop(hop) => SurvivorsMembers(n.table.routes, {}, {hop}, e);
    case Apply(routes) =>
      StepKeepsSafe(cfg, start, n, step);
      LookupMember(Stepped(cfg, n, step).table.routes, e);
      LookupUpdatedAll(cfg.local, n.table, routes, e.destination);
      RelaxedAllFrom(cfg.local, Lookup(n.table.routes, e.destination), routes, e.destination);
      LookupMember(n.table.routes, e);
  }

  // ----- the handlers are runs of locked steps

  lemma AcceptedAreGenuine(cfg: Config, rs: seq<RouteEntry>, infos: seq<RouteInfo>, sender: Addr, from: string,
                           now: nat)
    ensures Genuine(cfg, Record(AcceptedStates(rs, Texts(infos), Candidates(cfg, infos, sender), from, now)))
    ensures Genuine(cfg, Apply(AcceptedRoutes(rs, Candidates(cfg, infos, sender))))
  {
    var cands := Candidates(cfg, infos, sender);
    forall x | x in AcceptedStates(rs, Texts(infos), cands, from, now)
      ensures exists info: RouteInfo, sender ::
        info.destination == x.0 && Candidate(cfg, info, sender) == Some(x.1.route)
    {
      AcceptedStatesMember(rs, Texts(infos), cands, from, now, x);
      var i :| 0 <= i < |cands| && Texts(infos)[i] == x.0 && cands[i] == Some(x.1.route);
      assert infos[i].destination == x.0 && Candidate(cfg, infos[i], sender) == Some(x.1.route);
    }
    forall r | r in AcceptedRoutes(rs, cands)
      ensures exists info: RouteInfo, sender :: Candidate(cfg, info, sender) == Some(r)
    {
      AcceptedMember(rs, cands, r);
      var i :| 0 <= i < |cands| && cands[i] == Some(r);
      assert Candidate(cfg, infos[i], sender) == Some(r);
    }
  }

  /** An update handler runs three locked steps, each genuine. */
  lemma UpdateIsLockedSteps(cfg: Config, n: Node, update: RoutingUpdate, sender: Addr, now: nat)
    requires !OwnAddress(cfg, V4(sender)) && update.routerId != cfg.id
    ensures var cands, rs := Candidates(cfg, update.routes, sender), n.table.routes;
      var steps := [SetNeighbors(UpdateHeard(n.neighbors, update.routerId, now)),
                    Record(AcceptedStates(rs, Texts(update.routes), cands, update.routerId, now)),
                    Apply(AcceptedRoutes(rs, cands))];
      && (forall s :: s in steps ==> Genuine(cfg, s))
      && Run(cfg, n, steps) == UpdateReceived(cfg, n, update, V4(sender), now)
  {
    var cands, rs := Candidates(cfg, update.routes, sender), n.table.routes;
    var s0 := SetNeighbors(UpdateHeard(n.neighbors, update.routerId, now));
    var s1 := Record(AcceptedStates(rs, Texts(update.routes), cands, update.routerId, now));
    var s2 := Apply(AcceptedRoutes(rs, cands));
    AcceptedAreGenuine(cfg, rs, update.routes, sender, update.routerId, now);
    assert Genuine(cfg, s0);
    hide Genuine, Candidates, Texts, AcceptedStates, AcceptedRoutes, Stepped;
    RunOfThree(cfg, n, s0, s1, s2);
    ThreeStepsReceive(cfg, n, update, sender, now);
  }

  lemma RunOfThree(cfg: Config, n: Node, s0: LockedStep, s1: LockedStep, s2: LockedStep)
    ensures Run(cfg, n, [s0, s1, s2]) == Stepped(cfg, Stepped(cfg, Stepped(cfg, n, s0), s1), s2)
  {
    hide Stepped;
    RunSnoc(cfg, n, [], s0);
    RunSnoc(cfg, n, [s0], s1);
    RunSnoc(cfg, n, [s0, s1], s2);
    assert [] + [s0] == [s0] && [s0] + [s1] == [s0, s1] && [s0, s1] + [s2] == [s0, s1, s2];
  }

  lemma ThreeStepsReceive(cfg: Config, n: Node, update: RoutingUpdate, sender: Addr, now: nat)
    requires !OwnAddress(cfg, V4(sender)) && update.routerId != cfg.id
    ensures var cands, rs := Candidates(cfg, update.routes, sender), n.table.routes;
      var n0 := Stepped(cfg, n, SetNeighbors(UpdateHeard(n.neighbors, update.routerId, now)));
      var n1 := Stepped(cfg, n0, Record(AcceptedStates(rs, Texts(update.routes), cands, update.routerId, now)));
      Stepped(cfg, n1, Apply(AcceptedRoutes(rs, cands))) == UpdateReceived(cfg, n, update, V4(sender), now)
  {
    hide Candidates, Texts, AcceptedStates, AcceptedRoutes, UpdatedAll, Recorded, UpdateHeard;
  }

  lemma RunSnoc(cfg: Config, n: Node, steps: seq<LockedStep>, step: LockedStep)
    ensures Run(cfg, n, steps + [step]) == Stepped(cfg, Run(cfg, n, steps), step)
  {
    assert (steps + [step])[..|steps|] == steps;
  }

  ghost function OneKeyAtATime(keys: seq<string>): seq<LockedStep> {
    seq(|keys|, i requires 0 <= i < |keys| => RemoveStates({keys[i]}))
  }

  ghost function OneHopAtATime(hops: seq<Addr>): seq<LockedStep> {
    seq(|hops|, i requires 0 <= i < |hops| => RemoveHop(hops[i]))
  }

  ghost function KeySet(keys: seq<string>): set<string> {
    set k | k in keys
  }

  ghost function HopSet(hops: seq<Addr>): set<Addr> {
    set h | h in hops
  }

  lemma {:induction false} KeysInAnyOrder(cfg: Config, n: Node, keys: seq<string>)
    ensures Run(cfg, n, OneKeyAtATime(keys)) == Stepped(cfg, n, RemoveStates(KeySet(keys)))
  {
    if keys == [] {
      assert KeySet(keys) == {} && Destinations(n.states, {}) == {} && n.states - {} == n.states;
      PrunedByNothing(n.table);
    } else {
      var front, k := keys[..|keys| - 1], keys[|keys| - 1];
      KeysInAnyOrder(cfg, n, front);
      assert OneKeyAtATime(keys) == OneKeyAtATime(front) + [RemoveStates({k})];
      RunSnoc(cfg, n, OneKeyAtATime(front), RemoveStates({k}));
      RemoveStatesTwice(cfg, n, KeySet(front), k);
      assert KeySet(keys) == KeySet(front) + {k};
    }
  }

  lemma RemoveStatesTwice(cfg: Config, n: Node, keys: set<string>, k: string)
    ensures Stepped(cfg, Stepped(cfg, n, RemoveStates(keys)), RemoveStates({k}))
         == Stepped(cfg, n, RemoveStates(keys + {k}))
  {
    var d1, d2 := Destinations(n.states, keys), Destinations(n.states - keys, {k});
    PrunedByDestinationsTwice(n.table, d1, d2);
    assert d1 + d2 == Destinations(n.states, keys + {k});
    assert (n.states - keys) - {k} == n.states - (keys + {k});
  }

  lemma {:induction false} HopsInAnyOrder(cfg: Config, n: Node, hops: seq<Addr>)
    ensures Run(cfg, n, OneHopAtATime(hops)) == n.(table := Pruned(n.table, {}, HopSet(hops)))
  {
    if hops == [] {
      assert HopSet(hops) == {};
      PrunedByNothing(n.table);
    } else {
      var front, h := hops[..|hops| - 1], hops[|hops| - 1];
      HopsInAnyOrder(cfg, n, front);
      assert OneHopAtATime(hops) == OneHopAtATime(front) + [RemoveHop(h)];
      RunSnoc(cfg, n, OneHopAtATime(front), RemoveHop(h));
      PrunedByHopsTwice(n.table, HopSet(front), {h});
      assert HopSet(hops) == HopSet(front) + {h};
    }
  }

  lemma {:induction false} RunConcat(cfg: Config, n: Node, a: seq<LockedStep>, b: seq<LockedStep>)
    ensures Run(cfg, n, a + b) == Run(cfg, Run(cfg, n, a), b)
  {
    if b == [] {
      assert a + b == a;
    } else {
      assert (a + b)[..|a + b| - 1] == a + b[..|b| - 1];
      RunConcat(cfg, n, a, b[..|b| - 1]);
    }
  }

  /** A cleanup gives the same result in whatever order it visits neighbours, states and dead hops. */
  lemma CleanupInAnyOrder(cfg: Config, n: Node, now: nat, keys: seq<string>, hops: seq<Addr>)
    requires KeySet(keys) == Doomed(n, now)
    requires HopSet(hops) == AddressesOf(n.neighbors, NewlyDead(n.neighbors, now))
    ensures Run(cfg, n, [SetNeighbors(Marked(n.neighbors, now))] + OneKeyAtATime(keys) + OneHopAtATime(hops))
         == Cleaned(n, now)
  {
    var mark := [SetNeighbors(Marked(n.neighbors, now))];
    RunConcat(cfg, n, mark + OneKeyAtATime(keys), OneHopAtATime(hops));
    RunConcat(cfg, n, mark, OneKeyAtATime(keys));
    RunSnoc(cfg, n, [], mark[0]);
    assert [] + [mark[0]] == mark;
    var marked := n.(neighbors := Marked(n.neighbors, now));
    KeysInAnyOrder(cfg, marked, keys);
    var removed := Stepped(cfg, marked, RemoveStates(KeySet(keys)));
    HopsInAnyOrder(cfg, removed, hops);
    PrunedByBoth(n.table, Destinations(n.states, Doomed(n, now)), HopSet(hops));
  }
}
