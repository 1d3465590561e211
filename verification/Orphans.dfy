/** What the released locks cost: a cleanup in the middle of an update can leave a route without
    any route state, and then no age removes it. */
module Orphans {
  import opened Options
  import opened Ipv4
  import opened Routes
  import opened Pruning
  import opened Nodes
  import opened Invariants
  import opened Batches
  import opened Timeouts
  import I = Interleaving

  // ----- how an orphan arises

  /** A protocol route for d that no state covers. */
  ghost predicate Orphan(n: Node, d: Ipv4Network) {
    !Covers(n.states, d) && Lookup(n.table.routes, d).Some? && Lookup(n.table.routes, d).value.source == Protocol
  }

  ghost predicate OnlyBy(states: RouteStates, d: Ipv4Network, id: string) {
    forall k :: k in states && states[k].route.destination == d ==> states[k].advertisingNeighbor == id
  }

  /** Offered and accepted routes are installed on a table that has lost its entry in between. */
  lemma AppliedLate(cfg: Config, rs: seq<RouteEntry>, t: Table, cands: seq<Option<RouteEntry>>, c: RouteEntry)
    requires Distinct(t.routes) && Shaped(cfg, cands) && Offers(cfg, cands, c) && Accepts(rs, c)
    requires Lookup(t.routes, c.destination) == None
    ensures var x := Lookup(UpdatedAll(cfg.local, t, AcceptedRoutes(rs, cands)).routes, c.destination);
      x.Some? && x.value.source == Protocol
  {
    hide ValidRoute, Accepts;
    var acc, d := AcceptedRoutes(rs, cands), c.destination;
    AcceptedMember(rs, cands, c);
    forall r | r in acc && r.destination == d
      ensures ValidRoute(cfg.local, r) && r.source == Protocol
    {
      AcceptedMember(rs, cands, r);
    }
    LookupUpdatedAll(cfg.local, t, acc, d);
    RelaxedAllTakesLeast(cfg.local, None, acc, d);
  }

  lemma RemovedStates(rs: seq<RouteEntry>, kernel: Kernel, states: RouteStates, id: string, d: Ipv4Network)
    requires Distinct(rs) && Covers(states, d)
    ensures var keys := AdvertisedBy(states, {id});
      var left := Pruned(Table(rs, kernel), Destinations(states, keys), {}).routes;
      && (!Covers(states - keys, d) <==> OnlyBy(states, d, id))
      && (OnlyBy(states, d, id) ==> Distinct(left) && Lookup(left, d) == None)
  {
    var keys := AdvertisedBy(states, {id});
    LookupSurvivors(rs, Destinations(states, keys), {}, d);
    if k :| k in states && states[k].route.destination == d && states[k].advertisingNeighbor != id {
      assert k in states - keys && (states - keys)[k].route.destination == d;
    } else {
      assert d in Destinations(states, keys);
    }
  }

  /** The update handler records what it accepted, a cleanup that found the sender dead removes the
      states the sender advertised and their routes, and the handler applies its routes. */
  ghost function Interrupted(cfg: Config, n: Node, update: RoutingUpdate, sender: Addr, now: nat): Node {
    var cands, rs := Candidates(cfg, update.routes, sender), n.table.routes;
    var news := AcceptedStates(rs, Texts(update.routes), cands, update.routerId, now);
    I.Run(cfg, n, [I.Record(news), I.RemoveStates(AdvertisedBy(Recorded(n.states, news), {update.routerId})),
                   I.Apply(AcceptedRoutes(rs, cands))])
  }

  lemma InterruptedIs(cfg: Config, n: Node, update: RoutingUpdate, sender: Addr, now: nat)
    ensures var cands, rs := Candidates(cfg, update.routes, sender), n.table.routes;
      var states := Recorded(n.states, AcceptedStates(rs, Texts(update.routes), cands, update.routerId, now));
      var keys := AdvertisedBy(states, {update.routerId});
      var after := Interrupted(cfg, n, update, sender, now);
      && after.states == states - keys
      && after.table
         == UpdatedAll(cfg.local, Pruned(n.table, Destinations(states, keys), {}), AcceptedRoutes(rs, cands))
  {
    hide Candidate, AcceptedStates, AcceptedRoutes, Recorded, AdvertisedBy, UpdatedAll, Pruned, Destinations;
    var cands, rs := Candidates(cfg, update.routes, sender), n.table.routes;
    var news := AcceptedStates(rs, Texts(update.routes), cands, update.routerId, now);
    var keys := AdvertisedBy(Recorded(n.states, news), {update.routerId});
    I.RunOfThree(cfg, n, I.Record(news), I.RemoveStates(keys), I.Apply(AcceptedRoutes(rs, cands)));
  }

  /** Then a route that was offered and accepted is in the table with no state to cover it, exactly
      when no other neighbour's state was for its destination. */
  lemma {:induction false} InterruptedUpdateOrphans(cfg: Config, n: Node, update: RoutingUpdate, sender: Addr,
                                                    now: nat, c: RouteEntry)
    requires Orderly(cfg, n) && SaneConfig(cfg) && sender != UNSPECIFIED
    requires Offers(cfg, Candidates(cfg, update.routes, sender), c) && Accepts(n.table.routes, c)
    ensures Orphan(Interrupted(cfg, n, update, sender, now), c.destination)
      <==> OnlyBy(Processed(cfg, n, update, sender, now).states, c.destination, update.routerId)
  {
    hide Orderly, Candidate, AcceptedStates, AcceptedRoutes, Recorded, NewsCovered, Interrupted, OnlyBy, Accepts,
      CandidateShape, ValidRoute, UpdatedAll, Pruned, Destinations, AdvertisedBy, Covers, SaneConfig;
    var cands, rs := Candidates(cfg, update.routes, sender), n.table.routes;
    CandidatesHaveShape(cfg, update.routes, sender);
    CandidatesValidIff(cfg, update.routes, sender);
    NewsOfUpdate(cfg, n, update, sender, now, c);
    InterruptedIs(cfg, n, update, sender, now);
    var states := Processed(cfg, n, update, sender, now).states;
    OrphanArises(cfg, n, cands, states, update.routerId, c);
  }

  lemma OrphanArises(cfg: Config, n: Node, cands: seq<Option<RouteEntry>>, states: RouteStates, id: string,
                     c: RouteEntry)
    requires Distinct(n.table.routes) && Shaped(cfg, cands) && Covers(states, c.destination)
    requires Offers(cfg, cands, c) && Accepts(n.table.routes, c)
    ensures var keys := AdvertisedBy(states, {id});
      var t := UpdatedAll(cfg.local, Pruned(n.table, Destinations(states, keys), {}),
                          AcceptedRoutes(n.table.routes, cands));
      && (!Covers(states - keys, c.destination) <==> OnlyBy(states, c.destination, id))
      && (OnlyBy(states, c.destination, id) ==>
            Lookup(t.routes, c.destination).Some? && Lookup(t.routes, c.destination).value.source == Protocol)
  {
    hide Shaped, Offers, Accepts, OnlyBy, AdvertisedBy, Destinations, Pruned, UpdatedAll, AcceptedRoutes, Covers,
      Lookup, Distinct;
    RemovedStates(n.table.routes, n.table.kernel, states, id, c.destination);
    var t := Pruned(n.table, Destinations(states, AdvertisedBy(states, {id})), {});
    if OnlyBy(states, c.destination, id) {
      AppliedLate(cfg, n.table.routes, t, cands, c);
    }
  }

  lemma NewsOfUpdate(cfg: Config, n: Node, update: RoutingUpdate, sender: Addr, now: nat, c: RouteEntry)
    requires Orderly(cfg, n) && Some(c) in Candidates(cfg, update.routes, sender) && Accepts(n.table.routes, c)
    ensures Distinct(n.table.routes) && Covers(Processed(cfg, n, update, sender, now).states, c.destination)
  {
    var rs, texts, cands := n.table.routes, Texts(update.routes), Candidates(cfg, update.routes, sender);
    var news := AcceptedStates(rs, texts, cands, update.routerId, now);
    CandidatesFit(cfg, update.routes, sender);
    AcceptedStatesSound(cfg, rs, texts, cands, update.routerId, now);
    AcceptedStatesMatch(rs, texts, cands, update.routerId, now);
    AcceptedMember(rs, cands, c);
    RecordedCovers(Meaning, n.states, news);
  }

  // ----- how long it stays

  /** The event accepts some route for d. */
  ghost predicate AcceptsFor(cfg: Config, n: Node, te: Timed, d: Ipv4Network) {
    && te.event.Update? && te.event.ip.V4?
    && exists r :: Some(r) in Candidates(cfg, te.event.update.routes, te.event.ip.addr)
                   && r.destination == d && Accepts(n.table.routes, r)
  }

  lemma UpdateIgnores(cfg: Config, n: Node, update: RoutingUpdate, sender: Addr, now: nat, d: Ipv4Network)
    requires Distinct(n.table.routes) && !Covers(n.states, d)
    requires forall r :: Some(r) in Candidates(cfg, update.routes, sender) && r.destination == d ==>
      !Accepts(n.table.routes, r)
    ensures var after := Processed(cfg, n, update, sender, now);
      Lookup(after.table.routes, d) == Lookup(n.table.routes, d) && !Covers(after.states, d)
  {
    hide Candidate, Accepts;
    var rs, texts, cands := n.table.routes, Texts(update.routes), Candidates(cfg, update.routes, sender);
    var news := AcceptedStates(rs, texts, cands, update.routerId, now);
    forall r | r in AcceptedRoutes(rs, cands)
      ensures r.destination != d
    {
      AcceptedMember(rs, cands, r);
    }
    LookupUpdatedAll(cfg.local, n.table, AcceptedRoutes(rs, cands), d);
    NothingFor(cfg.local, Lookup(rs, d), AcceptedRoutes(rs, cands), d);
    forall k | k in Recorded(n.states, news)
      ensures Recorded(n.states, news)[k].route.destination != d
    {
      RecordedAt(n.states, news, k);
      if x :| x in news && x == (k, Recorded(n.states, news)[k]) {
        AcceptedStatesMember(rs, texts, cands, update.routerId, now, x);
      }
    }
  }

  /** A cleanup removes an uncovered protocol route exactly when it leads via a newly dead neighbour. */
  lemma UncoveredRemovedIff(cfg: Config, n: Node, now: nat, d: Ipv4Network)
    requires WellFormed(cfg, n.table.routes) && SoundStates(cfg, n.states) && !Covers(n.states, d)
    requires Lookup(n.table.routes, d).Some? && Lookup(n.table.routes, d).value.source == Protocol
    ensures Lookup(Cleaned(n, now).table.routes, d) == None
      <==> HopGivesUp(n, now, Lookup(n.table.routes, d).value.nextHop)
    ensures !Covers(Cleaned(n, now).states, d)
  {
    CleanupRemovesExactly(cfg, n, now, d);
  }

  ghost predicate Formed(cfg: Config, n: Node) {
    WellFormed(cfg, n.table.routes) && SoundStates(cfg, n.states)
  }

  lemma HappenedFormed(cfg: Config, n: Node, te: Timed)
    requires Formed(cfg, n)
    ensures Formed(cfg, Happened(cfg, n, te))
  {
    hide WellFormed, SoundStates;
    match te.event
    case Hello(hello, ip) =>
    case Update(update, ip) =>
      if !OwnAddress(cfg, ip) && update.routerId != cfg.id && ip.V4? {
        var cands := Candidates(cfg, update.routes, ip.addr);
        CandidatesHaveShape(cfg, update.routes, ip.addr);
        AcceptedHaveShape(cfg, n.table.routes, cands);
        UpdatedAllWellFormed(cfg, n.table, AcceptedRoutes(n.table.routes, cands));
        ProcessedSound(cfg, n.(neighbors := UpdateHeard(n.neighbors, update.routerId, te.at)), update, ip.addr, te.at);
      }
    case Cleanup =>
      DestinationsNotOurs(cfg, n.states, Doomed(n, te.at));
      PrunedWellFormed(cfg, n.table, Destinations(n.states, Doomed(n, te.at)),
                       AddressesOf(n.neighbors, NewlyDead(n.neighbors, te.at)));
      assert SoundStates(cfg, Cleaned(n, te.at).states) by {
        FewerStatesSound(cfg, n.states, Doomed(n, te.at));
      }
  }

  lemma FewerStatesSound(cfg: Config, states: RouteStates, keys: set<string>)
    requires SoundStates(cfg, states)
    ensures SoundStates(cfg, states - keys)
  {
  }

  lemma OrphanStep(cfg: Config, n: Node, te: Timed, d: Ipv4Network)
    requires Formed(cfg, n) && Orphan(n, d) && !AcceptsFor(cfg, n, te, d)
    requires te.event.Cleanup? ==> !HopGivesUp(n, te.at, Lookup(n.table.routes, d).value.nextHop)
    ensures var after := Happened(cfg, n, te);
      Orphan(after, d) && Lookup(after.table.routes, d) == Lookup(n.table.routes, d)
  {
    hide HopGivesUp, SoundStates, Covers;
    match te.event
    case Hello(hello, ip) =>
    case Update(update, ip) =>
      if !OwnAddress(cfg, ip) && update.routerId != cfg.id && ip.V4? {
        var heard := n.(neighbors := UpdateHeard(n.neighbors, update.routerId, te.at));
        UpdateIgnores(cfg, heard, update, ip.addr, te.at, d);
      }
    case Cleanup =>
      CleanupRemovesExactly(cfg, n, te.at, d);
      UncoveredRemovedIff(cfg, n, te.at, d);
  }

  /** Nothing in the run accepts a route for d, and no cleanup finds a neighbour at hop newly dead. */
  ghost predicate LeftAlone(cfg: Config, n: Node, tes: seq<Timed>, d: Ipv4Network, hop: Addr) {
    forall i :: 0 <= i < |tes| ==>
      var before := Run(cfg, n, tes[..i]);
      !AcceptsFor(cfg, before, tes[i], d) && (tes[i].event.Cleanup? ==> !HopGivesUp(before, tes[i].at, hop))
  }

  /** An orphan outlives every timeout: whatever the clock says, only a new acceptance for its
      destination or the death of the neighbour it leads via can change it. */
  lemma {:induction false} OrphansStay(cfg: Config, n: Node, tes: seq<Timed>, d: Ipv4Network)
    requires Formed(cfg, n) && Orphan(n, d)
    requires LeftAlone(cfg, n, tes, d, Lookup(n.table.routes, d).value.nextHop)
    ensures var m := Run(cfg, n, tes);
      Formed(cfg, m) && Orphan(m, d) && Lookup(m.table.routes, d) == Lookup(n.table.routes, d)
  {
    hide Formed, Orphan, AcceptsFor, HopGivesUp, Happened;
    if tes != [] {
      var front, te := tes[..|tes| - 1], tes[|tes| - 1];
      forall i | 0 <= i < |front|
        ensures front[..i] == tes[..i]
      {
      }
      OrphansStay(cfg, n, front, d);
      OrphanStep(cfg, Run(cfg, n, front), te, d);
      HappenedFormed(cfg, Run(cfg, n, front), te);
    }
  }
}
