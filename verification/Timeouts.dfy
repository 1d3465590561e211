/** Runs of one router over time, with updates and cleanups as atomic steps: what covers a
    route, how old that can be, and when a neighbour is reported dead. */
module Timeouts {
  import opened Options
  import opened Ipv4
  import opened Ipv4Text
  import opened Routes
  import opened Pruning
  import opened Nodes
  import opened Invariants
  import opened Batches

  datatype Event =
    | Hello(hello: Greeting, ip: IpAddr)
    | Update(update: RoutingUpdate, ip: IpAddr)
    | Cleanup

  datatype Timed = Timed(at: nat, event: Event)

  ghost function Happened(cfg: Config, n: Node, te: Timed): Node {
    match te.event
    case Hello(hello, ip) => HelloReceived(cfg, n, hello, ip, te.at)
    case Update(update, ip) => UpdateReceived(cfg, n, update, ip, te.at)
    case Cleanup => Cleaned(n, te.at)
  }

  ghost function Run(cfg: Config, n: Node, tes: seq<Timed>): Node {
    if tes == [] then n else Happened(cfg, Run(cfg, n, tes[..|tes| - 1]), tes[|tes| - 1])
  }

  /** A monotone clock that starts at t. */
  ghost predicate MonotoneFrom(t: nat, tes: seq<Timed>) {
    && (forall i :: 0 <= i < |tes| ==> t <= tes[i].at)
    && (forall i, j :: 0 <= i < j < |tes| ==> tes[i].at <= tes[j].at)
  }

  /** The time after a run that started at t. */
  function Clock(t: nat, tes: seq<Timed>): nat {
    if tes == [] then t else tes[|tes| - 1].at
  }

  /** When the last cleanup of the run was; the start counts as one. */
  function LastCleanup(t: nat, tes: seq<Timed>): nat {
    if tes == [] then t
    else if tes[|tes| - 1].event.Cleanup? then tes[|tes| - 1].at
    else LastCleanup(t, tes[..|tes| - 1])
  }

  // ----- coverage of protocol routes by route states

  ghost predicate Covers(states: RouteStates, d: Ipv4Network) {
    exists k :: k in states && states[k].route.destination == d
  }

  ghost predicate AllCovered(n: Node) {
    forall d :: Lookup(n.table.routes, d).Some? && Lookup(n.table.routes, d).value.source == Protocol ==>
      Covers(n.states, d)
  }

  ghost predicate Orderly(cfg: Config, n: Node) {
    WellFormed(cfg, n.table.routes) && SoundStates(cfg, n.states) && AllCovered(n)
  }

  ghost predicate TextsFit(cfg: Config, texts: seq<string>, cands: seq<Option<RouteEntry>>) {
    && |texts| == |cands|
    && (forall i :: 0 <= i < |cands| && cands[i].Some? ==>
          CandidateShape(cfg, cands[i].value) && Canonical(texts[i]) == Some(cands[i].value.destination))
  }

  lemma CandidatesFit(cfg: Config, infos: seq<RouteInfo>, sender: Addr)
    ensures TextsFit(cfg, Texts(infos), Candidates(cfg, infos, sender))
  {
    forall i | 0 <= i < |infos| && Candidates(cfg, infos, sender)[i].Some?
      ensures CandidateShape(cfg, Candidates(cfg, infos, sender)[i].value)
      ensures Canonical(Texts(infos)[i]) == Some(Candidates(cfg, infos, sender)[i].value.destination)
    {
      CandidateHasShape(cfg, infos[i], sender);
    }
  }

  lemma {:induction false} AcceptedStatesSound(cfg: Config, rs: seq<RouteEntry>, texts: seq<string>,
                                               cands: seq<Option<RouteEntry>>, from: string, now: nat)
    requires TextsFit(cfg, texts, cands)
    ensures SoundNews(cfg, AcceptedStates(rs, texts, cands, from, now))
  {
    if cands != [] {
      AcceptedStatesSound(cfg, rs, texts[..|texts| - 1], cands[..|cands| - 1], from, now);
    }
  }

  lemma {:induction false} AcceptedStatesMatch(rs: seq<RouteEntry>, texts: seq<string>, cands: seq<Option<RouteEntry>>,
                                               from: string, now: nat)
    requires |texts| == |cands|
    ensures forall x :: x in AcceptedStates(rs, texts, cands, from, now) ==>
      x.1.lastAdvertised == now && x.1.advertisingNeighbor == from
    ensures forall r :: r in AcceptedRoutes(rs, cands) ==>
      exists x :: x in AcceptedStates(rs, texts, cands, from, now) && x.1.route == r
  {
    if cands != [] {
      var n := |cands| - 1;
      AcceptedStatesMatch(rs, texts[..n], cands[..n], from, now);
      var xs := AcceptedStates(rs, texts[..n], cands[..n], from, now);
      if cands[n].Some? && Accepts(rs, cands[n].value) {
        var x := (texts[n], RouteState(cands[n].value, now, from));
        assert AcceptedStates(rs, texts, cands, from, now) == xs + [x];
        assert x in xs + [x] && forall y :: y in xs ==> y in xs + [x];
      }
    }
  }

  lemma RecordedOneCovers(states: RouteStates, text: string, state: RouteState)
    requires text in states ==> states[text].route.destination == state.route.destination
    ensures forall d :: Covers(states, d) ==> Covers(states[text := state], d)
    ensures Covers(states[text := state], state.route.destination)
  {
    var after := states[text := state];
    assert text in after && after[text].route.destination == state.route.destination;
    forall d | Covers(states, d)
      ensures Covers(after, d)
    {
      var k :| k in states && states[k].route.destination == d;
      assert k in after && after[k].route.destination == d;
    }
  }

  ghost predicate NewsCovered(states: RouteStates, news: seq<(string, RouteState)>) {
    forall x :: x in news ==> Covers(states, x.1.route.destination)
  }

  /** Recording covers what was covered and what is recorded, as a text only ever stands for one destination. */
  lemma {:induction false} RecordedCovers(meaning: string -> Ipv4Network, states: RouteStates,
                                          news: seq<(string, RouteState)>)
    requires forall k :: k in states ==> states[k].route.destination == meaning(k)
    requires forall x :: x in news ==> x.1.route.destination == meaning(x.0)
    ensures forall k :: k in Recorded(states, news) ==> Recorded(states, news)[k].route.destination == meaning(k)
    ensures forall d :: Covers(states, d) ==> Covers(Recorded(states, news), d)
    ensures NewsCovered(Recorded(states, news), news)
  {
    if news != [] {
      var front, last := news[..|news| - 1], news[|news| - 1];
      RecordedCovers(meaning, states, front);
      assert last in news;
      RecordedOneCovers(Recorded(states, front), last.0, last.1);
      assert forall x :: x in news ==> x in front || x == last;
    }
  }

  function Meaning(text: string): Ipv4Network {
    match Canonical(text)
    case Some(d) => d
    case None => Net(0, 0)
  }

  lemma ProcessedSound(cfg: Config, n: Node, update: RoutingUpdate, sender: Addr, now: nat)
    requires SoundStates(cfg, n.states)
    ensures SoundStates(cfg, Processed(cfg, n, update, sender, now).states)
  {
    var texts, cands := Texts(update.routes), Candidates(cfg, update.routes, sender);
    CandidatesFit(cfg, update.routes, sender);
    AcceptedStatesSound(cfg, n.table.routes, texts, cands, update.routerId, now);
    RecordedSound(cfg, n.states, AcceptedStates(n.table.routes, texts, cands, update.routerId, now));
  }

  lemma ProcessedOrderly(cfg: Config, n: Node, update: RoutingUpdate, sender: Addr, now: nat)
    requires Orderly(cfg, n)
    ensures Orderly(cfg, Processed(cfg, n, update, sender, now))
  {
    var rs, texts, cands := n.table.routes, Texts(update.routes), Candidates(cfg, update.routes, sender);
    var routes, news := AcceptedRoutes(rs, cands), AcceptedStates(rs, texts, cands, update.routerId, now);
    CandidatesHaveShape(cfg, update.routes, sender);
    AcceptedHaveShape(cfg, rs, cands);
    UpdatedAllWellFormed(cfg, n.table, routes);
    ProcessedSound(cfg, n, update, sender, now);
    CandidatesFit(cfg, update.routes, sender);
    AcceptedStatesSound(cfg, rs, texts, cands, update.routerId, now);
    AcceptedStatesMatch(rs, texts, cands, update.routerId, now);
    RecordedCovers(Meaning, n.states, news);
    var after := Processed(cfg, n, update, sender, now);
    forall d | Lookup(after.table.routes, d).Some? && Lookup(after.table.routes, d).value.source == Protocol
      ensures Covers(after.states, d)
    {
      LookupUpdatedAll(cfg.local, n.table, routes, d);
      RelaxedAllFrom(cfg.local, Lookup(rs, d), routes, d);
    }
  }

  /** Cleanup removes a route together with the first of its states, so the survivors keep theirs. */
  lemma CleanedOrderly(cfg: Config, n: Node, now: nat)
    requires Orderly(cfg, n)
    ensures Orderly(cfg, Cleaned(n, now))
    ensures forall k :: k in Cleaned(n, now).states ==>
      Since(now, Cleaned(n, now).states[k].lastAdvertised) <= ROUTE_TIMEOUT
  {
    var after := Cleaned(n, now);
    var dests := Destinations(n.states, Doomed(n, now));
    var vias := AddressesOf(n.neighbors, NewlyDead(n.neighbors, now));
    DestinationsNotOurs(cfg, n.states, Doomed(n, now));
    PrunedWellFormed(cfg, n.table, dests, vias);
    forall d | Lookup(after.table.routes, d).Some? && Lookup(after.table.routes, d).value.source == Protocol
      ensures Covers(after.states, d)
    {
      LookupSurvivors(n.table.routes, dests, vias, d);
      var k :| k in n.states && n.states[k].route.destination == d;
      assert k in Doomed(n, now) ==> d in dests;
      assert k in after.states && after.states[k].route.destination == d;
    }
  }

  lemma HappenedOrderly(cfg: Config, n: Node, te: Timed)
    requires Orderly(cfg, n)
    ensures Orderly(cfg, Happened(cfg, n, te))
  {
    match te.event
    case Hello(hello, ip) =>
    case Update(update, ip) =>
      if !OwnAddress(cfg, ip) && update.routerId != cfg.id && ip.V4? {
        var heard := n.(neighbors := UpdateHeard(n.neighbors, update.routerId, te.at));
        ProcessedOrderly(cfg, heard, update, ip.addr, te.at);
      }
    case Cleanup => CleanedOrderly(cfg, n, te.at);
  }

  // ----- when a route state is stamped

  /** The event accepts a route advertised under the text k, and so stamps states[k] anew. */
  ghost predicate Restamps(cfg: Config, n: Node, te: Timed, k: string) {
    && te.event.Update? && te.event.ip.V4? && !OwnAddress(cfg, te.event.ip) && te.event.update.routerId != cfg.id
    && AcceptsUnder(n.table.routes, Texts(te.event.update.routes),
                    Candidates(cfg, te.event.update.routes, te.event.ip.addr), k)
  }

  ghost predicate AcceptsUnder(rs: seq<RouteEntry>, texts: seq<string>, cands: seq<Option<RouteEntry>>, k: string)
    requires |texts| == |cands|
  {
    exists i :: 0 <= i < |cands| && texts[i] == k && cands[i].Some? && Accepts(rs, cands[i].value)
  }

  lemma {:induction false} RecordedAt(states: RouteStates, news: seq<(string, RouteState)>, k: string)
    ensures if exists x :: x in news && x.0 == k
            then k in Recorded(states, news) && (k, Recorded(states, news)[k]) in news
            else (k in Recorded(states, news) <==> k in states)
                 && (k in states ==> Recorded(states, news)[k] == states[k])
  {
    if news != [] {
      var front, last := news[..|news| - 1], news[|news| - 1];
      RecordedAt(states, front, k);
      assert forall x :: x in news <==> x in front || x == last;
    }
  }

  /** An update stamps exactly the texts under which it advertises something that is accepted. */
  lemma StampedByUpdate(cfg: Config, n: Node, update: RoutingUpdate, sender: Addr, now: nat, k: string)
    ensures var states := Processed(cfg, n, update, sender, now).states;
      if AcceptsUnder(n.table.routes, Texts(update.routes), Candidates(cfg, update.routes, sender), k)
      then k in states && states[k].lastAdvertised == now && states[k].advertisingNeighbor == update.routerId
      else (k in states <==> k in n.states) && (k in states ==> states[k] == n.states[k])
  {
    hide Candidate, Accepts;
    var rs, texts, cands := n.table.routes, Texts(update.routes), Candidates(cfg, update.routes, sender);
    var news := AcceptedStates(rs, texts, cands, update.routerId, now);
    RecordedAt(n.states, news, k);
    if AcceptsUnder(rs, texts, cands, k) {
      var i :| 0 <= i < |cands| && texts[i] == k && cands[i].Some? && Accepts(rs, cands[i].value);
      var x := (k, RouteState(cands[i].value, now, update.routerId));
      AcceptedStatesMember(rs, texts, cands, update.routerId, now, x);
      AcceptedStatesMatch(rs, texts, cands, update.routerId, now);
    } else if x :| x in news && x.0 == k {
      AcceptedStatesMember(rs, texts, cands, update.routerId, now, x);
    }
  }

  /** Outside cleanup a route state changes exactly when it is stamped. */
  lemma StampedIff(cfg: Config, n: Node, te: Timed, k: string)
    requires !te.event.Cleanup?
    ensures var states := Happened(cfg, n, te).states;
      if Restamps(cfg, n, te, k)
      then k in states && states[k].lastAdvertised == te.at && states[k].advertisingNeighbor == te.event.update.routerId
      else (k in states <==> k in n.states) && (k in states ==> states[k] == n.states[k])
  {
    hide Processed, AcceptsUnder;
    if te.event.Update? && !OwnAddress(cfg, te.event.ip) && te.event.update.routerId != cfg.id && te.event.ip.V4? {
      var update := te.event.update;
      var heard := n.(neighbors := UpdateHeard(n.neighbors, update.routerId, te.at));
      StampedByUpdate(cfg, heard, update, te.event.ip.addr, te.at, k);
    }
  }

  // ----- how old a covering state can be

  ghost predicate NotBefore(states: RouteStates, t: int) {
    forall k :: k in states ==> states[k].lastAdvertised >= t
  }

  lemma MessageKeepsTimes(cfg: Config, n: Node, te: Timed, t: int)
    requires NotBefore(n.states, t) && te.at >= t && !te.event.Cleanup?
    ensures NotBefore(Happened(cfg, n, te).states, t)
  {
    forall k | k in Happened(cfg, n, te).states
      ensures Happened(cfg, n, te).states[k].lastAdvertised >= t
    {
      StampedIff(cfg, n, te, k);
    }
  }

  /** In every run each protocol route is covered by a state, and no state was last advertised
      more than ROUTE_TIMEOUT before the latest cleanup. */
  lemma {:induction false} RoutesStayCovered(cfg: Config, n: Node, t: nat, tes: seq<Timed>)
    requires Orderly(cfg, n) && MonotoneFrom(t, tes) && NotBefore(n.states, t - ROUTE_TIMEOUT)
    ensures Orderly(cfg, Run(cfg, n, tes))
    ensures LastCleanup(t, tes) <= Clock(t, tes)
    ensures NotBefore(Run(cfg, n, tes).states, LastCleanup(t, tes) - ROUTE_TIMEOUT)
  {
    hide Orderly, Happened;
    if tes != [] {
      var front, te := tes[..|tes| - 1], tes[|tes| - 1];
      RoutesStayCovered(cfg, n, t, front);
      var before := Run(cfg, n, front);
      HappenedOrderly(cfg, before, te);
      if te.event.Cleanup? {
        CleanupLeavesFresh(cfg, before, te);
      } else {
        hide NotBefore;
        MessageKeepsTimes(cfg, before, te, LastCleanup(t, tes) - ROUTE_TIMEOUT);
      }
    }
  }

  lemma CleanupLeavesFresh(cfg: Config, n: Node, te: Timed)
    requires Orderly(cfg, n) && te.event.Cleanup?
    ensures NotBefore(Happened(cfg, n, te).states, te.at - ROUTE_TIMEOUT)
  {
    CleanedOrderly(cfg, n, te.at);
  }

  /** With cleanups at most period apart, a protocol route always has a covering advertisement no
      older than ROUTE_TIMEOUT + period. */
  lemma RoutesAreFresh(cfg: Config, n: Node, t: nat, tes: seq<Timed>, now: nat, period: nat, d: Ipv4Network)
    requires Orderly(cfg, n) && n.states == map[] && MonotoneFrom(t, tes)
    requires Clock(t, tes) <= now <= LastCleanup(t, tes) + period
    requires Lookup(Run(cfg, n, tes).table.routes, d).Some?
    requires Lookup(Run(cfg, n, tes).table.routes, d).value.source == Protocol
    ensures var states := Run(cfg, n, tes).states;
      exists k :: k in states && states[k].route.destination == d
                  && Since(now, states[k].lastAdvertised) <= ROUTE_TIMEOUT + period
  {
    hide WellFormed, SoundStates, Run;
    RoutesStayCovered(cfg, n, t, tes);
    var states := Run(cfg, n, tes).states;
    assert Covers(states, d);
    var k :| k in states && states[k].route.destination == d;
  }

  // ----- what cleanup does

  /** Some state for d is stale, or was advertised by a neighbour that this cleanup declares dead. */
  ghost predicate StateGivesUp(n: Node, now: nat, d: Ipv4Network) {
    exists k :: k in n.states && n.states[k].route.destination == d
                && (Since(now, n.states[k].lastAdvertised) > ROUTE_TIMEOUT
                    || n.states[k].advertisingNeighbor in NewlyDead(n.neighbors, now))
  }

  /** The last known address of a neighbour that this cleanup declares dead. */
  ghost predicate HopGivesUp(n: Node, now: nat, hop: Addr) {
    exists id :: id in NewlyDead(n.neighbors, now) && n.neighbors[id].ip == V4(hop)
  }

  lemma DroppedByCleanup(n: Node, now: nat, e: RouteEntry)
    ensures Dropped(e, Destinations(n.states, Doomed(n, now)), AddressesOf(n.neighbors, NewlyDead(n.neighbors, now)))
      <==> StateGivesUp(n, now, e.destination) || (e.source == Protocol && HopGivesUp(n, now, e.nextHop))
  {
    var doomed, dead := Doomed(n, now), NewlyDead(n.neighbors, now);
    if StateGivesUp(n, now, e.destination) {
      var k :| k in n.states && n.states[k].route.destination == e.destination
               && (Since(now, n.states[k].lastAdvertised) > ROUTE_TIMEOUT || n.states[k].advertisingNeighbor in dead);
      assert k in doomed;
    }
    if e.nextHop in AddressesOf(n.neighbors, dead) {
      var id :| id in dead && id in n.neighbors && n.neighbors[id].ip.V4? && n.neighbors[id].ip.addr == e.nextHop;
      assert n.neighbors[id].ip == V4(e.nextHop);
    }
  }

  /** Cleanup is a filter: per destination it keeps or drops, and it drops just the protocol routes
      that a stale or newly-dead-advertised state covers or that lead via a newly dead neighbour. */
  lemma CleanupRemovesExactly(cfg: Config, n: Node, now: nat, d: Ipv4Network)
    requires WellFormed(cfg, n.table.routes) && SoundStates(cfg, n.states)
    ensures var before, after := Lookup(n.table.routes, d), Lookup(Cleaned(n, now).table.routes, d);
      && (after == before || after == None)
      && (before.Some? ==>
            (after.None? <==> before.value.source == Protocol
                              && (StateGivesUp(n, now, d) || HopGivesUp(n, now, before.value.nextHop))))
  {
    var before, doomed := Lookup(n.table.routes, d), Doomed(n, now);
    LookupSurvivors(n.table.routes, Destinations(n.states, doomed),
                    AddressesOf(n.neighbors, NewlyDead(n.neighbors, now)), d);
    DestinationsNotOurs(cfg, n.states, doomed);
    if before.Some? {
      DroppedByCleanup(n, now, before.value);
    }
  }

  /** The same in seconds: sixteen for a route state, twelve for a neighbour. */
  ghost predicate DeadAfterTwelve(neighbors: Neighbors, now: nat, id: string) {
    id in neighbors && neighbors[id].isAlive && now > neighbors[id].lastSeen + 12_000_000_000
  }

  lemma NewlyDeadInSeconds(neighbors: Neighbors, now: nat, id: string)
    ensures id in NewlyDead(neighbors, now) <==> DeadAfterTwelve(neighbors, now, id)
  {
  }

  ghost predicate GivenUpAfterSixteen(n: Node, now: nat, d: Ipv4Network) {
    exists k :: k in n.states && n.states[k].route.destination == d
                && (now > n.states[k].lastAdvertised + 16_000_000_000
                    || DeadAfterTwelve(n.neighbors, now, n.states[k].advertisingNeighbor))
  }

  ghost predicate HopDeadAfterTwelve(n: Node, now: nat, hop: Addr) {
    exists id :: DeadAfterTwelve(n.neighbors, now, id) && n.neighbors[id].ip == V4(hop)
  }

  /** A cleanup keeps a protocol route exactly as long as no state for it is more than sixteen seconds
      old and neither an advertiser of it nor the neighbour at its next hop is now found to have been
      silent for more than twelve. */
  lemma KeptInSeconds(cfg: Config, n: Node, now: nat, d: Ipv4Network)
    requires WellFormed(cfg, n.table.routes) && SoundStates(cfg, n.states)
    requires Lookup(n.table.routes, d).Some? && Lookup(n.table.routes, d).value.source == Protocol
    ensures var before, after := Lookup(n.table.routes, d), Lookup(Cleaned(n, now).table.routes, d);
      after == if GivenUpAfterSixteen(n, now, d) || HopDeadAfterTwelve(n, now, before.value.nextHop) then None
               else before
  {
    CleanupRemovesExactly(cfg, n, now, d);
    forall id
      ensures id in NewlyDead(n.neighbors, now) <==> DeadAfterTwelve(n.neighbors, now, id)
    {
      NewlyDeadInSeconds(n.neighbors, now, id);
    }
    hide NewlyDead, DeadAfterTwelve, Cleaned, WellFormed, SoundStates;
    StatesInSeconds(n, now, d);
  }

  lemma StatesInSeconds(n: Node, now: nat, d: Ipv4Network)
    ensures StateGivesUp(n, now, d) <==> GivenUpAfterSixteen(n, now, d)
  {
    forall id
      ensures id in NewlyDead(n.neighbors, now) <==> DeadAfterTwelve(n.neighbors, now, id)
    {
      NewlyDeadInSeconds(n.neighbors, now, id);
    }
    hide NewlyDead, DeadAfterTwelve;
    assert forall k :: k in n.states ==>
      (Since(now, n.states[k].lastAdvertised) > ROUTE_TIMEOUT <==> now > n.states[k].lastAdvertised + 16_000_000_000);
  }

  // ----- until a cleanup takes the route

  lemma {:induction false} RunOrderly(cfg: Config, n: Node, tes: seq<Timed>)
    requires Orderly(cfg, n)
    ensures Orderly(cfg, Run(cfg, n, tes))
  {
    if tes != [] {
      RunOrderly(cfg, n, tes[..|tes| - 1]);
      HappenedOrderly(cfg, Run(cfg, n, tes[..|tes| - 1]), tes[|tes| - 1]);
    }
  }

  /** Some cleanup of the run left no route for d. */
  ghost predicate CleanedAway(cfg: Config, n: Node, tes: seq<Timed>, d: Ipv4Network) {
    exists i :: 0 <= i < |tes| && LeavesNone(cfg, n, tes, i, d)
  }

  ghost predicate LeavesNone(cfg: Config, n: Node, tes: seq<Timed>, i: nat, d: Ipv4Network)
    requires i < |tes|
  {
    tes[i].event.Cleanup? && Lookup(Run(cfg, n, tes[..i + 1]).table.routes, d) == None
  }

  lemma CleanedAwayBefore(cfg: Config, n: Node, tes: seq<Timed>, te: Timed, d: Ipv4Network)
    requires CleanedAway(cfg, n, tes, d)
    ensures CleanedAway(cfg, n, tes + [te], d)
  {
    hide Happened;
    var i :| 0 <= i < |tes| && LeavesNone(cfg, n, tes, i, d);
    assert (tes + [te])[..i + 1] == tes[..i + 1];
    assert LeavesNone(cfg, n, tes + [te], i, d);
  }

  lemma CleanedAwayNow(cfg: Config, n: Node, tes: seq<Timed>, now: nat, d: Ipv4Network)
    requires Lookup(Cleaned(Run(cfg, n, tes), now).table.routes, d) == None
    ensures CleanedAway(cfg, n, tes + [Timed(now, Cleanup)], d)
  {
    hide Cleaned, HelloReceived, UpdateReceived;
    var all := tes + [Timed(now, Cleanup)];
    assert all[..|tes|] == tes && all[..|tes| + 1] == all;
    assert LeavesNone(cfg, n, all, |tes|, d);
  }

  /** The cleanup at now takes the state filed under k. */
  ghost predicate GivesUp(n: Node, k: string, now: nat) {
    k in n.states && (Since(now, n.states[k].lastAdvertised) > ROUTE_TIMEOUT
                      || n.states[k].advertisingNeighbor in NewlyDead(n.neighbors, now))
  }

  /** A cleanup keeps a state as it is, or takes it together with the route. */
  lemma CleanupTakesBoth(cfg: Config, n: Node, k: string, now: nat)
    requires Orderly(cfg, n) && k in n.states
    ensures var after := Cleaned(n, now);
      if GivesUp(n, k, now) then k !in after.states && Lookup(after.table.routes, n.states[k].route.destination) == None
      else k in after.states && after.states[k] == n.states[k]
  {
    DoomedIff(n, k, now);
    if GivesUp(n, k, now) {
      RouteGoesToo(cfg, n, k, now);
    }
    hide Orderly, Pruned, NewlyDead, Marked, Doomed, GivesUp;
  }

  lemma DoomedIff(n: Node, k: string, now: nat)
    ensures k in Doomed(n, now) <==> GivesUp(n, k, now)
  {
    hide NewlyDead;
  }

  lemma RouteGoesToo(cfg: Config, n: Node, k: string, now: nat)
    requires Orderly(cfg, n) && GivesUp(n, k, now)
    ensures Lookup(Cleaned(n, now).table.routes, n.states[k].route.destination) == None
  {
    var d := n.states[k].route.destination;
    ProtocolWhereStated(cfg, n, k);
    hide WellFormed, SoundStates, AllCovered, Cleaned, NewlyDead;
    assert StateGivesUp(n, now, d);
    CleanupRemovesExactly(cfg, n, now, d);
  }

  lemma ProtocolWhereStated(cfg: Config, n: Node, k: string)
    requires Orderly(cfg, n) && k in n.states
    ensures var e := Lookup(n.table.routes, n.states[k].route.destination);
      e.Some? ==> e.value.source == Protocol
  {
  }

  ghost predicate NeverStamped(cfg: Config, n: Node, tes: seq<Timed>, k: string) {
    forall i :: 0 <= i < |tes| ==> !Restamps(cfg, Run(cfg, n, tes[..i]), tes[i], k)
  }

  ghost predicate StampedOnlyBy(cfg: Config, n: Node, tes: seq<Timed>, k: string, id: string) {
    forall i :: 0 <= i < |tes| && Restamps(cfg, Run(cfg, n, tes[..i]), tes[i], k) ==> tes[i].event.update.routerId == id
  }

  lemma NeverStampedFront(cfg: Config, n: Node, tes: seq<Timed>, k: string)
    requires tes != [] && NeverStamped(cfg, n, tes, k)
    ensures NeverStamped(cfg, n, tes[..|tes| - 1], k)
    ensures !Restamps(cfg, Run(cfg, n, tes[..|tes| - 1]), tes[|tes| - 1], k)
  {
    var front := tes[..|tes| - 1];
    forall i | 0 <= i < |front|
      ensures !Restamps(cfg, Run(cfg, n, front[..i]), front[i], k)
    {
      assert front[..i] == tes[..i];
    }
  }

  lemma StampedOnlyByFront(cfg: Config, n: Node, tes: seq<Timed>, k: string, id: string)
    requires tes != [] && StampedOnlyBy(cfg, n, tes, k, id)
    ensures StampedOnlyBy(cfg, n, tes[..|tes| - 1], k, id)
  {
    var front := tes[..|tes| - 1];
    forall i | 0 <= i < |front| && Restamps(cfg, Run(cfg, n, front[..i]), front[i], k)
      ensures front[i].event.update.routerId == id
    {
      assert front[..i] == tes[..i];
    }
  }

  /** No cleanup of the run gives up the state filed under k. */
  ghost predicate NeverGivenUp(cfg: Config, n: Node, tes: seq<Timed>, k: string) {
    forall i :: 0 <= i < |tes| && tes[i].event.Cleanup? ==> !GivesUp(Run(cfg, n, tes[..i]), k, tes[i].at)
  }

  lemma NeverGivenUpFront(cfg: Config, n: Node, tes: seq<Timed>, k: string)
    requires tes != [] && NeverGivenUp(cfg, n, tes, k)
    ensures NeverGivenUp(cfg, n, tes[..|tes| - 1], k)
  {
    var front := tes[..|tes| - 1];
    forall i | 0 <= i < |front| && front[i].event.Cleanup?
      ensures !GivesUp(Run(cfg, n, front[..i]), k, front[i].at)
    {
      assert front[..i] == tes[..i];
    }
  }

  lemma UnstampedStep(cfg: Config, n: Node, front: seq<Timed>, te: Timed, k: string, d: Ipv4Network)
    requires Orderly(cfg, Run(cfg, n, front)) && !Restamps(cfg, Run(cfg, n, front), te, k)
    requires var m := Run(cfg, n, front);
      if k in m.states then m.states[k].route.destination == d
      else CleanedAway(cfg, n, front, d) && !NeverGivenUp(cfg, n, front, k)
    ensures var m, after := Run(cfg, n, front), Run(cfg, n, front + [te]);
      if k in after.states then k in m.states && after.states[k] == m.states[k]
      else CleanedAway(cfg, n, front + [te], d) && !NeverGivenUp(cfg, n, front + [te], k)
  {
    hide Orderly, CleanedAway, Restamps, GivesUp, NeverGivenUp, Happened;
    var m, tes := Run(cfg, n, front), front + [te];
    assert tes[..|front|] == front;
    if k !in m.states {
      CleanedAwayBefore(cfg, n, front, te, d);
      assert NeverGivenUp(cfg, n, tes, k) ==> NeverGivenUp(cfg, n, front, k) by {
        if NeverGivenUp(cfg, n, tes, k) {
          NeverGivenUpFront(cfg, n, tes, k);
        }
      }
    }
    if te.event.Cleanup? {
      CleanupStep(cfg, n, front, te.at, k, d);
    } else {
      StampedIff(cfg, m, te, k);
    }
  }

  lemma CleanupStep(cfg: Config, n: Node, front: seq<Timed>, now: nat, k: string, d: Ipv4Network)
    requires Orderly(cfg, Run(cfg, n, front))
    requires var m := Run(cfg, n, front); k in m.states ==> m.states[k].route.destination == d
    ensures var m, after := Run(cfg, n, front), Run(cfg, n, front + [Timed(now, Cleanup)]);
      && (k in after.states ==> k in m.states && after.states[k] == m.states[k])
      && (k in m.states && k !in after.states ==>
            && CleanedAway(cfg, n, front + [Timed(now, Cleanup)], d)
            && !NeverGivenUp(cfg, n, front + [Timed(now, Cleanup)], k))
  {
    hide Orderly, CleanedAway, GivesUp;
    var m, tes := Run(cfg, n, front), front + [Timed(now, Cleanup)];
    assert tes[..|front|] == front;
    if k in m.states {
      CleanupTakesBoth(cfg, m, k, now);
      if GivesUp(m, k, now) {
        CleanedAwayNow(cfg, n, front, now, d);
        assert tes[|front|].event.Cleanup?;
      }
    }
  }

  /** A state that is never stamped stays as it is until a cleanup takes it and the route with it. */
  lemma {:induction false} UnstampedStays(cfg: Config, n: Node, tes: seq<Timed>, k: string)
    requires Orderly(cfg, n) && k in n.states && NeverStamped(cfg, n, tes, k)
    ensures var m := Run(cfg, n, tes);
      if k in m.states then m.states[k] == n.states[k]
      else CleanedAway(cfg, n, tes, n.states[k].route.destination) && !NeverGivenUp(cfg, n, tes, k)
  {
    hide Orderly, CleanedAway, Restamps, GivesUp, NeverGivenUp, NeverStamped, Happened;
    if tes != [] {
      var front, te := tes[..|tes| - 1], tes[|tes| - 1];
      NeverStampedFront(cfg, n, tes, k);
      UnstampedStays(cfg, n, front, k);
      RunOrderly(cfg, n, front);
      UnstampedStep(cfg, n, front, te, k, n.states[k].route.destination);
      assert tes == front + [te];
    }
  }

  /** A route that is advertised again and again without being accepted is not refreshed: whatever
      else happens, once its state is older than ROUTE_TIMEOUT a cleanup has removed it, and the
      first cleanup to give the state up does. */
  lemma {:induction false} SteadyRoutesExpire(cfg: Config, n: Node, tes: seq<Timed>, k: string, now: nat)
    requires Orderly(cfg, n) && k in n.states && NeverStamped(cfg, n, tes, k)
    requires now > n.states[k].lastAdvertised + ROUTE_TIMEOUT
    ensures CleanedAway(cfg, n, tes + [Timed(now, Cleanup)], n.states[k].route.destination)
    ensures NeverGivenUp(cfg, n, tes, k) ==>
      Lookup(Cleaned(Run(cfg, n, tes), now).table.routes, n.states[k].route.destination) == None
  {
    hide Orderly, CleanedAway, Restamps, NeverGivenUp, NeverStamped, Happened, Cleaned;
    UnstampedStays(cfg, n, tes, k);
    RunOrderly(cfg, n, tes);
    var m := Run(cfg, n, tes);
    if k in m.states {
      CleanupTakesBoth(cfg, m, k, now);
      CleanedAwayNow(cfg, n, tes, now, n.states[k].route.destination);
    } else {
      CleanedAwayBefore(cfg, n, tes, Timed(now, Cleanup), n.states[k].route.destination);
    }
  }

  /** If it is an update to process, it offers nothing better than c for c's destination, and nothing
      equal via another next hop. */
  ghost predicate NothingBetter(cfg: Config, te: Timed, c: RouteEntry) {
    te.event.Update? && te.event.ip.V4? && !OwnAddress(cfg, te.event.ip) && te.event.update.routerId != cfg.id ==>
      NoneBetter(Candidates(cfg, te.event.update.routes, te.event.ip.addr), c)
  }

  ghost predicate NoneBetter(cands: seq<Option<RouteEntry>>, c: RouteEntry) {
    forall r :: Some(r) in cands && r.destination == c.destination ==> !Changed(Some(c), Some(r))
  }

  /** So it is, above all, with an update that offers c itself and repeats no destination. */
  lemma RepeatIsNotBetter(cands: seq<Option<RouteEntry>>, c: RouteEntry)
    requires DistinctDestinations(cands) && Some(c) in cands
    ensures NoneBetter(cands, c)
  {
    forall r | Some(r) in cands && r.destination == c.destination
      ensures r == c
    {
      var i :| 0 <= i < |cands| && cands[i] == Some(c);
      var j :| 0 <= j < |cands| && cands[j] == Some(r);
      assert !DifferentDestinations(cands[i], cands[j]) && !DifferentDestinations(cands[j], cands[i]);
    }
  }

  /** The table holds c, and its state under k is as old as t. */
  ghost predicate Holds(n: Node, k: string, c: RouteEntry, t: nat) {
    && Lookup(n.table.routes, c.destination) == Some(c) && c.source == Protocol
    && k in n.states && n.states[k].route.destination == c.destination && n.states[k].lastAdvertised == t
  }

  lemma NothingIsAccepted(cfg: Config, n: Node, routes: seq<RouteInfo>, sender: Addr, k: string, c: RouteEntry, t: nat)
    requires SoundStates(cfg, n.states) && Holds(n, k, c, t) && NoneBetter(Candidates(cfg, routes, sender), c)
    ensures !AcceptsUnder(n.table.routes, Texts(routes), Candidates(cfg, routes, sender), k)
    ensures forall r :: r in AcceptedRoutes(n.table.routes, Candidates(cfg, routes, sender)) ==>
      r.destination != c.destination
  {
    hide Candidate, Canonical, CandidateShape;
    var rs, texts, cands := n.table.routes, Texts(routes), Candidates(cfg, routes, sender);
    CandidatesFit(cfg, routes, sender);
    assert Canonical(k) == Some(c.destination);
    forall r | r in AcceptedRoutes(rs, cands)
      ensures r.destination != c.destination
    {
      AcceptedMember(rs, cands, r);
    }
  }

  lemma UpdateHolds(cfg: Config, n: Node, update: RoutingUpdate, sender: Addr, now: nat, k: string, c: RouteEntry,
                    t: nat)
    requires Distinct(n.table.routes) && SoundStates(cfg, n.states) && Holds(n, k, c, t)
    requires NoneBetter(Candidates(cfg, update.routes, sender), c)
    ensures Holds(Processed(cfg, n, update, sender, now), k, c, t)
  {
    hide Candidate, SoundStates, NoneBetter, Accepts;
    var rs, cands := n.table.routes, Candidates(cfg, update.routes, sender);
    NothingIsAccepted(cfg, n, update.routes, sender, k, c, t);
    StampedByUpdate(cfg, n, update, sender, now, k);
    LookupUpdatedAll(cfg.local, n.table, AcceptedRoutes(rs, cands), c.destination);
    NothingFor(cfg.local, Lookup(rs, c.destination), AcceptedRoutes(rs, cands), c.destination);
  }

  lemma MessageHolds(cfg: Config, n: Node, te: Timed, k: string, c: RouteEntry, t: nat)
    requires Distinct(n.table.routes) && SoundStates(cfg, n.states) && Holds(n, k, c, t)
    requires NothingBetter(cfg, te, c) && !te.event.Cleanup?
    ensures Holds(Happened(cfg, n, te), k, c, t)
  {
    hide NoneBetter, Processed, Distinct, SoundStates;
    if te.event.Update? && te.event.ip.V4? && !OwnAddress(cfg, te.event.ip) && te.event.update.routerId != cfg.id {
      var heard := n.(neighbors := UpdateHeard(n.neighbors, te.event.update.routerId, te.at));
      UpdateHolds(cfg, heard, te.event.update, te.event.ip.addr, te.at, k, c, t);
    }
  }

  lemma CleanupHoldsOrTakes(cfg: Config, n: Node, k: string, c: RouteEntry, t: nat, now: nat)
    requires Orderly(cfg, n) && Holds(n, k, c, t)
    ensures Holds(Cleaned(n, now), k, c, t) || Lookup(Cleaned(n, now).table.routes, c.destination) == None
    ensures now > t + ROUTE_TIMEOUT ==> Lookup(Cleaned(n, now).table.routes, c.destination) == None
  {
    CleanupTakesBoth(cfg, n, k, now);
    CleanupRemovesExactly(cfg, n, now, c.destination);
    hide Orderly, Cleaned, NewlyDead, StateGivesUp, HopGivesUp;
  }

  lemma HoldStep(cfg: Config, n: Node, front: seq<Timed>, te: Timed, k: string, c: RouteEntry, t: nat)
    requires Orderly(cfg, Run(cfg, n, front)) && Holds(Run(cfg, n, front), k, c, t) && NothingBetter(cfg, te, c)
    ensures Holds(Run(cfg, n, front + [te]), k, c, t) || CleanedAway(cfg, n, front + [te], c.destination)
    ensures te.event.Cleanup? && te.at > t + ROUTE_TIMEOUT ==> CleanedAway(cfg, n, front + [te], c.destination)
  {
    hide Orderly, Holds, NothingBetter, CleanedAway, Happened;
    assert (front + [te])[..|front|] == front;
    if te.event.Cleanup? {
      HoldCleanup(cfg, n, front, te, k, c, t);
    } else {
      OrderlyParts(cfg, Run(cfg, n, front));
      MessageHolds(cfg, Run(cfg, n, front), te, k, c, t);
    }
  }

  lemma OrderlyParts(cfg: Config, n: Node)
    requires Orderly(cfg, n)
    ensures Distinct(n.table.routes) && SoundStates(cfg, n.states)
  {
  }

  lemma HoldCleanup(cfg: Config, n: Node, front: seq<Timed>, te: Timed, k: string, c: RouteEntry, t: nat)
    requires Orderly(cfg, Run(cfg, n, front)) && Holds(Run(cfg, n, front), k, c, t) && te.event.Cleanup?
    ensures Holds(Happened(cfg, Run(cfg, n, front), te), k, c, t) || CleanedAway(cfg, n, front + [te], c.destination)
    ensures te.at > t + ROUTE_TIMEOUT ==> CleanedAway(cfg, n, front + [te], c.destination)
  {
    hide Orderly, Holds, CleanedAway, Lookup, Cleaned, Run;
    var m := Run(cfg, n, front);
    CleanupHoldsOrTakes(cfg, m, k, c, t, te.at);
    if Lookup(Cleaned(m, te.at).table.routes, c.destination) == None {
      CleanedAwayNow(cfg, n, front, te.at, c.destination);
    }
  }

  lemma {:induction false} HoldRun(cfg: Config, n: Node, tes: seq<Timed>, k: string, c: RouteEntry, t: nat)
    requires Orderly(cfg, n) && Holds(n, k, c, t) && forall te :: te in tes ==> NothingBetter(cfg, te, c)
    ensures Holds(Run(cfg, n, tes), k, c, t) || CleanedAway(cfg, n, tes, c.destination)
  {
    hide Orderly, Holds, NothingBetter, CleanedAway, Happened;
    if tes != [] {
      var front, te := tes[..|tes| - 1], tes[|tes| - 1];
      assert tes == front + [te] && te in tes;
      HoldRun(cfg, n, front, k, c, t);
      RunOrderly(cfg, n, front);
      if CleanedAway(cfg, n, front, c.destination) {
        CleanedAwayBefore(cfg, n, front, te, c.destination);
      } else {
        HoldStep(cfg, n, front, te, k, c, t);
      }
    }
  }

  /** The usual case: as long as no neighbour offers anything better than the route c, although some
      may well keep offering c itself, c is lost, at the latest in the first cleanup more than
      ROUTE_TIMEOUT after it was accepted. */
  lemma {:induction false} RepeatedRoutesExpire(cfg: Config, n: Node, tes: seq<Timed>, k: string, c: RouteEntry, t: nat,
                                                now: nat)
    requires Orderly(cfg, n) && Holds(n, k, c, t) && forall te :: te in tes ==> NothingBetter(cfg, te, c)
    requires now > t + ROUTE_TIMEOUT
    ensures CleanedAway(cfg, n, tes + [Timed(now, Cleanup)], c.destination)
  {
    hide Orderly, Holds, CleanedAway, Happened, NoneBetter;
    HoldRun(cfg, n, tes, k, c, t);
    RunOrderly(cfg, n, tes);
    if CleanedAway(cfg, n, tes, c.destination) {
      CleanedAwayBefore(cfg, n, tes, Timed(now, Cleanup), c.destination);
    } else {
      HoldStep(cfg, n, tes, Timed(now, Cleanup), k, c, t);
    }
  }

  // ----- routes of dead neighbours

  /** After the run the state filed under k was stamped by id, or a cleanup took it and its route. */
  ghost predicate OwnedBy(cfg: Config, n: Node, tes: seq<Timed>, k: string, id: string) {
    var states := Run(cfg, n, tes).states;
    if k in states then states[k].advertisingNeighbor == id else CleanedAway(cfg, n, tes, Meaning(k))
  }

  lemma OwnedStep(cfg: Config, n: Node, front: seq<Timed>, te: Timed, k: string, id: string)
    requires Orderly(cfg, Run(cfg, n, front))
    requires Restamps(cfg, Run(cfg, n, front), te, k) ==> te.event.update.routerId == id
    requires OwnedBy(cfg, n, front, k, id)
    ensures OwnedBy(cfg, n, front + [te], k, id)
  {
    hide CleanedAway, Restamps, GivesUp, Happened, Canonical, WellFormed, AllCovered;
    var m := Run(cfg, n, front);
    assert (front + [te])[..|front|] == front;
    if k !in m.states {
      CleanedAwayBefore(cfg, n, front, te, Meaning(k));
    }
    if te.event.Cleanup? {
      CleanupStep(cfg, n, front, te.at, k, Meaning(k));
    } else {
      StampedIff(cfg, m, te, k);
    }
  }

  lemma {:induction false} OwnedStays(cfg: Config, n: Node, tes: seq<Timed>, k: string, id: string)
    requires Orderly(cfg, n) && tes != [] && Restamps(cfg, n, tes[0], k) && StampedOnlyBy(cfg, n, tes, k, id)
    ensures OwnedBy(cfg, n, tes, k, id)
  {
    hide Orderly, CleanedAway, Happened, AcceptsUnder;
    var front, te := tes[..|tes| - 1], tes[|tes| - 1];
    assert tes == front + [te];
    if front == [] {
      assert tes[..0] == [];
      StampedIff(cfg, n, te, k);
      assert Run(cfg, n, []) == n;
    } else {
      StampedOnlyByFront(cfg, n, tes, k, id);
      hide StampedOnlyBy, OwnedBy;
      OwnedStays(cfg, n, front, k, id);
      RunOrderly(cfg, n, front);
      OwnedStep(cfg, n, front, te, k, id);
    }
  }

  /** The route of an accepted advertisement is gone by the time a cleanup declares its advertiser
      dead, if no other router's advertisement under the same text was accepted meanwhile. */
  lemma {:induction false} DeadNeighborsRoutesGo(cfg: Config, n: Node, tes: seq<Timed>, k: string, id: string, now: nat)
    requires Orderly(cfg, n) && tes != [] && Restamps(cfg, n, tes[0], k) && StampedOnlyBy(cfg, n, tes, k, id)
    requires id in NewlyDead(Run(cfg, n, tes).neighbors, now)
    ensures CleanedAway(cfg, n, tes + [Timed(now, Cleanup)], Meaning(k))
    ensures k in Run(cfg, n, tes).states ==> Lookup(Cleaned(Run(cfg, n, tes), now).table.routes, Meaning(k)) == None
  {
    hide WellFormed, AllCovered, CleanedAway, Restamps, StampedOnlyBy, Happened, Cleaned, Canonical, NewlyDead;
    OwnedStays(cfg, n, tes, k, id);
    RunOrderly(cfg, n, tes);
    var m := Run(cfg, n, tes);
    if k in m.states {
      CleanupTakesBoth(cfg, m, k, now);
      CleanedAwayNow(cfg, n, tes, now, Meaning(k));
    } else {
      CleanedAwayBefore(cfg, n, tes, Timed(now, Cleanup), Meaning(k));
    }
  }

  // ----- neighbours

  /** No neighbour was heard in the future, and a dead one has been silent for longer than the timeout. */
  ghost predicate NeighborsConsistent(neighbors: Neighbors, now: nat) {
    forall id :: id in neighbors ==>
      neighbors[id].lastSeen <= now && (!neighbors[id].isAlive ==> now - neighbors[id].lastSeen > NEIGHBOR_TIMEOUT)
  }

  lemma HappenedConsistent(cfg: Config, n: Node, te: Timed, t: nat)
    requires NeighborsConsistent(n.neighbors, t) && t <= te.at
    ensures NeighborsConsistent(Happened(cfg, n, te).neighbors, te.at)
  {
    match te.event
    case Hello(hello, ip) =>
    case Update(update, ip) =>
    case Cleanup =>
  }

  lemma {:induction false} NeighborsStayConsistent(cfg: Config, n: Node, t: nat, tes: seq<Timed>)
    requires MonotoneFrom(t, tes) && NeighborsConsistent(n.neighbors, t)
    ensures NeighborsConsistent(Run(cfg, n, tes).neighbors, Clock(t, tes))
  {
    if tes != [] {
      NeighborsStayConsistent(cfg, n, t, tes[..|tes| - 1]);
      HappenedConsistent(cfg, Run(cfg, n, tes[..|tes| - 1]), tes[|tes| - 1], Clock(t, tes[..|tes| - 1]));
    }
  }

  /** A cleanup never finds a dead neighbour within the timeout, so its revival branch is never
      taken; and after it being alive means having been heard within the timeout. */
  lemma CleanupVerdict(cfg: Config, n: Node, t: nat, tes: seq<Timed>, now: nat, id: string)
    requires MonotoneFrom(t, tes) && NeighborsConsistent(n.neighbors, t) && Clock(t, tes) <= now
    requires id in Run(cfg, n, tes).neighbors
    ensures var before := Run(cfg, n, tes).neighbors[id];
      && (!before.isAlive ==> Silent(before, now))
      && (Cleaned(Run(cfg, n, tes), now).neighbors[id].isAlive <==> now - before.lastSeen <= NEIGHBOR_TIMEOUT)
  {
    NeighborsStayConsistent(cfg, n, t, tes);
  }

  /** The message counts as heard from id. */
  predicate HeardFrom(cfg: Config, te: Timed, id: string) {
    match te.event
    case Hello(hello, ip) => hello.id == id && !OwnAddress(cfg, ip) && id != cfg.id
    case Update(update, ip) => update.routerId == id && !OwnAddress(cfg, ip) && id != cfg.id
    case Cleanup => false
  }

  /** How many cleanups of the run report id as newly dead. */
  ghost function Reports(cfg: Config, n: Node, tes: seq<Timed>, id: string): nat {
    if tes == [] then 0
    else
      var front, te := tes[..|tes| - 1], tes[|tes| - 1];
      Reports(cfg, n, front, id)
      + if te.event.Cleanup? && id in NewlyDead(Run(cfg, n, front).neighbors, te.at) then 1 else 0
  }

  /** Without a message from id, only a cleanup touches its entry, and that only to declare it dead. */
  lemma SilenceChanges(cfg: Config, n: Node, te: Timed, id: string)
    requires id in n.neighbors && !HeardFrom(cfg, te, id)
    requires NeighborsConsistent(n.neighbors, te.at)
    ensures var before, after := n.neighbors[id], Happened(cfg, n, te).neighbors;
      && id in after && after[id].lastSeen == before.lastSeen
      && (after[id].isAlive <==> before.isAlive && !(te.event.Cleanup? && Silent(before, te.at)))
      && (te.event.Cleanup? ==> (id in NewlyDead(n.neighbors, te.at) <==> before.isAlive && Silent(before, te.at)))
  {
    hide UpdatedAll, Recorded, Candidates, Pruned;
  }

  lemma StillConsistent(neighbors: Neighbors, t: nat, later: nat)
    requires NeighborsConsistent(neighbors, t) && t <= later
    ensures NeighborsConsistent(neighbors, later)
  {
  }

  /** During a silence an alive neighbour is reported once if a cleanup happens more than the
      timeout after it was last heard, and not at all otherwise. */
  lemma {:induction false} OneReportPerSilence(cfg: Config, n: Node, t: nat, tes: seq<Timed>, id: string)
    requires MonotoneFrom(t, tes) && NeighborsConsistent(n.neighbors, t)
    requires id in n.neighbors && n.neighbors[id].isAlive
    requires forall te :: te in tes ==> !HeardFrom(cfg, te, id)
    ensures var after := Run(cfg, n, tes).neighbors;
      && id in after && after[id].lastSeen == n.neighbors[id].lastSeen
      && (after[id].isAlive
          <==> LastCleanup(n.neighbors[id].lastSeen, tes) - n.neighbors[id].lastSeen <= NEIGHBOR_TIMEOUT)
      && Reports(cfg, n, tes, id) == if after[id].isAlive then 0 else 1
  {
    if tes != [] {
      var front, te := tes[..|tes| - 1], tes[|tes| - 1];
      assert te in tes;
      OneReportPerSilence(cfg, n, t, front, id);
      CleanupTimesMonotone(t, n.neighbors[id].lastSeen, tes);
      NeighborsStayConsistent(cfg, n, t, front);
      var before := Run(cfg, n, front);
      StillConsistent(before.neighbors, Clock(t, front), te.at);
      SilenceChanges(cfg, before, te, id);
      hide Happened, NewlyDead, HeardFrom, NeighborsConsistent;
    }
  }

  lemma {:induction false} CleanupTimesMonotone(t: nat, seen: nat, tes: seq<Timed>)
    requires MonotoneFrom(t, tes) && seen <= t
    ensures seen <= LastCleanup(seen, tes) <= Clock(t, tes)
  {
    if tes != [] {
      CleanupTimesMonotone(t, seen, tes[..|tes| - 1]);
    }
  }
}
