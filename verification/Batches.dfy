/** What a whole update does to the table: each destination is relaxed on its own, and ends
    up with the least metric on offer. */
module Batches {
  import opened Options
  import opened Ipv4
  import opened Routes
  import opened Nodes
  import opened Invariants

  /** The routes of rs for d, relaxed one after another. */
  ghost function RelaxedAll(local: seq<Ipv4Network>, cur: Option<RouteEntry>, rs: seq<RouteEntry>,
                            d: Ipv4Network): Option<RouteEntry> {
    if rs == [] then cur
    else
      var before, r := RelaxedAll(local, cur, rs[..|rs| - 1], d), rs[|rs| - 1];
      if r.destination == d then Relaxed(local, before, r) else before
  }

  /** The in-place updates of a list of routes, seen from one destination, are its own relaxations. */
  lemma {:induction false} LookupUpdatedAll(local: seq<Ipv4Network>, t: Table, rs: seq<RouteEntry>, d: Ipv4Network)
    requires Distinct(t.routes)
    ensures Distinct(UpdatedAll(local, t, rs).routes)
    ensures Lookup(UpdatedAll(local, t, rs).routes, d) == RelaxedAll(local, Lookup(t.routes, d), rs, d)
  {
    if rs != [] {
      LookupUpdatedAll(local, t, rs[..|rs| - 1], d);
      LookupUpdated(local, UpdatedAll(local, t, rs[..|rs| - 1]), rs[|rs| - 1], d);
    }
  }

  /** A present route is lost to one new route exactly when that route is invalid, ties the
      metric and names another next hop: the replacement removes before it validates. */
  lemma RouteLostIff(local: seq<Ipv4Network>, t: Table, r: RouteEntry, d: Ipv4Network)
    requires Distinct(t.routes) && Lookup(t.routes, d).Some?
    ensures Lookup(Updated(local, t, r).routes, d).None? <==>
      var e := Lookup(t.routes, d).value;
      d == r.destination && !ValidRoute(local, r) && e.metric == r.metric && e.nextHop != r.nextHop
  {
    LookupUpdated(local, t, r, d);
  }

  /** Whatever validity says, the entry is the old one or one of the new routes. */
  lemma {:induction false} RelaxedAllFrom(local: seq<Ipv4Network>, cur: Option<RouteEntry>, rs: seq<RouteEntry>,
                                          d: Ipv4Network)
    ensures var now := RelaxedAll(local, cur, rs, d);
      now.Some? ==> now == cur || (now.value in rs && now.value.destination == d)
  {
    if rs != [] {
      RelaxedAllFrom(local, cur, rs[..|rs| - 1], d);
      assert rs == rs[..|rs| - 1] + [rs[|rs| - 1]];
    }
  }

  lemma {:induction false} RelaxedAllTakesLeast(local: seq<Ipv4Network>, cur: Option<RouteEntry>,
                                                rs: seq<RouteEntry>, d: Ipv4Network)
    requires forall r :: r in rs && r.destination == d ==> ValidRoute(local, r)
    ensures var now := RelaxedAll(local, cur, rs, d);
      && (cur.Some? ==> now.Some? && now.value.metric <= cur.value.metric)
      && (forall r :: r in rs && r.destination == d ==> now.Some? && now.value.metric <= r.metric)
      && (now.Some? ==> now == cur || (now.value in rs && now.value.destination == d))
  {
    if rs != [] {
      RelaxedAllTakesLeast(local, cur, rs[..|rs| - 1], d);
      assert rs == rs[..|rs| - 1] + [rs[|rs| - 1]];
    }
  }

  lemma {:induction false} RelaxedAllInvalid(local: seq<Ipv4Network>, rs: seq<RouteEntry>, d: Ipv4Network)
    requires forall r :: r in rs && r.destination == d ==> !ValidRoute(local, r)
    ensures RelaxedAll(local, None, rs, d) == None
  {
    if rs != [] {
      RelaxedAllInvalid(local, rs[..|rs| - 1], d);
      assert rs[|rs| - 1] in rs;
    }
  }

  lemma {:induction false} AcceptedMember(rs: seq<RouteEntry>, cands: seq<Option<RouteEntry>>, r: RouteEntry)
    ensures r in AcceptedRoutes(rs, cands) <==> Accepts(rs, r) && Some(r) in cands
  {
    if cands != [] {
      AcceptedMember(rs, cands[..|cands| - 1], r);
      assert cands == cands[..|cands| - 1] + [cands[|cands| - 1]];
    }
  }

  lemma {:induction false} AcceptedStatesMember(rs: seq<RouteEntry>, texts: seq<string>, cands: seq<Option<RouteEntry>>,
                                                from: string, now: nat, x: (string, RouteState))
    requires |texts| == |cands|
    ensures x in AcceptedStates(rs, texts, cands, from, now) <==>
      exists i :: 0 <= i < |cands| && texts[i] == x.0 && cands[i] == Some(x.1.route) && Accepts(rs, x.1.route)
                  && x.1.lastAdvertised == now && x.1.advertisingNeighbor == from
  {
    hide Accepts;
    if cands != [] {
      var n := |cands| - 1;
      AcceptedStatesMember(rs, texts[..n], cands[..n], from, now, x);
      assert forall i :: 0 <= i < n ==> texts[..n][i] == texts[i] && cands[..n][i] == cands[i];
    }
  }

  /** An advertised route that a receiver would turn into an entry r. */
  ghost predicate Offers(cfg: Config, cands: seq<Option<RouteEntry>>, r: RouteEntry) {
    ValidRoute(cfg.local, r) && Some(r) in cands
  }

  lemma CandidatesHaveShape(cfg: Config, infos: seq<RouteInfo>, sender: Addr)
    ensures forall r :: Some(r) in Candidates(cfg, infos, sender) ==> CandidateShape(cfg, r)
  {
    forall r | Some(r) in Candidates(cfg, infos, sender)
      ensures CandidateShape(cfg, r)
    {
      var i :| 0 <= i < |infos| && Candidates(cfg, infos, sender)[i] == Some(r);
      CandidateHasShape(cfg, infos[i], sender);
    }
  }

  lemma CandidatesValidIff(cfg: Config, infos: seq<RouteInfo>, sender: Addr)
    requires SaneConfig(cfg) && sender != UNSPECIFIED
    ensures forall r :: Some(r) in Candidates(cfg, infos, sender) ==>
      (ValidRoute(cfg.local, r) <==> !IsLocal(cfg.local, r.destination))
  {
    forall r | Some(r) in Candidates(cfg, infos, sender)
      ensures ValidRoute(cfg.local, r) <==> !IsLocal(cfg.local, r.destination)
    {
      var i :| 0 <= i < |infos| && Candidates(cfg, infos, sender)[i] == Some(r);
      CandidateValidIff(cfg, infos[i], sender);
    }
  }

  lemma AcceptedHaveShape(cfg: Config, rs: seq<RouteEntry>, cands: seq<Option<RouteEntry>>)
    requires forall r :: Some(r) in cands ==> CandidateShape(cfg, r)
    ensures forall r :: r in AcceptedRoutes(rs, cands) ==> CandidateShape(cfg, r)
  {
    forall r | r in AcceptedRoutes(rs, cands)
      ensures CandidateShape(cfg, r)
    {
      AcceptedMember(rs, cands, r);
    }
  }

  lemma {:induction false} NothingFor(local: seq<Ipv4Network>, cur: Option<RouteEntry>, rs: seq<RouteEntry>,
                                      d: Ipv4Network)
    requires forall r :: r in rs ==> r.destination != d
    ensures RelaxedAll(local, cur, rs, d) == cur
  {
    if rs != [] {
      NothingFor(local, cur, rs[..|rs| - 1], d);
      assert rs[|rs| - 1] in rs;
    }
  }

  lemma LocalDestinationsStayOut(cfg: Config, t: Table, rs: seq<RouteEntry>, d: Ipv4Network)
    requires WellFormed(cfg, t.routes) && IsLocal(cfg.local, d)
    requires forall r :: r in rs ==> CandidateShape(cfg, r)
    ensures Lookup(UpdatedAll(cfg.local, t, rs).routes, d) == Lookup(t.routes, d)
  {
    LookupUpdatedAll(cfg.local, t, rs, d);
    if Lookup(t.routes, d).Some? {
      NothingFor(cfg.local, Lookup(t.routes, d), rs, d);
    } else {
      RelaxedAllInvalid(cfg.local, rs, d);
    }
  }

  /** The per-destination core of the batch refinement, for any candidates of the right shape. */
  lemma AcceptedTakeLeast(cfg: Config, t: Table, cands: seq<Option<RouteEntry>>, d: Ipv4Network)
    requires WellFormed(cfg, t.routes)
    requires forall r :: Some(r) in cands ==> CandidateShape(cfg, r)
    requires forall r :: Some(r) in cands ==> (ValidRoute(cfg.local, r) <==> !IsLocal(cfg.local, r.destination))
    ensures var before := Lookup(t.routes, d);
      var after := Lookup(UpdatedAll(cfg.local, t, AcceptedRoutes(t.routes, cands)).routes, d);
      && (before.Some? ==> after.Some? && after.value.metric <= before.value.metric)
      && (forall r :: Offers(cfg, cands, r) && r.destination == d ==> after.Some? && after.value.metric <= r.metric)
      && (after.Some? ==> after == before || (Offers(cfg, cands, after.value) && after.value.destination == d))
  {
    var rs := AcceptedRoutes(t.routes, cands);
    AcceptedHaveShape(cfg, t.routes, cands);
    if IsLocal(cfg.local, d) {
      LocalDestinationsStayOut(cfg, t, rs, d);
    } else {
      forall r | r in rs && r.destination == d
        ensures Offers(cfg, cands, r)
      {
        AcceptedMember(t.routes, cands, r);
      }
      LookupUpdatedAll(cfg.local, t, rs, d);
      RelaxedAllTakesLeast(cfg.local, Lookup(t.routes, d), rs, d);
      forall r | Offers(cfg, cands, r) && r.destination == d
        ensures r in rs || (Lookup(t.routes, d).Some? && Lookup(t.routes, d).value.metric <= r.metric)
      {
        AcceptedMember(t.routes, cands, r);
      }
    }
  }

  /** Batch refinement. After any update each destination holds the least of its old metric and
      all metrics on offer, and nothing else than its old route or an offered one. */
  lemma BatchTakesLeast(cfg: Config, n: Node, update: RoutingUpdate, sender: Addr, now: nat, d: Ipv4Network)
    requires WellFormed(cfg, n.table.routes) && SaneConfig(cfg) && sender != UNSPECIFIED
    ensures WellFormed(cfg, Processed(cfg, n, update, sender, now).table.routes)
    ensures var before := Lookup(n.table.routes, d);
      var after := Lookup(Processed(cfg, n, update, sender, now).table.routes, d);
      var cands := Candidates(cfg, update.routes, sender);
      && (before.Some? ==> after.Some? && after.value.metric <= before.value.metric)
      && (forall r :: Offers(cfg, cands, r) && r.destination == d ==> after.Some? && after.value.metric <= r.metric)
      && (after.Some? ==> after == before || (Offers(cfg, cands, after.value) && after.value.destination == d))
  {
    var cands := Candidates(cfg, update.routes, sender);
    CandidatesHaveShape(cfg, update.routes, sender);
    CandidatesValidIff(cfg, update.routes, sender);
    AcceptedHaveShape(cfg, n.table.routes, cands);
    UpdatedAllWellFormed(cfg, n.table, AcceptedRoutes(n.table.routes, cands));
    AcceptedTakeLeast(cfg, n.table, cands, d);
  }

  /** Failover never loses a route: whatever was reachable before an update is so after it, at no
      larger metric. */
  lemma {:induction false} FailoverKeepsRoutes(cfg: Config, n: Node, update: RoutingUpdate, sender: Addr, now: nat,
                                               d: Ipv4Network)
    requires WellFormed(cfg, n.table.routes) && SaneConfig(cfg) && sender != UNSPECIFIED
    requires Lookup(n.table.routes, d).Some?
    ensures var after := Lookup(Processed(cfg, n, update, sender, now).table.routes, d);
      after.Some? && after.value.metric <= Lookup(n.table.routes, d).value.metric
  {
    hide Candidate, ValidRoute;
    BatchTakesLeast(cfg, n, update, sender, now, d);
  }

  // ----- updates without repeated destinations

  predicate DifferentDestinations(c: Option<RouteEntry>, c': Option<RouteEntry>) {
    c.Some? && c'.Some? ==> c.value.destination != c'.value.destination
  }

  /** No two advertised routes give candidates for one destination. */
  ghost predicate DistinctDestinations(cands: seq<Option<RouteEntry>>) {
    forall i, j :: 0 <= i < j < |cands| ==> DifferentDestinations(cands[i], cands[j])
  }

  /** In front of its position a destination that is not repeated is not on offer. */
  lemma NotOfferedInFront(local: seq<Ipv4Network>, rs: seq<RouteEntry>, cur: Option<RouteEntry>,
                          cands: seq<Option<RouteEntry>>)
    requires cands != [] && DistinctDestinations(cands) && cands[|cands| - 1].Some?
    ensures var n := |cands| - 1;
      RelaxedAll(local, cur, AcceptedRoutes(rs, cands[..n]), cands[n].value.destination) == cur
  {
    var front, d := cands[..|cands| - 1], cands[|cands| - 1].value.destination;
    forall r | r in AcceptedRoutes(rs, front)
      ensures r.destination != d
    {
      AcceptedMember(rs, front, r);
      var j :| 0 <= j < |front| && front[j] == Some(r);
      assert DifferentDestinations(cands[j], cands[|cands| - 1]);
    }
    NothingFor(local, cur, AcceptedRoutes(rs, front), d);
  }

  lemma RelaxedAllSnoc(local: seq<Ipv4Network>, cur: Option<RouteEntry>, rs: seq<RouteEntry>, r: RouteEntry,
                       d: Ipv4Network)
    ensures var before := RelaxedAll(local, cur, rs, d);
      RelaxedAll(local, cur, rs + [r], d) == if r.destination == d then Relaxed(local, before, r) else before
  {
    assert (rs + [r])[..|rs|] == rs;
  }

  lemma {:induction false} RelaxedByOne(local: seq<Ipv4Network>, rs: seq<RouteEntry>, cur: Option<RouteEntry>,
                                        cands: seq<Option<RouteEntry>>, k: nat)
    requires DistinctDestinations(cands) && k < |cands| && cands[k].Some?
    ensures var c := cands[k].value;
      RelaxedAll(local, cur, AcceptedRoutes(rs, cands), c.destination)
      == if Accepts(rs, c) then Relaxed(local, cur, c) else cur
  {
    var front, last, d := cands[..|cands| - 1], cands[|cands| - 1], cands[k].value.destination;
    var acc := AcceptedRoutes(rs, front);
    if k == |cands| - 1 {
      NotOfferedInFront(local, rs, cur, cands);
    } else {
      assert DifferentDestinations(cands[k], last);
      RelaxedByOne(local, rs, cur, front, k);
    }
    if last.Some? && Accepts(rs, last.value) {
      RelaxedAllSnoc(local, cur, acc, last.value, d);
    } else {
      assert acc + [] == acc;
    }
  }

  /** Without repetitions the entry becomes the candidate exactly when that has a lower metric, or
      an equal one via another next hop; in particular the candidate's next hop wins every tie. */
  lemma BatchIsExact(cfg: Config, n: Node, update: RoutingUpdate, sender: Addr, now: nat, c: RouteEntry)
    requires WellFormed(cfg, n.table.routes) && SaneConfig(cfg) && sender != UNSPECIFIED
    requires DistinctDestinations(Candidates(cfg, update.routes, sender))
    requires Some(c) in Candidates(cfg, update.routes, sender)
    ensures var before := Lookup(n.table.routes, c.destination);
      var after := Lookup(Processed(cfg, n, update, sender, now).table.routes, c.destination);
      if IsLocal(cfg.local, c.destination) then before == after == None
      else
        && after.Some?
        && after == (if Accepts(n.table.routes, c) then Some(c) else before)
        && (before.None? || before.value.nextHop != c.nextHop ==>
              (after.value.nextHop == c.nextHop <==> before.None? || c.metric <= before.value.metric))
  {
    var cands := Candidates(cfg, update.routes, sender);
    CandidatesHaveShape(cfg, update.routes, sender);
    CandidatesValidIff(cfg, update.routes, sender);
    LookupUpdatedAll(cfg.local, n.table, AcceptedRoutes(n.table.routes, cands), c.destination);
    var k :| 0 <= k < |cands| && cands[k] == Some(c);
    RelaxedByOne(cfg.local, n.table.routes, Lookup(n.table.routes, c.destination), cands, k);
  }

  // ----- repeating an update

  lemma {:induction false} InvalidAreSkipped(local: seq<Ipv4Network>, t: Table, rs: seq<RouteEntry>)
    requires forall r :: r in rs ==> Lookup(t.routes, r.destination) == None && !ValidRoute(local, r)
    ensures UpdatedAll(local, t, rs) == t
  {
    if rs != [] {
      InvalidAreSkipped(local, t, rs[..|rs| - 1]);
      assert rs[|rs| - 1] in rs;
    }
  }

  /** s is a strict improvement on cur, or ties it via another next hop. */
  ghost predicate Changed(cur: Option<RouteEntry>, s: Option<RouteEntry>) {
    s.Some? && (cur.None? || s.value.metric < cur.value.metric
                || (s.value.metric == cur.value.metric && s.value.nextHop != cur.value.nextHop))
  }

  lemma {:induction false} RelaxedAllChanges(local: seq<Ipv4Network>, cur: Option<RouteEntry>, rs: seq<RouteEntry>,
                                             d: Ipv4Network)
    requires forall r :: r in rs && r.destination == d ==> ValidRoute(local, r) && Changed(cur, Some(r))
    ensures if exists r :: r in rs && r.destination == d then Changed(cur, RelaxedAll(local, cur, rs, d))
            else RelaxedAll(local, cur, rs, d) == cur
  {
    if rs != [] {
      var front, last := rs[..|rs| - 1], rs[|rs| - 1];
      RelaxedAllChanges(local, cur, front, d);
      assert forall r :: r in rs <==> r in front || r == last;
    }
  }

  /** One accepted valid candidate is enough for the entry to change, whatever else is accepted. */
  lemma AcceptedReplaces(cfg: Config, t: Table, cands: seq<Option<RouteEntry>>, r: RouteEntry)
    requires Distinct(t.routes)
    requires forall c :: Some(c) in cands ==> (ValidRoute(cfg.local, c) <==> !IsLocal(cfg.local, c.destination))
    requires Offers(cfg, cands, r) && Accepts(t.routes, r)
    ensures Changed(Lookup(t.routes, r.destination),
                    Lookup(UpdatedAll(cfg.local, t, AcceptedRoutes(t.routes, cands)).routes, r.destination))
  {
    var rs, d := AcceptedRoutes(t.routes, cands), r.destination;
    AcceptedMember(t.routes, cands, r);
    forall c | c in rs && c.destination == d
      ensures ValidRoute(cfg.local, c) && Changed(Lookup(t.routes, d), Some(c))
    {
      AcceptedMember(t.routes, cands, c);
    }
    LookupUpdatedAll(cfg.local, t, rs, d);
    RelaxedAllChanges(cfg.local, Lookup(t.routes, d), rs, d);
  }

  /** r is an offer of least metric for its destination, and no worse than the entry in rs. */
  ghost predicate Contends(cfg: Config, rs: seq<RouteEntry>, cands: seq<Option<RouteEntry>>, r: RouteEntry) {
    && Offers(cfg, cands, r)
    && (forall c :: Offers(cfg, cands, c) && c.destination == r.destination ==> r.metric <= c.metric)
    && (Lookup(rs, r.destination).Some? ==> r.metric <= Lookup(rs, r.destination).value.metric)
  }

  /** Wherever offers of least metric contend for a destination, they name one next hop. */
  ghost predicate Settled(cfg: Config, rs: seq<RouteEntry>, cands: seq<Option<RouteEntry>>) {
    forall r, c :: Contends(cfg, rs, cands, r) && Contends(cfg, rs, cands, c) && r.destination == c.destination ==>
      r.nextHop == c.nextHop
  }

  ghost predicate Shaped(cfg: Config, cands: seq<Option<RouteEntry>>) {
    forall c :: Some(c) in cands ==>
      CandidateShape(cfg, c) && (ValidRoute(cfg.local, c) <==> !IsLocal(cfg.local, c.destination))
  }

  /** What a second pass would accept and install contends, against a different contender. */
  lemma SecondAcceptedContends(cfg: Config, t: Table, cands: seq<Option<RouteEntry>>, r: RouteEntry)
    requires WellFormed(cfg, t.routes) && Shaped(cfg, cands)
    requires Offers(cfg, cands, r)
    requires Accepts(UpdatedAll(cfg.local, t, AcceptedRoutes(t.routes, cands)).routes, r)
    ensures !Settled(cfg, t.routes, cands)
  {
    var d := r.destination;
    var x := Lookup(UpdatedAll(cfg.local, t, AcceptedRoutes(t.routes, cands)).routes, d);
    AcceptedTakeLeast(cfg, t, cands, d);
    assert Contends(cfg, t.routes, cands, r);
    if x == Lookup(t.routes, d) {
      AcceptedReplaces(cfg, t, cands, r);
    }
    assert Contends(cfg, t.routes, cands, x.value);
  }

  /** Two contenders via different next hops: a second pass accepts one of them and changes the entry. */
  lemma ContendersAlternate(cfg: Config, t: Table, cands: seq<Option<RouteEntry>>, r: RouteEntry, c: RouteEntry)
    requires WellFormed(cfg, t.routes) && Shaped(cfg, cands)
    requires Contends(cfg, t.routes, cands, r) && Contends(cfg, t.routes, cands, c)
    requires r.destination == c.destination && r.nextHop != c.nextHop
    ensures var once := UpdatedAll(cfg.local, t, AcceptedRoutes(t.routes, cands));
      UpdatedAll(cfg.local, once, AcceptedRoutes(once.routes, cands)).routes != once.routes
  {
    var once := UpdatedAll(cfg.local, t, AcceptedRoutes(t.routes, cands));
    AcceptedTakeLeast(cfg, t, cands, r.destination);
    AcceptedHaveShape(cfg, t.routes, cands);
    UpdatedAllWellFormed(cfg, t, AcceptedRoutes(t.routes, cands));
    var again := if Accepts(once.routes, r) then r else c;
    AcceptedReplaces(cfg, once, cands, again);
  }

  lemma RepeatOnTable(cfg: Config, t: Table, cands: seq<Option<RouteEntry>>)
    requires WellFormed(cfg, t.routes) && Shaped(cfg, cands)
    ensures var once := UpdatedAll(cfg.local, t, AcceptedRoutes(t.routes, cands));
      UpdatedAll(cfg.local, once, AcceptedRoutes(once.routes, cands)) == once <==> Settled(cfg, t.routes, cands)
  {
    var once := UpdatedAll(cfg.local, t, AcceptedRoutes(t.routes, cands));
    AcceptedHaveShape(cfg, t.routes, cands);
    UpdatedAllWellFormed(cfg, t, AcceptedRoutes(t.routes, cands));
    if Settled(cfg, t.routes, cands) {
      forall r | r in AcceptedRoutes(once.routes, cands)
        ensures Lookup(once.routes, r.destination) == None && !ValidRoute(cfg.local, r)
      {
        AcceptedMember(once.routes, cands, r);
        if ValidRoute(cfg.local, r) {
          SecondAcceptedContends(cfg, t, cands, r);
        }
        LocalHasNoProtocolEntry(cfg, once.routes, r);
      }
      InvalidAreSkipped(cfg.local, once, AcceptedRoutes(once.routes, cands));
    } else {
      var r, c :| Contends(cfg, t.routes, cands, r) && Contends(cfg, t.routes, cands, c)
                  && r.destination == c.destination && r.nextHop != c.nextHop;
      ContendersAlternate(cfg, t, cands, r, c);
    }
  }

  lemma LocalHasNoProtocolEntry(cfg: Config, rs: seq<RouteEntry>, r: RouteEntry)
    requires WellFormed(cfg, rs) && CandidateShape(cfg, r) && IsLocal(cfg.local, r.destination)
    ensures Lookup(rs, r.destination) == None
  {
  }

  /** Processing the same update from the same sender again leaves table and kernel unchanged if
      and only if the contending offers of each destination name one next hop. */
  lemma RepeatUnchangedIff(cfg: Config, n: Node, update: RoutingUpdate, sender: Addr, now: nat, later: nat)
    requires WellFormed(cfg, n.table.routes) && SaneConfig(cfg) && sender != UNSPECIFIED
    ensures var once := Processed(cfg, n, update, sender, now);
      Processed(cfg, once, update, sender, later).table == once.table
      <==> Settled(cfg, n.table.routes, Candidates(cfg, update.routes, sender))
  {
    var cands := Candidates(cfg, update.routes, sender);
    CandidatesHaveShape(cfg, update.routes, sender);
    CandidatesValidIff(cfg, update.routes, sender);
    RepeatOnTable(cfg, n.table, cands);
  }

  /** In particular, updates without repeated destinations may be repeated. */
  lemma RepeatChangesNothing(cfg: Config, n: Node, update: RoutingUpdate, sender: Addr, now: nat, later: nat)
    requires WellFormed(cfg, n.table.routes) && SaneConfig(cfg) && sender != UNSPECIFIED
    requires DistinctDestinations(Candidates(cfg, update.routes, sender))
    ensures var once := Processed(cfg, n, update, sender, now);
      Processed(cfg, once, update, sender, later).table == once.table
  {
    RepeatUnchangedIff(cfg, n, update, sender, now, later);
    DistinctIsSettled(cfg, n.table.routes, Candidates(cfg, update.routes, sender));
  }

  lemma DistinctIsSettled(cfg: Config, rs: seq<RouteEntry>, cands: seq<Option<RouteEntry>>)
    requires DistinctDestinations(cands)
    ensures Settled(cfg, rs, cands)
  {
    forall r, c | Offers(cfg, cands, r) && Offers(cfg, cands, c) && r.destination == c.destination
      ensures r == c
    {
      var i :| 0 <= i < |cands| && cands[i] == Some(r);
      var j :| 0 <= j < |cands| && cands[j] == Some(c);
      assert !DifferentDestinations(cands[i], cands[j]) && !DifferentDestinations(cands[j], cands[i]);
    }
  }

  lemma AcceptedOfTwo(rs: seq<RouteEntry>, first: RouteEntry, second: RouteEntry)
    ensures AcceptedRoutes(rs, [Some(first), Some(second)])
         == (if Accepts(rs, first) then [first] else []) + (if Accepts(rs, second) then [second] else [])
  {
    var cands := [Some(first), Some(second)];
    assert cands[..1] == [Some(first)] && cands[..1][..0] == [];
    assert AcceptedRoutes(rs, cands[..1]) == [] + (if Accepts(rs, first) then [first] else []);
  }

  lemma RelaxedByTwo(local: seq<Ipv4Network>, first: RouteEntry, second: RouteEntry)
    requires ValidRoute(local, first) && ValidRoute(local, second)
    requires first.destination == second.destination && first.metric == second.metric && first.nextHop != second.nextHop
    ensures RelaxedAll(local, None, [first, second], first.destination) == Some(second)
    ensures RelaxedAll(local, Some(second), [first], first.destination) == Some(first)
  {
    var d := first.destination;
    RelaxedAllSnoc(local, None, [first], second, d);
    RelaxedAllSnoc(local, None, [], first, d);
    RelaxedAllSnoc(local, Some(second), [], first, d);
    assert [] + [first] == [first] && [first] + [second] == [first, second];
  }

  lemma OffersTakeTurns(local: seq<Ipv4Network>, t: Table, first: RouteEntry, second: RouteEntry)
    requires Distinct(t.routes) && Lookup(t.routes, first.destination) == None
    requires ValidRoute(local, first) && ValidRoute(local, second)
    requires first.destination == second.destination && first.metric == second.metric && first.nextHop != second.nextHop
    ensures var cands := [Some(first), Some(second)];
      var once := UpdatedAll(local, t, AcceptedRoutes(t.routes, cands));
      && Lookup(once.routes, first.destination) == Some(second)
      && Lookup(UpdatedAll(local, once, AcceptedRoutes(once.routes, cands)).routes, first.destination) == Some(first)
  {
    RelaxedByTwo(local, first, second);
    AcceptedOfTwo(t.routes, first, second);
    assert [first] + [second] == [first, second] && [first] + [] == [first];
    LookupUpdatedAll(local, t, [first, second], first.destination);
    var once := UpdatedAll(local, t, [first, second]);
    AcceptedOfTwo(once.routes, first, second);
    LookupUpdatedAll(local, once, [first], first.destination);
  }

  /** With a repeated destination that fails: two equal offers via different next hops take turns. */
  lemma RepeatedDestinationsFlip(cfg: Config, n: Node, update: RoutingUpdate, sender: Addr, now: nat, later: nat,
                                 first: RouteEntry, second: RouteEntry)
    requires Distinct(n.table.routes) && Lookup(n.table.routes, first.destination) == None
    requires Candidates(cfg, update.routes, sender) == [Some(first), Some(second)]
    requires ValidRoute(cfg.local, first) && ValidRoute(cfg.local, second)
    requires first.destination == second.destination && first.metric == second.metric && first.nextHop != second.nextHop
    ensures var once := Processed(cfg, n, update, sender, now);
      && Lookup(once.table.routes, first.destination) == Some(second)
      && Lookup(Processed(cfg, once, update, sender, later).table.routes, first.destination) == Some(first)
  {
    OffersTakeTurns(cfg.local, n.table, first, second);
  }
}
