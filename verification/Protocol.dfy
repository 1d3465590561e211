/** The running protocol of one router: its message handlers, its periodic cleanup and its
    broadcasts (src/protocol/route_manager.rs and src/protocol/task_manager.rs). */
module RoutingProtocol {
  import opened Options
  import opened Ipv4
  import opened Routes
  import opened Pruning
  import opened Nodes
  import opened Routers
  import opened RouteManager

  function SetOf(ids: seq<string>): set<string> {
    set id | id in ids
  }

  lemma AcceptedSnoc(rs: seq<RouteEntry>, texts: seq<string>, cands: seq<Option<RouteEntry>>, i: nat, from: string,
                     now: nat)
    requires i < |cands| == |texts|
    ensures var accept := cands[i].Some? && Accepts(rs, cands[i].value);
      && AcceptedRoutes(rs, cands[..i + 1])
         == AcceptedRoutes(rs, cands[..i]) + (if accept then [cands[i].value] else [])
      && AcceptedStates(rs, texts[..i + 1], cands[..i + 1], from, now)
         == AcceptedStates(rs, texts[..i], cands[..i], from, now)
           + (if accept then [(texts[i], RouteState(cands[i].value, now, from))] else [])
  {
    assert cands[..i + 1][..i] == cands[..i] && texts[..i + 1][..i] == texts[..i];
  }

  class SimpleRoutingProtocol {
    const router: Router
    var neighbors: Neighbors
    var routeStates: RouteStates
    var sequence: nat

    ghost function Contents(): Node
      reads this, router.table
    {
      Node(router.table.Contents(), routeStates, neighbors, sequence)
    }

    ghost function Cfg(): Config {
      router.Configuration()
    }

    ghost predicate Valid()
      reads router.table
    {
      router.table.Valid()
    }

    constructor (router: Router)
      requires router.table.Valid()
      ensures Valid() && this.router == router
      ensures Contents() == Node(router.table.Contents(), map[], map[], 0)
    {
      this.router := router;
      neighbors, routeStates, sequence := map[], map[], 0;
    }

    // ----- routing updates

    method ShouldAcceptRoute(r: RouteEntry) returns (accept: bool)
      ensures accept == Accepts(router.table.routes, r)
    {
      var existing := router.table.FindRoute(r.destination);
      match existing
      case Some(e) => accept := r.metric < e.metric || (r.metric == e.metric && r.nextHop != e.nextHop);
      case None => accept := true;
    }

    method UpdateRouteStates(news: seq<(string, RouteState)>)
      modifies this`routeStates
      ensures routeStates == Recorded(old(routeStates), news)
    {
      ghost var before := routeStates;
      for i := 0 to |news|
        invariant routeStates == Recorded(before, news[..i])
      {
        assert news[..i + 1][..i] == news[..i];
        routeStates := routeStates[news[i].0 := news[i].1];
      }
      assert news[..|news|] == news;
    }

    /** The candidates that the table as it stands lets in, with the states to record for them. */
    method SelectRoutes(update: RoutingUpdate, sender: Addr, now: nat)
      returns (newRoutes: seq<RouteEntry>, newStates: seq<(string, RouteState)>)
      ensures var cands := Candidates(Cfg(), update.routes, sender);
        && newRoutes == AcceptedRoutes(router.table.routes, cands)
        && newStates == AcceptedStates(router.table.routes, Texts(update.routes), cands, update.routerId, now)
    {
      var cfg := Config(router.id, router.interfaces, router.table.localNetworks);
      newRoutes, newStates := [], [];
      ghost var cands, texts := Candidates(cfg, update.routes, sender), Texts(update.routes);
      for i := 0 to |update.routes|
        invariant newRoutes == AcceptedRoutes(router.table.routes, cands[..i])
        invariant newStates == AcceptedStates(router.table.routes, texts[..i], cands[..i], update.routerId, now)
      {
        AcceptedSnoc(router.table.routes, texts, cands, i, update.routerId, now);
        var processed := ProcessSingleRoute(update.routes[i], update.routerId, sender, cfg, now);
        if processed.Some? {
          var (r, state) := processed.value;
          var accept := ShouldAcceptRoute(r);
          if accept {
            newRoutes := newRoutes + [r];
            newStates := newStates + [(update.routes[i].destination, state)];
          }
        }
      }
      assert cands[..|cands|] == cands && texts[..|texts|] == texts;
    }

    method ProcessRoutingUpdate(update: RoutingUpdate, from: IpAddr, now: nat) returns (ok: bool)
      requires Valid()
      modifies this`routeStates, router.table
      ensures Valid()
      ensures ok <==> from.V4?
      ensures Contents() == if ok then Processed(Cfg(), old(Contents()), update, from.addr, now) else old(Contents())
    {
      if from.V6? {
        return false;
      }
      var newRoutes, newStates := SelectRoutes(update, from.addr, now);
      UpdateRouteStates(newStates);
      if newRoutes != [] {
        router.UpdateRoutingTable(newRoutes);
      }
      return true;
    }

    // ----- incoming messages; the receive loop drops datagrams from our own addresses

    method IsFromOurselves(ip: IpAddr) returns (own: bool)
      ensures own == OwnAddress(Cfg(), ip)
    {
      for i := 0 to |router.interfaces|
        invariant forall j :: 0 <= j < i ==> ip != V4(router.interfaces[j].ip)
      {
        if ip == V4(router.interfaces[i].ip) {
          return true;
        }
      }
      return false;
    }

    /** Records the greeting. A false result stands for the panic on an unparsable interface address,
        which ends the program's listener before it touches anything. */
    method HandleHello(hello: HelloMessage, ip: IpAddr, now: nat) returns (ok: bool)
      requires Valid()
      modifies this`neighbors
      ensures Valid()
      ensures ok <==> OwnAddress(Cfg(), ip) || hello.routerId == router.id || Parsable(hello)
      ensures Contents() == if Parsable(hello) then HelloReceived(Cfg(), old(Contents()), Parsed(hello), ip, now)
                            else old(Contents())
    {
      var own := IsFromOurselves(ip);
      if own || hello.routerId == router.id {
        return true;
      }
      if !Parsable(hello) {
        return false;
      }
      var parsed := Parsed(hello);
      neighbors := neighbors[hello.routerId := NeighborInfo(parsed.interfaces, now, ip, true)];
      return true;
    }

    /** A false result stands for the panic on a sender that is not IPv4; by then the sender's
        silence has ended, and nothing else has changed. */
    method HandleUpdate(update: RoutingUpdate, ip: IpAddr, now: nat) returns (ok: bool)
      requires Valid()
      modifies this`neighbors, this`routeStates, router.table
      ensures Valid()
      ensures ok <==> OwnAddress(Cfg(), ip) || update.routerId == router.id || ip.V4?
      ensures Contents() == UpdateReceived(Cfg(), old(Contents()), update, ip, now)
    {
      var own := IsFromOurselves(ip);
      if own || update.routerId == router.id {
        return true;
      }
      if update.routerId in neighbors {
        var nb := neighbors[update.routerId];
        nb := nb.(lastSeen := now);
        if !nb.isAlive {
          nb := nb.(isAlive := true);
        }
        neighbors := neighbors[update.routerId := nb];
      }
      ok := ProcessRoutingUpdate(update, ip, now);
    }

    // ----- cleanup; hash maps and sets are visited in an arbitrary order

    method MarkNeighbors(now: nat) returns (dead: seq<string>)
      modifies this`neighbors
      ensures neighbors == Marked(old(neighbors), now)
      ensures forall id :: id in dead <==> id in NewlyDead(old(neighbors), now)
    {
      ghost var before := neighbors;
      dead := [];
      var todo := neighbors.Keys;
      while todo != {}
        invariant neighbors.Keys == before.Keys && todo <= before.Keys
        invariant forall id :: id in before ==>
                    neighbors[id] == if id in todo then before[id] else Marked(before, now)[id]
        invariant forall id :: id in dead <==> id in NewlyDead(before, now) && id !in todo
        decreases todo
      {
        var id :| id in todo;
        todo := todo - {id};
        if Silent(neighbors[id], now) {
          if neighbors[id].isAlive {
            neighbors := neighbors[id := neighbors[id].(isAlive := false)];
            dead := dead + [id];
          }
        } else if !neighbors[id].isAlive {
          neighbors := neighbors[id := neighbors[id].(isAlive := true)];
        }
      }
    }

    method StaleRoutes(now: nat) returns (stale: seq<string>)
      ensures forall k :: k in stale <==> k in Stale(routeStates, now)
    {
      stale := [];
      var todo := routeStates.Keys;
      while todo != {}
        invariant todo <= routeStates.Keys
        invariant forall k :: k in stale <==> k in Stale(routeStates, now) && k !in todo
        decreases todo
      {
        var k :| k in todo;
        todo := todo - {k};
        if Since(now, routeStates[k].lastAdvertised) > ROUTE_TIMEOUT {
          stale := stale + [k];
        }
      }
    }

    /** Removes the given states and the routes to their destinations. */
    method RemoveCovered(keys: set<string>)
      requires Valid()
      modifies this`routeStates, router.table
      ensures Valid() && routeStates == old(routeStates) - keys
      ensures router.table.Contents() == Pruned(old(router.table.Contents()), Destinations(old(routeStates), keys), {})
    {
      ghost var t, before := router.table.Contents(), routeStates;
      var todo := keys;
      PrunedByNothing(t);
      assert Destinations(before, keys - todo) == {};
      while todo != {}
        invariant Valid() && todo <= keys
        invariant routeStates == before - (keys - todo)
        invariant router.table.Contents() == Pruned(t, Destinations(before, keys - todo), {})
        decreases todo
      {
        var k :| k in todo;
        ghost var done := keys - todo;
        todo := todo - {k};
        assert keys - todo == done + {k};
        if k in routeStates {
          var state := routeStates[k];
          routeStates := routeStates - {k};
          PrunedByDestinationsTwice(t, Destinations(before, done), {state.route.destination});
          assert Destinations(before, done + {k}) == Destinations(before, done) + {state.route.destination};
          router.table.RemoveRoute(state.route);
        } else {
          assert Destinations(before, done + {k}) == Destinations(before, done);
        }
      }
      assert keys - todo == keys;
    }

    method GetNeighborIp(id: string) returns (ip: Option<Addr>)
      ensures ip == if id in neighbors && neighbors[id].ip.V4? then Some(neighbors[id].ip.addr) else None
    {
      ip := None;
      if id in neighbors && neighbors[id].ip.V4? {
        ip := Some(neighbors[id].ip.addr);
      }
    }

    /** Removes the routes via the last known address of each of the given neighbours. */
    method RemoveViaNeighbors(dead: seq<string>)
      requires Valid()
      modifies router.table
      ensures Valid()
      ensures router.table.Contents()
           == Pruned(old(router.table.Contents()), {}, AddressesOf(neighbors, SetOf(dead)))
    {
      ghost var t := router.table.Contents();
      PrunedByNothing(t);
      assert AddressesOf(neighbors, SetOf(dead[..0])) == {};
      for i := 0 to |dead|
        invariant Valid()
        invariant router.table.Contents() == Pruned(t, {}, AddressesOf(neighbors, SetOf(dead[..i])))
      {
        ghost var done := SetOf(dead[..i]);
        assert SetOf(dead[..i + 1]) == done + {dead[i]};
        var ip := GetNeighborIp(dead[i]);
        if ip.Some? {
          PrunedByHopsTwice(t, AddressesOf(neighbors, done), {ip.value});
          assert AddressesOf(neighbors, done + {dead[i]}) == AddressesOf(neighbors, done) + {ip.value};
          var _ := router.table.RemoveRoutesViaNexthop(ip.value);
        } else {
          assert AddressesOf(neighbors, done + {dead[i]}) == AddressesOf(neighbors, done);
        }
      }
      assert dead[..|dead|] == dead;
    }

    method PerformCleanup(now: nat)
      requires Valid()
      modifies this`neighbors, this`routeStates, router.table
      ensures Valid() && Contents() == Cleaned(old(Contents()), now)
    {
      ghost var before := Contents();
      var dead := MarkNeighbors(now);
      var stale := StaleRoutes(now);
      assert SetOf(dead) == NewlyDead(before.neighbors, now);
      if dead != [] || stale != [] {
        var doomed := set k | k in routeStates && (routeStates[k].advertisingNeighbor in dead || k in stale);
        assert doomed == Doomed(before, now);
        if doomed != {} {
          RemoveCovered(doomed);
        }
      }
      ghost var dests := Destinations(before.states, Doomed(before, now));
      ghost var vias := AddressesOf(before.neighbors, NewlyDead(before.neighbors, now));
      assert router.table.Contents() == Pruned(before.table, dests, {})
          && routeStates == before.states - Doomed(before, now) by {
        PrunedByNothing(before.table);
        if Doomed(before, now) == {} {
          assert dests == {};
        }
      }
      assert AddressesOf(neighbors, SetOf(dead)) == vias;
      PrunedByBoth(before.table, dests, vias);
      RemoveViaNeighbors(dead);
    }

    // ----- outgoing updates

    method SendRoutingUpdates() returns (update: RoutingUpdate)
      requires Valid()
      modifies this`sequence
      ensures Valid() && update == UpdateSent(Cfg(), old(Contents()))
      ensures Contents() == old(Contents()).(sequence := update.sequence)
    {
      sequence := (sequence + 1) % U64_SPACE;
      var infos: seq<RouteInfo> := [];
      for i := 0 to |router.table.routes|
        invariant infos == InfosOf(router.table.routes[..i])
      {
        infos := infos + [InfoOf(router.table.routes[i])];
      }
      assert router.table.routes[..|router.table.routes|] == router.table.routes;
      update := RoutingUpdate(router.id, sequence, infos);
    }
  }
}
