/** The routing table that is updated in place and pushed to the kernel (src/routing_table.rs). */
module RoutingTables {
  import opened Options
  import opened Ipv4
  import opened Routes
  import opened Pruning

  class RoutingTable {
    var routes: seq<RouteEntry>
    var kernel: Kernel
    const localNetworks: seq<Ipv4Network>

    ghost function Contents(): Table
      reads this
    {
      Table(routes, kernel)
    }

    ghost predicate Valid()
      reads this
    {
      Distinct(routes)
    }

    constructor (localNetworks: seq<Ipv4Network>, kernel: Kernel)
      ensures Valid() && Contents() == Table([], kernel)
      ensures this.localNetworks == localNetworks
    {
      routes := [];
      this.kernel := kernel;
      this.localNetworks := localNetworks;
    }

    // ----- the kernel handle

    method HandleAdd(key: Ipv4Network, gateway: Addr) returns (ok: bool)
      modifies this`kernel
      ensures ok <==> key !in old(kernel)
      ensures kernel == if ok then old(kernel)[key := gateway] else old(kernel)
    {
      ok := key !in kernel;
      if ok {
        kernel := kernel[key := gateway];
      }
    }

    method HandleDelete(key: Ipv4Network, gateway: Addr) returns (ok: bool)
      modifies this`kernel
      ensures ok <==> key in old(kernel) && old(kernel)[key] == gateway
      ensures kernel == if ok then old(kernel) - {key} else old(kernel)
    {
      ok := key in kernel && kernel[key] == gateway;
      if ok {
        kernel := kernel - {key};
      }
    }

    method AddSystemRoute(r: RouteEntry)
      modifies this`kernel
      ensures kernel == KernelAdd(old(kernel), r)
    {
      var key := Net(r.destination.Network(), r.destination.prefix);
      var ok := HandleAdd(key, r.nextHop);
      if !ok {
        var _ := HandleDelete(key, r.nextHop);
        var _ := HandleAdd(key, r.nextHop);
      }
    }

    method DeleteSystemRoute(r: RouteEntry)
      modifies this`kernel
      ensures kernel == KernelDelete(old(kernel), r)
    {
      var _ := HandleDelete(Net(r.destination.Network(), r.destination.prefix), r.nextHop);
    }

    // ----- reading

    method IsValidRoute(r: RouteEntry) returns (ok: bool)
      ensures ok == ValidRoute(localNetworks, r)
    {
      if r.source == Direct {
        return true;
      }
      if IsLoopback(r.nextHop) || r.nextHop == UNSPECIFIED {
        return false;
      }
      for i := 0 to |localNetworks|
        invariant forall j :: 0 <= j < i ==> localNetworks[j].Masked() != r.destination.Masked()
      {
        var n := localNetworks[i];
        if r.destination.Network() == n.Network() && r.destination.prefix == n.prefix {
          assert n in localNetworks && n.Masked() == r.destination.Masked();
          return false;
        }
      }
      for i := 0 to |localNetworks|
        invariant forall j :: 0 <= j < i ==> !localNetworks[j].Contains(r.nextHop)
      {
        if localNetworks[i].Contains(r.nextHop) {
          return true;
        }
      }
      return false;
    }

    function FindRoute(d: Ipv4Network): Option<RouteEntry>
      reads this
    {
      Lookup(routes, d)
    }

    /** Strictly better only: an equal metric does not block an update. */
    predicate HasBetterRoute(r: RouteEntry)
      reads this
    {
      match FindRoute(r.destination)
      case Some(e) => e.metric < r.metric
      case None => false
    }

    // ----- updating

    method AddRoute(r: RouteEntry)
      requires Valid()
      modifies this
      ensures Valid() && Contents() == Added(localNetworks, old(Contents()), r)
    {
      LookupAdded(localNetworks, Contents(), r, r.destination);
      var ok := IsValidRoute(r);
      if !ok {
        return;
      }
      var i := Index(routes, r.destination);
      if i < |routes| {
        var e := routes[i];
        if r.metric < e.metric || (r.source == e.source && r.nextHop != e.nextHop) {
          if e.source != Direct {
            DeleteSystemRoute(e);
          }
          routes := routes[i := r];
          if r.source != Direct {
            AddSystemRoute(r);
          }
        }
      } else {
        routes := routes + [r];
        if r.source != Direct {
          AddSystemRoute(r);
        }
      }
    }

    method RemoveAt(i: nat)
      requires Valid() && i < |routes|
      modifies this
      ensures Valid() && Contents() == RemovedAt(old(Contents()), i)
    {
      LookupRemovedAt(Contents(), i, routes[i].destination);
      if routes[i].source != Direct {
        DeleteSystemRoute(routes[i]);
      }
      routes := routes[..i] + routes[i + 1..];
    }

    method RemoveRoute(r: RouteEntry)
      requires Valid()
      modifies this
      ensures Valid() && Contents() == Pruned(old(Contents()), {r.destination}, {})
    {
      RemovedAtIsPruned(Contents(), r.destination);
      var i := Index(routes, r.destination);
      if i < |routes| {
        RemoveAt(i);
      }
    }

    method ReplaceRoute(r: RouteEntry)
      requires Valid()
      modifies this
      ensures Valid() && Contents() == Replaced(localNetworks, old(Contents()), r)
    {
      var i := Index(routes, r.destination);
      if i < |routes| {
        RemoveAt(i);
      }
      AddRoute(r);
    }

    /** Collects the indices of the routes via hop, then removes them from the back. */
    method RemoveRoutesViaNexthop(hop: Addr) returns (removed: seq<RouteEntry>)
      requires Valid()
      modifies this
      ensures Valid() && Contents() == Pruned(old(Contents()), {}, {hop})
      ensures removed == Reversed(Victims(old(routes), {}, {hop}))
    {
      var indices: seq<nat> := [];
      for i := 0 to |routes|
        invariant ListsVictims(routes, indices, i, {hop})
      {
        if routes[i].nextHop == hop && routes[i].source == Protocol {
          indices := indices + [i];
        }
      }
      SurvivorsDistinct(routes, {}, {hop});
      removed := RemoveIndices(indices, {hop});
    }

    /** Removing from the back keeps the remaining indices correct. */
    method RemoveIndices(indices: seq<nat>, ghost hops: set<Addr>) returns (removed: seq<RouteEntry>)
      requires ListsVictims(routes, indices, |routes|, hops)
      modifies this
      ensures Contents() == Pruned(old(Contents()), {}, hops)
      ensures removed == Reversed(Victims(old(routes), {}, hops))
    {
      ghost var before := Contents();
      removed := [];
      assert Without(kernel, Gone(routes[|routes|..], {}, hops)) == kernel;
      var m := |indices|;
      while m > 0
        invariant 0 <= m <= |indices|
        invariant RemovedFrom(before, Cut(indices, m, |before.routes|), hops, Contents(), removed)
      {
        m := m - 1;
        NoVictimsBetween(before.routes, indices, m + 1, hops);
        RemovalStep(before, indices[m], Cut(indices, m + 1, |before.routes|), hops, Contents(), removed);
        var r := routes[indices[m]];
        routes := routes[..indices[m]] + routes[indices[m] + 1..];
        DeleteSystemRoute(r);
        removed := removed + [r];
      }
      NoVictimsBetween(before.routes, indices, 0, hops);
      RemovalEnd(before, Cut(indices, 0, |before.routes|), hops, Contents(), removed);
    }

    /** On shutdown the protocol routes leave the kernel. */
    method Drop()
      modifies this`kernel
      ensures kernel == Without(old(kernel), ProtocolRoutes(routes))
    {
      ghost var before := kernel;
      assert Without(before, ProtocolRoutes(routes[..0])) == before;
      for i := 0 to |routes|
        invariant kernel == Without(before, ProtocolRoutes(routes[..i]))
      {
        assert routes[..i + 1] == routes[..i] + [routes[i]];
        if routes[i].source == Protocol {
          KernelDeleteIsWithout(before, ProtocolRoutes(routes[..i]), routes[i]);
          assert ProtocolRoutes(routes[..i + 1])
              == ProtocolRoutes(routes[..i]) + {(routes[i].destination.Masked(), routes[i].nextHop)};
          var _ := HandleDelete(Net(routes[i].destination.Network(), routes[i].destination.prefix), routes[i].nextHop);
        } else {
          assert ProtocolRoutes(routes[..i + 1]) == ProtocolRoutes(routes[..i]);
        }
      }
      assert routes[..|routes|] == routes;
    }
  }
}
