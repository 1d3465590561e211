/** A router owns its table: it installs the direct routes and decides on each new route (src/router.rs). */
module Routers {
  import opened Options
  import opened Ipv4
  import opened Routes
  import opened RoutingTables
  import opened Nodes
  import opened Invariants

  class Router {
    const id: string
    const interfaces: seq<InterfaceInfo>
    const table: RoutingTable

    ghost function Configuration(): Config {
      Config(id, interfaces, table.localNetworks)
    }

    /** Afterwards the table holds the direct routes and nothing else, and the kernel is as it was. */
    constructor (id: string, interfaces: seq<InterfaceInfo>, localNetworks: seq<Ipv4Network>, kernel: Kernel)
      ensures fresh(table) && Configuration() == Config(id, interfaces, localNetworks)
      ensures table.Valid() && table.Contents() == StartTable(interfaces, localNetworks, kernel)
      ensures WellFormed(Configuration(), table.routes) && table.kernel == kernel
      ensures forall e :: e in table.routes ==> e.source == Direct
    {
      var t := new RoutingTable(localNetworks, kernel);
      for n := 0 to |interfaces|
        invariant fresh(t) && t.Valid() && t.localNetworks == localNetworks
        invariant t.Contents() == StartTable(interfaces[..n], localNetworks, kernel)
      {
        var r := DirectRoute(interfaces[n]);
        assert interfaces[..n + 1][..n] == interfaces[..n];
        t.AddRoute(r);
      }
      assert interfaces[..|interfaces|] == interfaces;
      StartIsWellFormed(Config(id, interfaces, localNetworks), kernel);
      this.id, this.interfaces, this.table := id, interfaces, t;
    }

    method UpdateRoutingTable(newRoutes: seq<RouteEntry>)
      requires table.Valid()
      modifies table
      ensures table.Valid()
      ensures table.Contents() == UpdatedAll(table.localNetworks, old(table.Contents()), newRoutes)
    {
      ghost var before := table.Contents();
      assert newRoutes[..0] == [];
      for n := 0 to |newRoutes|
        invariant table.Valid()
        invariant table.Contents() == UpdatedAll(table.localNetworks, before, newRoutes[..n])
      {
        var r := newRoutes[n];
        assert newRoutes[..n + 1][..n] == newRoutes[..n];
        if !table.HasBetterRoute(r) {
          var existing := table.FindRoute(r.destination);
          if existing.Some? && existing.value.metric == r.metric && existing.value.nextHop != r.nextHop {
            table.ReplaceRoute(r);
          } else {
            table.AddRoute(r);
          }
        }
      }
      assert newRoutes[..|newRoutes|] == newRoutes;
    }
  }

  function DirectRoute(i: InterfaceInfo): RouteEntry {
    RouteEntry(i.network, UNSPECIFIED, i.name, 0, Direct)
  }

  /** The table of a router just constructed: the direct routes, added in order. */
  ghost function StartTable(interfaces: seq<InterfaceInfo>, local: seq<Ipv4Network>, kernel: Kernel): Table {
    if interfaces == [] then Table([], kernel)
    else
      var n := |interfaces| - 1;
      Added(local, StartTable(interfaces[..n], local, kernel), DirectRoute(interfaces[n]))
  }

  /** A further interface: its direct route is added unless that network already has one. */
  lemma LookupDirectAdded(cfg: Config, t: Table, i: InterfaceInfo, d: Ipv4Network)
    requires WellFormed(cfg, t.routes)
    requires forall e :: e in t.routes ==> e.source == Direct
    ensures var after := Added(cfg.local, t, DirectRoute(i));
      && Distinct(after.routes) && after.kernel == t.kernel
      && (Lookup(after.routes, d) == Lookup(t.routes, d)
          || (d == i.network && Lookup(after.routes, d) == Some(DirectRoute(i))))
      && Lookup(after.routes, i.network).Some?
  {
    LookupAdded(cfg.local, t, DirectRoute(i), d);
    LookupAdded(cfg.local, t, DirectRoute(i), i.network);
    var p := Index(t.routes, i.network);
    if p < |t.routes| {
      WellFormedMember(cfg, t.routes, t.routes[p]);
    }
  }

  lemma DirectRouteAdded(cfg: Config, t: Table, i: InterfaceInfo)
    requires WellFormed(cfg, t.routes)
    requires forall e :: e in t.routes ==> e.source == Direct
    ensures var after := Added(cfg.local, t, DirectRoute(i));
      && WellFormed(cfg.(interfaces := cfg.interfaces + [i]), after.routes)
      && (forall e :: e in after.routes ==> e.source == Direct)
      && after.kernel == t.kernel
  {
    var cfg' := cfg.(interfaces := cfg.interfaces + [i]);
    var after := Added(cfg.local, t, DirectRoute(i)).routes;
    LookupDirectAdded(cfg, t, i, i.network);
    assert forall d :: IsOurNetwork(cfg.interfaces, d) ==> IsOurNetwork(cfg'.interfaces, d) by {
      assert forall k :: 0 <= k < |cfg.interfaces| ==> cfg'.interfaces[k] == cfg.interfaces[k];
    }
    assert IsOurNetwork(cfg'.interfaces, i.network) by {
      assert cfg'.interfaces[|cfg.interfaces|] == i;
    }
    forall d
      ensures Lookup(after, d).Some? ==>
        WellFormedEntry(cfg', Lookup(after, d).value) && Lookup(after, d).value.source == Direct
      ensures Lookup(t.routes, d).Some? ==> Lookup(after, d).Some?
    {
      LookupDirectAdded(cfg, t, i, d);
      if Lookup(t.routes, d).Some? {
        LookupMember(t.routes, Lookup(t.routes, d).value);
      }
    }
    forall e | e in after
      ensures e.source == Direct
    {
      LookupMember(after, e);
    }
  }

  /** It is well-formed, holds direct routes only, and leaves the kernel as it was. */
  lemma {:induction false} StartIsWellFormed(cfg: Config, kernel: Kernel)
    ensures var t := StartTable(cfg.interfaces, cfg.local, kernel);
      WellFormed(cfg, t.routes) && t.kernel == kernel && forall e :: e in t.routes ==> e.source == Direct
    decreases |cfg.interfaces|
  {
    if cfg.interfaces == [] {
    } else {
      var n := |cfg.interfaces| - 1;
      var front := cfg.(interfaces := cfg.interfaces[..n]);
      StartIsWellFormed(front, kernel);
      DirectRouteAdded(front, StartTable(front.interfaces, cfg.local, kernel), cfg.interfaces[n]);
      assert front.interfaces + [cfg.interfaces[n]] == cfg.interfaces;
    }
  }

  /** Interface k is the first one with network d. */
  ghost predicate FirstWith(interfaces: seq<InterfaceInfo>, d: Ipv4Network, k: nat) {
    k < |interfaces| && interfaces[k].network == d && forall i :: 0 <= i < k ==> interfaces[i].network != d
  }

  /** d has the direct route over the first of its interfaces, and none if it has no interface. */
  ghost predicate DirectEntry(interfaces: seq<InterfaceInfo>, d: Ipv4Network, e: Option<RouteEntry>) {
    match e
    case None => !IsOurNetwork(interfaces, d)
    case Some(r) => exists k: nat :: FirstWith(interfaces, d, k) && r == RouteEntry(d, 0, interfaces[k].name, 0, Direct)
  }

  lemma DirectEntryStep(local: seq<Ipv4Network>, front: seq<InterfaceInfo>, t: Table, last: InterfaceInfo,
                        d: Ipv4Network)
    requires Distinct(t.routes) && DirectEntry(front, d, Lookup(t.routes, d))
    ensures DirectEntry(front + [last], d, Lookup(Added(local, t, DirectRoute(last)).routes, d))
  {
    LookupAdded(local, t, DirectRoute(last), d);
    hide Added, Lookup;
    var all := front + [last];
    assert all[|front|] == last && forall k :: 0 <= k < |front| ==> all[k] == front[k];
    if Lookup(t.routes, d).Some? {
      var k: nat :| FirstWith(front, d, k) && Lookup(t.routes, d).value == RouteEntry(d, 0, front[k].name, 0, Direct);
      assert FirstWith(all, d, k);
    } else if last.network == d {
      assert FirstWith(all, d, |front|);
    }
  }

  /** Each interface network has a direct route without next hop, of metric 0, over the first of its interfaces. */
  lemma {:induction false} FirstInterfaceWins(cfg: Config, kernel: Kernel, d: Ipv4Network)
    ensures DirectEntry(cfg.interfaces, d, Lookup(StartTable(cfg.interfaces, cfg.local, kernel).routes, d))
    decreases |cfg.interfaces|
  {
    if cfg.interfaces != [] {
      var n := |cfg.interfaces| - 1;
      var front := cfg.(interfaces := cfg.interfaces[..n]);
      FirstInterfaceWins(front, kernel, d);
      StartIsWellFormed(front, kernel);
      hide WellFormedEntry, DirectEntry, Added;
      var t := StartTable(front.interfaces, cfg.local, kernel);
      DirectEntryStep(cfg.local, front.interfaces, t, cfg.interfaces[n], d);
      assert front.interfaces + [cfg.interfaces[n]] == cfg.interfaces;
    }
  }
}
