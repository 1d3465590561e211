/** The interface a route is recorded with is one on which its sender is really heard. */
module Interfaces {
  import opened Ipv4
  import opened Routes
  import opened Nodes
  import opened Invariants
  import opened Interleaving
  import opened Network
  import opened UpdateRuns
  import opened CleanupRuns
  import opened Teaching

  /** Interface k of cfg, named so, is on the subnet of iface. */
  ghost predicate NamesSubnet(cfg: Config, name: string, iface: InterfaceInfo) {
    exists k :: 0 <= k < |cfg.interfaces| && cfg.interfaces[k].name == name
                && cfg.interfaces[k].network.Masked() == iface.network.Masked()
  }

  lemma HeardOnSubnet(net: seq<Config>, r: nat, m: Message, name: string)
    requires GoodNetwork(net) && SubnetsDisjoint(net) && r < |net| && Sendable(net, m)
    requires NamesHeard(net[r].interfaces, m.iface.ip, name)
    ensures NamesSubnet(net[r], name, m.iface)
  {
    var k: nat :| HeardOn(net[r].interfaces, m.iface.ip, name, k);
    var j :| 0 <= j < |net[m.sender].interfaces| && net[m.sender].interfaces[j] == m.iface;
    assert GoodInterface(net[m.sender].interfaces[j]);
    assert net[m.sender].interfaces[j].network.Contains(m.iface.ip);
  }

  /** With disjoint subnets a changed entry names an interface on the subnet the message was sent on. */
  lemma {:induction false} DeliveryNamesSubnet(net: seq<Config>, st: NetState, r: nat, m: Message, now: nat,
                                               d: Ipv4Network)
    requires GoodNetwork(net) && SubnetsDisjoint(net) && Enabled(net, st, Deliver(r, m, now))
    requires WellFormed(net[r], RoutesAt(st, r))
    requires var rs' := RoutesAt(After(net, st, Deliver(r, m, now)), r);
      Lookup(rs', d).Some? && Lookup(rs', d) != Lookup(RoutesAt(st, r), d)
    ensures NamesSubnet(net[r], Lookup(RoutesAt(After(net, st, Deliver(r, m, now)), r), d).value.iface, m.iface)
  {
    DeliveryOutcome(net, st, r, m, now);
    hide GoodNetwork, SubnetsDisjoint, WellFormed, Hears, NamesHeard, NotWorse, NamesSubnet;
    var x := Lookup(NodeAfter(net, st, Deliver(r, m, now)).table.routes, d).value;
    var e :| e in m.entries && LearnedFrom(net[r], m, e, x);
    HeardOnSubnet(net, r, m, x.iface);
  }

  /** A protocol entry of router r names an interface on a subnet shared with another router. */
  ghost predicate NamesNeighbor(net: seq<Config>, r: nat, e: RouteEntry) {
    e.source == Protocol ==>
      exists s: nat, iface ::
        r < |net| && s < |net| && s != r && iface in net[s].interfaces && NamesSubnet(net[r], e.iface, iface)
  }

  ghost predicate AllNameNeighbors(net: seq<Config>, st: NetState) {
    |st.nodes| == |net| && forall r, e :: 0 <= r < |net| && e in RoutesAt(st, r) ==> NamesNeighbor(net, r, e)
  }

  lemma StepNamesNeighbors(net: seq<Config>, st: NetState, step: NetStep)
    requires GoodNetwork(net) && SubnetsDisjoint(net) && AllOrderly(net, st) && AllNameNeighbors(net, st)
    requires Enabled(net, st, step)
    ensures AllNameNeighbors(net, After(net, st, step))
  {
    hide GoodNetwork, SubnetsDisjoint, NamesHeard, NamesSubnet, NamesNeighbor;
    var st' := After(net, st, step);
    StepEntries(net, st, step);
    forall x | x in RoutesAt(st', step.router) && x !in RoutesAt(st, step.router)
      ensures NamesNeighbor(net, step.router, x)
    {
      var e :| e in step.m.entries && LearnedFrom(net[step.router], step.m, e, x);
      HeardOnSubnet(net, step.router, step.m, x.iface);
      NeighborNamed(net, step.router, step.m.sender, step.m.iface, x);
    }
  }

  lemma NeighborNamed(net: seq<Config>, r: nat, s: nat, iface: InterfaceInfo, x: RouteEntry)
    requires Hears(net, r, s) && iface in net[s].interfaces && NamesSubnet(net[r], x.iface, iface)
    ensures NamesNeighbor(net, r, x)
  {
    hide NamesSubnet;
  }

  /** In every run, cleanups included, with disjoint subnets every protocol entry does. */
  lemma {:induction false} EntriesNameNeighbors(net: seq<Config>, st: NetState, steps: seq<NetStep>)
    requires GoodNetwork(net) && SubnetsDisjoint(net) && Initial(net, st) && IsRun(net, st, steps)
    ensures AllNameNeighbors(net, RunOf(net, st, steps))
  {
    if steps == [] {
      StartsDirect(net, st);
    } else {
      hide GoodNetwork, SubnetsDisjoint, Initial, AllNameNeighbors;
      var front := steps[..|steps| - 1];
      EntriesNameNeighbors(net, st, front);
      RunIsOrderly(net, st, front);
      StepNamesNeighbors(net, RunOf(net, st, front), steps[|steps| - 1]);
    }
  }

  lemma StartsDirect(net: seq<Config>, st: NetState)
    requires Initial(net, st)
    ensures AllNameNeighbors(net, st)
  {
    forall r, e | 0 <= r < |net| && e in RoutesAt(st, r)
      ensures e.source == Direct
    {
      assert Fresh(net[r], st.nodes[r]);
    }
  }
}
