/** Well-formed tables, and what every locked operation of a router keeps. */
module Invariants {
  import opened Options
  import opened Ipv4
  import opened Ipv4Text
  import opened Routes
  import opened KernelMirror
  import opened Pruning
  import opened Nodes

  /** What is true of any one entry of a router's table. */
  ghost predicate WellFormedEntry(cfg: Config, e: RouteEntry) {
    match e.source
    case Direct => IsOurNetwork(cfg.interfaces, e.destination) && e.metric == 0 && e.nextHop == UNSPECIFIED
    case Protocol => && e.destination.IsMasked() && !IsOurNetwork(cfg.interfaces, e.destination)
                     && ValidRoute(cfg.local, e)
    case Static => false
  }

  /** Destinations are distinct, entries well-formed, and every interface has its direct route. */
  ghost predicate WellFormed(cfg: Config, rs: seq<RouteEntry>) {
    && Distinct(rs)
    && (forall d :: Lookup(rs, d).Some? ==> WellFormedEntry(cfg, Lookup(rs, d).value))
    && (forall i :: 0 <= i < |cfg.interfaces| ==> Lookup(rs, cfg.interfaces[i].network).Some?)
  }

  lemma WellFormedMember(cfg: Config, rs: seq<RouteEntry>, e: RouteEntry)
    requires WellFormed(cfg, rs) && e in rs
    ensures WellFormedEntry(cfg, e) && Lookup(rs, e.destination) == Some(e)
  {
    LookupMember(rs, e);
  }

  lemma WellFormedKeys(cfg: Config, rs: seq<RouteEntry>)
    requires WellFormed(cfg, rs)
    ensures MaskedKeys(rs)
  {
    forall e | e in rs
      ensures MaskedKey(e)
    {
      WellFormedMember(cfg, rs, e);
    }
  }

  // ----- candidates

  /** What is true of every candidate, whatever was advertised and whoever sent it. */
  ghost predicate CandidateShape(cfg: Config, r: RouteEntry) {
    r.source == Protocol && r.destination.IsMasked() && !IsOurNetwork(cfg.interfaces, r.destination)
  }

  lemma CandidateHasShape(cfg: Config, info: RouteInfo, sender: Addr)
    requires Candidate(cfg, info, sender).Some?
    ensures CandidateShape(cfg, Candidate(cfg, info, sender).value)
    ensures Canonical(info.destination) == Some(Candidate(cfg, info, sender).value.destination)
    ensures Candidate(cfg, info, sender).value.metric == 0 <==> info.metric == U32_MAX
  {
    CanonicalIsMasked(info.destination);
  }

  /** The environment the code is written for: interface networks are local networks without
      loopback addresses. */
  ghost predicate SaneConfig(cfg: Config) {
    && (forall i :: 0 <= i < |cfg.interfaces| ==> cfg.interfaces[i].network in cfg.local)
    && (forall i, a: Addr :: 0 <= i < |cfg.interfaces| && cfg.interfaces[i].network.Contains(a) ==> !IsLoopback(a))
  }

  /** There, a candidate can fail validation only for leading to a local network. */
  lemma CandidateValidIff(cfg: Config, info: RouteInfo, sender: Addr)
    requires SaneConfig(cfg) && sender != UNSPECIFIED
    requires Candidate(cfg, info, sender).Some?
    ensures ValidRoute(cfg.local, Candidate(cfg, info, sender).value)
      <==> !IsLocal(cfg.local, Candidate(cfg, info, sender).value.destination)
  {
    var k: nat :| IsBestInterface(cfg.interfaces, sender, k);
    var hop := Candidate(cfg, info, sender).value.nextHop;
    var i :| 0 <= i < |cfg.interfaces| && cfg.interfaces[i].network.Contains(hop);
    assert cfg.interfaces[i].network in cfg.local;
  }

  /** Validation, read off the texts: a route that is not direct must lead to no local network, and
      via a hop that is not "0.0.0.0", does not begin with "127." and lies in a local network. */
  lemma ValidInText(local: seq<Ipv4Network>, r: RouteEntry)
    requires r.source != Direct
    ensures ValidRoute(local, r)
      <==> && (forall n :: n in local ==> n.Masked() != r.destination.Masked())
           && PrintAddr(r.nextHop) != "0.0.0.0" && !("127." <= PrintAddr(r.nextHop))
           && (exists n :: n in local && n.Contains(r.nextHop))
  {
    LoopbackText(r.nextHop);
    UnspecifiedText(r.nextHop);
    hide PrintAddr, IsLoopback;
  }

  // ----- the interface a route is recorded with

  /** Interface k, named so, contains the sender, and is the first of least metric among those that do. */
  ghost predicate HeardOn(interfaces: seq<InterfaceInfo>, sender: Addr, name: string, k: nat) {
    && k < |interfaces| && interfaces[k].name == name && interfaces[k].network.Contains(sender)
    && (forall i :: 0 <= i < |interfaces| && interfaces[i].network.Contains(sender) ==>
          interfaces[k].metric <= interfaces[i].metric)
    && (forall i :: 0 <= i < k && interfaces[i].network.Contains(sender) ==>
          interfaces[k].metric < interfaces[i].metric)
  }

  ghost predicate NamesHeard(interfaces: seq<InterfaceInfo>, sender: Addr, name: string) {
    exists k: nat :: HeardOn(interfaces, sender, name, k)
  }

  lemma {:induction false} BestInterfaceExists(interfaces: seq<InterfaceInfo>, sender: Addr, n: nat) returns (k: nat)
    requires n <= |interfaces|
    requires exists i :: 0 <= i < n && interfaces[i].network.Contains(sender) && interfaces[i].metric < U32_MAX
    ensures IsBestInterface(interfaces[..n], sender, k)
  {
    if i :| 0 <= i < n - 1 && interfaces[i].network.Contains(sender) && interfaces[i].metric < U32_MAX {
      k := BestInterfaceExists(interfaces, sender, n - 1);
      if interfaces[n - 1].network.Contains(sender) && interfaces[n - 1].metric < interfaces[k].metric {
        k := n - 1;
      }
    } else {
      k := n - 1;
    }
  }

  /** There is a candidate exactly if both texts parse, the masked destination is no interface's own
      network, and some interface of a metric below the maximum contains the sender. */
  lemma CandidateExistsIff(cfg: Config, info: RouteInfo, sender: Addr)
    ensures Candidate(cfg, info, sender).Some?
      <==> && ParseNetwork(info.destination).Some? && ParseAddr(info.nextHop).Some?
           && (forall i :: 0 <= i < |cfg.interfaces| ==>
                 cfg.interfaces[i].network != ParseNetwork(info.destination).value.Masked())
           && (exists i :: 0 <= i < |cfg.interfaces| && cfg.interfaces[i].network.Contains(sender)
                           && cfg.interfaces[i].metric < U32_MAX)
  {
    CanonicalIsMasked(info.destination);
    hide Canonical, ParseNetwork, ParseAddr;
    assert cfg.interfaces[..|cfg.interfaces|] == cfg.interfaces;
    if exists i :: 0 <= i < |cfg.interfaces| && cfg.interfaces[i].network.Contains(sender)
                   && cfg.interfaces[i].metric < U32_MAX {
      var k := BestInterfaceExists(cfg.interfaces, sender, |cfg.interfaces|);
    }
  }

  /** Read off the texts: it leads to the masked destination, one metric further (modulo 2^32), via the
      advertised hop unless that is "0.0.0.0" or in none of our interfaces' networks, and else via the sender. */
  lemma CandidateInText(cfg: Config, info: RouteInfo, sender: Addr)
    requires Candidate(cfg, info, sender).Some?
    ensures ParseNetwork(info.destination).Some? && ParseAddr(info.nextHop).Some?
    ensures var c, hop := Candidate(cfg, info, sender).value, ParseAddr(info.nextHop).value;
      && c.destination == ParseNetwork(info.destination).value.Masked()
      && c.metric == (info.metric + 1) % 0x1_0000_0000
      && PrintAddr(c.nextHop)
         == (if info.nextHop != "0.0.0.0"
                && exists i :: 0 <= i < |cfg.interfaces| && cfg.interfaces[i].network.Contains(hop)
             then info.nextHop else PrintAddr(sender))
  {
    hide Canonical, ParseNetwork, ParseAddr, PrintAddr, BestInterface, IsOurNetwork;
    CanonicalIsMasked(info.destination);
    var hop := ParseAddr(info.nextHop).value;
    AddrTextIsExact(info.nextHop, hop);
    UnspecifiedText(hop);
  }

  /** A candidate is recorded with the interface that its sender is heard on. */
  lemma CandidateNamesInterface(cfg: Config, info: RouteInfo, sender: Addr)
    requires Candidate(cfg, info, sender).Some?
    ensures NamesHeard(cfg.interfaces, sender, Candidate(cfg, info, sender).value.iface)
  {
    hide Canonical, ParseAddr, NextHopFor;
    var k: nat :| IsBestInterface(cfg.interfaces, sender, k)
                  && BestInterface(cfg.interfaces, sender) == Some(cfg.interfaces[k]);
    assert HeardOn(cfg.interfaces, sender, cfg.interfaces[k].name, k);
  }

  // ----- what one new route and one removal keep

  /** Processing one candidate keeps the table well-formed and every direct route as it is. */
  lemma UpdatedWellFormed(cfg: Config, t: Table, r: RouteEntry)
    requires WellFormed(cfg, t.routes) && CandidateShape(cfg, r)
    ensures WellFormed(cfg, Updated(cfg.local, t, r).routes)
    ensures forall i :: 0 <= i < |cfg.interfaces| ==>
      Lookup(Updated(cfg.local, t, r).routes, cfg.interfaces[i].network) == Lookup(t.routes, cfg.interfaces[i].network)
    ensures forall key :: MirrorsAt(t, key) ==> MirrorsAt(Updated(cfg.local, t, r), key)
  {
    var after := Updated(cfg.local, t, r).routes;
    LookupUpdated(cfg.local, t, r, r.destination);
    forall d
      ensures Lookup(after, d).Some? ==> WellFormedEntry(cfg, Lookup(after, d).value)
      ensures d != r.destination ==> Lookup(after, d) == Lookup(t.routes, d)
    {
      LookupUpdated(cfg.local, t, r, d);
    }
    WellFormedKeys(cfg, t.routes);
    forall key
      ensures MirrorsAt(t, key) ==> MirrorsAt(Updated(cfg.local, t, r), key)
    {
      UpdatedMirrorsAt(cfg.local, t, r, key);
    }
  }

  lemma {:induction false} UpdatedAllWellFormed(cfg: Config, t: Table, rs: seq<RouteEntry>)
    requires WellFormed(cfg, t.routes) && forall r :: r in rs ==> CandidateShape(cfg, r)
    ensures WellFormed(cfg, UpdatedAll(cfg.local, t, rs).routes)
    ensures forall i :: 0 <= i < |cfg.interfaces| ==>
      Lookup(UpdatedAll(cfg.local, t, rs).routes, cfg.interfaces[i].network)
      == Lookup(t.routes, cfg.interfaces[i].network)
    ensures forall key :: MirrorsAt(t, key) ==> MirrorsAt(UpdatedAll(cfg.local, t, rs), key)
  {
    if rs != [] {
      var front := rs[..|rs| - 1];
      UpdatedAllWellFormed(cfg, t, front);
      UpdatedWellFormed(cfg, UpdatedAll(cfg.local, t, front), rs[|rs| - 1]);
    }
  }

  /** Removals that name no interface network keep the table well-formed and the direct routes. */
  lemma PrunedWellFormed(cfg: Config, t: Table, dests: set<Ipv4Network>, vias: set<Addr>)
    requires WellFormed(cfg, t.routes) && forall d :: d in dests ==> !IsOurNetwork(cfg.interfaces, d)
    ensures WellFormed(cfg, Pruned(t, dests, vias).routes)
    ensures forall i :: 0 <= i < |cfg.interfaces| ==>
      Lookup(Pruned(t, dests, vias).routes, cfg.interfaces[i].network) == Lookup(t.routes, cfg.interfaces[i].network)
    ensures forall key :: MirrorsAt(t, key) ==> MirrorsAt(Pruned(t, dests, vias), key)
  {
    var after := Pruned(t, dests, vias).routes;
    SurvivorsDistinct(t.routes, dests, vias);
    forall d
      ensures Lookup(after, d).Some? ==> Lookup(after, d) == Lookup(t.routes, d)
    {
      LookupSurvivors(t.routes, dests, vias, d);
    }
    forall i | 0 <= i < |cfg.interfaces|
      ensures Lookup(after, cfg.interfaces[i].network) == Lookup(t.routes, cfg.interfaces[i].network)
    {
      LookupSurvivors(t.routes, dests, vias, cfg.interfaces[i].network);
    }
    WellFormedKeys(cfg, t.routes);
    forall key
      ensures MirrorsAt(t, key) ==> MirrorsAt(Pruned(t, dests, vias), key)
    {
      PrunedMirrorsAt(t, dests, vias, key);
    }
  }

  // ----- route states

  /** Every state is filed under a text for its own destination, which no interface has. */
  ghost predicate SoundStates(cfg: Config, states: RouteStates) {
    forall k :: k in states ==>
      CandidateShape(cfg, states[k].route) && Canonical(k) == Some(states[k].route.destination)
  }

  ghost predicate SoundNews(cfg: Config, news: seq<(string, RouteState)>) {
    forall x :: x in news ==> CandidateShape(cfg, x.1.route) && Canonical(x.0) == Some(x.1.route.destination)
  }

  lemma {:induction false} RecordedSound(cfg: Config, states: RouteStates, news: seq<(string, RouteState)>)
    requires SoundStates(cfg, states) && SoundNews(cfg, news)
    ensures SoundStates(cfg, Recorded(states, news))
  {
    hide Canonical, IsOurNetwork;
    if news != [] {
      RecordedSound(cfg, states, news[..|news| - 1]);
      assert news[|news| - 1] in news;
    }
  }

  lemma DestinationsNotOurs(cfg: Config, states: RouteStates, keys: set<string>)
    requires SoundStates(cfg, states)
    ensures forall d :: d in Destinations(states, keys) ==> !IsOurNetwork(cfg.interfaces, d)
  {
  }
}
